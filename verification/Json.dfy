/** JSON values as the conversion code sees them: an object is a finite map from member names,
    so that member order plays no part. */
module Json {
  import opened Wrappers

  /** The member names that the code reads or writes; `OtherName` is any other name. */
  datatype Name =
    | Role | Content | ToolCalls | ToolCallId | Id | Type | Function | NameOf | Arguments
    | TextOf | Input | ToolUseId | CacheControl | Choices | MessageOf | ErrorOf
    | ImageUrl | Url | Source | MediaType | Data
    | Usage | InputTokens | OutputTokens | PromptTokens | CompletionTokens
    | OtherName(name: string)

  datatype Json =
    | Null
    | Bool(b: bool)
    | Number(n: int)
    | Str(s: string)
    | Arr(items: seq<Json>)
    | Obj(members: map<Name, Json>)

  /** cJSON_GetObjectItem: None when `j` is no object or has no such member. */
  function Get(j: Json, name: Name): Option<Json> {
    if j.Obj? && name in j.members then Some(j.members[name]) else None
  }

  /** The member as a string, None when it is missing or no string. */
  function GetStr(j: Json, name: Name): Option<string> {
    match Get(j, name)
    case Some(Str(s)) => Some(s)
    case _ => None
  }

  /** The elements of the member, None when it is missing or no array. */
  function GetArr(j: Json, name: Name): Option<seq<Json>> {
    match Get(j, name)
    case Some(Arr(items)) => Some(items)
    case _ => None
  }

  /** cJSON_AddStringToObject: adding a null pointer adds nothing. */
  function AddStr(members: map<Name, Json>, name: Name, s: Option<string>): map<Name, Json> {
    match s
    case Some(t) => members[name := Str(t)]
    case None => members
  }

  /** Printing and parsing of JSON text, which the library provides. */
  datatype Codec = Codec(print_: Json -> string, parse: string -> Option<Json>)

  /** What is assumed of the library: parsing a printed value gives the value back. */
  ghost predicate Faithful(c: Codec) {
    forall j {:trigger c.print_(j)} :: c.parse(c.print_(j)) == Some(j)
  }
}
