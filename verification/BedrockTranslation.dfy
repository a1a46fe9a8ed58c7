/** The second converter from OpenAI request messages to Anthropic messages, the one for Bedrock. */
module BedrockTranslation {
  import opened Wrappers
  import opened Json
  import opened Text

  /** `data` URLs are cut at their first semicolon and behind the next `base64,`. */
  function ImageOf(block: Json): Option<Json> {
    match GetStr(Get(block, ImageUrl).GetOr(Null), Url)
    case None => None
    case Some(url) =>
      if !("data:" <= url) then None
      else
        var media := url[5..];
        match Find(media, ";")
        case None => None
        case Some(k) =>
          match Find(media[k..], "base64,")
          case None => None
          case Some(b) => Some(ImageBlock(media[..k], media[k..][b + 7..]))
  }

  function ImageBlock(mediaType: string, data: string): Json {
    Obj(map[Type := Str("image"),
            Source := Obj(map[Type := Str("base64"), MediaType := Str(mediaType), Data := Str(data)])])
  }

  /** A block of a content array: images are rewritten, or dropped when malformed; anything else is
      copied. */
  function ContentBlock(block: Json): seq<Json> {
    if GetStr(block, Type) == Some("image_url") then
      match ImageOf(block) case Some(image) => [image] case None => []
    else [block]
  }

  function ContentBlocks(items: seq<Json>): seq<Json> {
    if items == [] then [] else ContentBlock(items[0]) + ContentBlocks(items[1..])
  }

  /** A tool_use block; arguments that do not parse leave it without input. */
  function ToolUseBlock(codec: Codec, call: Json): Json {
    var withId := AddStr(map[Type := Str("tool_use")], Id, GetStr(call, Id));
    match Get(call, Function)
    case None => Obj(withId)
    case Some(function_) =>
      var withName := AddStr(withId, NameOf, GetStr(function_, NameOf));
      match GetStr(function_, Arguments)
      case None => Obj(withName)
      case Some(text) =>
        match codec.parse(text)
        case Some(input) => Obj(withName[Input := input])
        case None => Obj(withName)
  }

  function ToolUseBlocks(codec: Codec, calls: seq<Json>): seq<Json> {
    if calls == [] then [] else [ToolUseBlock(codec, calls[0])] + ToolUseBlocks(codec, calls[1..])
  }

  function LeadingText(content: Option<Json>): seq<Json> {
    match content
    case Some(Str(s)) => if |s| > 0 then [Obj(map[Type := Str("text"), TextOf := Str(s)])] else []
    case _ => []
  }

  function BedrockAssistant(codec: Codec, m: Json): seq<Json> {
    var content := Get(m, Content);
    match GetArr(m, ToolCalls)
    case Some(calls) =>
      var blocks := LeadingText(content) + ToolUseBlocks(codec, calls);
      if blocks == [] then [] else [Obj(map[Role := Str("assistant"), Content := Arr(blocks)])]
    case None =>
      match content
      case Some(Str(s)) => if |s| > 0 then [Obj(map[Role := Str("assistant"), Content := Str(s)])] else []
      case _ => []
  }

  function BedrockUser(m: Json): seq<Json> {
    match Get(m, Content)
    case Some(Str(s)) => if |s| > 0 then [Obj(map[Role := Str("user"), Content := Str(s)])] else []
    case Some(Arr(items)) =>
      var blocks := ContentBlocks(items);
      if blocks == [] then [] else [Obj(map[Role := Str("user"), Content := Arr(blocks)])]
    case _ => []
  }

  /** A result's content: strings and arrays as they are, anything else printed. */
  function ResultContent(codec: Codec, content: Option<Json>): Json {
    match content
    case Some(Str(s)) => Str(s)
    case Some(Arr(items)) => Arr(items)
    case Some(j) => Str(codec.print_(j))
    case None => Str("")
  }

  function BedrockTool(codec: Codec, m: Json): seq<Json> {
    match GetStr(m, ToolCallId)
    case None => []
    case Some(id) =>
      var block := Obj(map[Type := Str("tool_result"), ToolUseId := Str(id), Content := ResultContent(codec, Get(m, Content))]);
      [Obj(map[Role := Str("user"), Content := Arr([block])])]
  }

  /** What one request message becomes: nothing or one Anthropic message. */
  function BedrockOne(codec: Codec, m: Json): seq<Json> {
    match GetStr(m, Role)
    case None => []
    case Some(role) =>
      if role == "assistant" then BedrockAssistant(codec, m)
      else if role == "user" then BedrockUser(m)
      else if role == "tool" then BedrockTool(codec, m)
      else []
  }

  function BedrockMessages(codec: Codec, messages: seq<Json>): seq<Json> {
    if messages == [] then [] else BedrockOne(codec, messages[0]) + BedrockMessages(codec, messages[1..])
  }

  // ---------------------------------------------------------------- the loops

  method ConvertAssistant(codec: Codec, m: Json) returns (out: seq<Json>)
    ensures out == BedrockAssistant(codec, m)
  {
    hide ToolUseBlock;
    var content := Get(m, Content);
    var calls := GetArr(m, ToolCalls);
    if calls.None? {
      if content.Some? && content.value.Str? && |content.value.s| > 0 {
        return [Obj(map[Role := Str("assistant"), Content := content.value])];
      }
      return [];
    }
    var blocks := ToolUses(codec, content, calls.value);
    if |blocks| == 0 { return []; }
    out := [Obj(map[Role := Str("assistant"), Content := Arr(blocks)])];
  }

  method ToolUses(codec: Codec, content: Option<Json>, calls: seq<Json>) returns (blocks: seq<Json>)
    ensures blocks == LeadingText(content) + ToolUseBlocks(codec, calls)
  {
    hide ToolUseBlock;
    blocks := [];
    if content.Some? && content.value.Str? && |content.value.s| > 0 {
      blocks := blocks + [Obj(map[Type := Str("text"), TextOf := content.value])];
    }
    for i := 0 to |calls|
      invariant blocks + ToolUseBlocks(codec, calls[i..]) == LeadingText(content) + ToolUseBlocks(codec, calls)
    {
      assert calls[i..][1..] == calls[i + 1..];
      blocks := blocks + [ToolUseBlock(codec, calls[i])];
    }
  }

  method ConvertBlock(block: Json) returns (blocks: seq<Json>)
    ensures blocks == ContentBlock(block)
  {
    hide ImageOf;
    var t := GetStr(block, Type);
    if t != Some("image_url") { return [block]; }
    var image := ImageOf(block);
    blocks := if image.Some? then [image.value] else [];
  }

  /** convert_content_array_to_anthropic. */
  method ConvertContent(items: seq<Json>) returns (blocks: seq<Json>)
    ensures blocks == ContentBlocks(items)
  {
    hide ContentBlock;
    blocks := [];
    for i := 0 to |items|
      invariant blocks + ContentBlocks(items[i..]) == ContentBlocks(items)
    {
      assert items[i..][1..] == items[i + 1..];
      var part := ConvertBlock(items[i]);
      blocks := blocks + part;
    }
  }

  method ConvertUser(m: Json) returns (out: seq<Json>)
    ensures out == BedrockUser(m)
  {
    hide ContentBlocks;
    var content := Get(m, Content);
    if content.Some? && content.value.Str? && |content.value.s| > 0 {
      return [Obj(map[Role := Str("user"), Content := content.value])];
    }
    if content.Some? && content.value.Arr? {
      var blocks := ConvertContent(content.value.items);
      if |blocks| > 0 { return [Obj(map[Role := Str("user"), Content := Arr(blocks)])]; }
    }
    out := [];
  }

  method ConvertOne(codec: Codec, m: Json) returns (out: seq<Json>)
    ensures out == BedrockOne(codec, m)
  {
    hide BedrockAssistant, BedrockUser, BedrockTool;
    out := [];
    var role := GetStr(m, Role);
    if role.None? { return; }
    if role.value == "assistant" {
      out := ConvertAssistant(codec, m);
    } else if role.value == "user" {
      out := ConvertUser(m);
    } else if role.value == "tool" {
      out := BedrockTool(codec, m);
    }
  }

  /** The message loop of bedrock_convert_request. */
  method ToBedrock(codec: Codec, messages: seq<Json>) returns (out: seq<Json>)
    ensures out == BedrockMessages(codec, messages)
  {
    hide BedrockOne;
    out := [];
    for i := 0 to |messages|
      invariant out + BedrockMessages(codec, messages[i..]) == BedrockMessages(codec, messages)
    {
      assert messages[i..][1..] == messages[i + 1..];
      var part := ConvertOne(codec, messages[i]);
      out := out + part;
    }
  }

  // ---------------------------------------------------------------- images

  function DataUrl(mediaType: string, data: string): string { "data:" + mediaType + ";base64," + data }

  function ImageUrlBlock(url: string): Json {
    Obj(map[Type := Str("image_url"), ImageUrl := Obj(map[Url := Str(url)])])
  }

  /** An image keeps its media type and its data if and only if the type holds no semicolon. */
  lemma {:induction false} ImageKeptExactly(mediaType: string, data: string)
    ensures ImageOf(ImageUrlBlock(DataUrl(mediaType, data))) == Some(ImageBlock(mediaType, data)) <==> ';' !in mediaType
  {
    if ';' in mediaType { ImageCutShort(mediaType, data); } else { ImageKept(mediaType, data); }
  }

  lemma ImageKept(mediaType: string, data: string)
    requires ';' !in mediaType
    ensures ImageOf(ImageUrlBlock(DataUrl(mediaType, data))) == Some(ImageBlock(mediaType, data))
  {
    hide Find;
    var url := DataUrl(mediaType, data);
    var media := mediaType + ";base64," + data;
    assert url[5..] == media;
    var k := |mediaType|;
    forall i | 0 <= i < k ensures !At(media, ";", i) { assert media[i..i + 1] == [mediaType[i]]; }
    assert media[k..k + 1] == ";";
    FindIs(media, ";", k);
    assert media[..k] == mediaType;
    var rest := media[k..];
    assert rest == ";base64," + data;
    assert rest[1..8] == "base64,";
    assert rest[0..7][0] == ';';
    FindIs(rest, "base64,", 1);
    assert rest[8..] == data;
  }

  lemma ImageCutShort(mediaType: string, data: string)
    requires ';' in mediaType
    ensures ImageOf(ImageUrlBlock(DataUrl(mediaType, data))) != Some(ImageBlock(mediaType, data))
  {
    hide Find;
    var url := DataUrl(mediaType, data);
    var media := mediaType + ";base64," + data;
    assert url[5..] == media;
    var i :| 0 <= i < |mediaType| && mediaType[i] == ';';
    assert media[i..i + 1] == ";";
    FindMissesNothing(media, ";", i);
    var k := Find(media, ";").value;
    match Find(media[k..], "base64,")
    case None =>
    case Some(b) => BlockShowsType(media[..k], media[k..][b + 7..], mediaType, data);
  }

  lemma BlockShowsType(a: string, dataA: string, b: string, dataB: string)
    requires |a| < |b|
    ensures ImageBlock(a, dataA) != ImageBlock(b, dataB)
  {
    assert ImageBlock(a, dataA).members[Source].members[MediaType] == Str(a);
    assert ImageBlock(b, dataB).members[Source].members[MediaType] == Str(b);
  }

  /** The grammar of image URLs: which are rewritten, and to what; all others are dropped. */
  lemma {:induction false} ImageGrammar(url: string, mediaType: string, data: string)
    ensures ImageOf(ImageUrlBlock(url)) == Some(ImageBlock(mediaType, data)) <==>
            exists mid :: url == "data:" + (mediaType + (mid + ("base64," + data)))
                          && ';' !in mediaType && mid != "" && mid[0] == ';'
                          && forall i: nat :: i < |mid| ==> !At(mid + "base64,", "base64,", i)
  {
    hide Find;
    if ImageOf(ImageUrlBlock(url)) == Some(ImageBlock(mediaType, data)) { ImageParts(url, mediaType, data); }
    if mid :| url == "data:" + (mediaType + (mid + ("base64," + data))) && ';' !in mediaType && mid != "" && mid[0] == ';'
              && forall i: nat :: i < |mid| ==> !At(mid + "base64,", "base64,", i) {
      ImageFromParts(url, mediaType, mid, data);
    }
  }

  lemma BlockShowsAll(a: string, dataA: string, b: string, dataB: string)
    requires ImageBlock(a, dataA) == ImageBlock(b, dataB)
    ensures a == b && dataA == dataB
  {
    assert ImageBlock(a, dataA).members[Source].members[MediaType] == Str(a) && ImageBlock(a, dataA).members[Source].members[Data] == Str(dataA);
    assert ImageBlock(b, dataB).members[Source].members[MediaType] == Str(b) && ImageBlock(b, dataB).members[Source].members[Data] == Str(dataB);
  }

  /** What an occurrence splits a text into. */
  lemma FoundParts(s: string, p: string, k: nat)
    requires Find(s, p) == Some(k)
    ensures k + |p| <= |s| && s == s[..k] + (p + s[k + |p|..])
    ensures forall i: nat :: i < k ==> !At(s, p, i)
  {
    hide Find, At;
    CutAround(s, p, k);
    forall i: nat | i < k ensures !At(s, p, i) { if At(s, p, i) { FindMissesNothing(s, p, i); } }
  }

  lemma PartsFound(a: string, p: string, c: string)
    requires forall i: nat :: i < |a| ==> !At(a + (p + c), p, i)
    ensures var s := a + (p + c); Find(s, p) == Some(|a|) && s[..|a|] == a && s[|a|..] == p + c && s[|a| + |p|..] == c
  {
    hide Find, At;
    MiddleStands(a, p, c);
    CutParts(a, p, c);
    FindIs(a + (p + c), p, |a|);
  }

  lemma NoCharBefore(a: string, p: string, c: string)
    requires |p| == 1 && p[0] !in a
    ensures forall i: nat :: i < |a| ==> !At(a + (p + c), p, i)
  {
    var s := a + (p + c);
    forall i: nat | i < |a| ensures !At(s, p, i) { assert s[i..i + 1][0] == a[i]; }
  }

  lemma NoSemicolon(s: string, k: nat)
    requires Find(s, ";") == Some(k) && k < |s|
    ensures ';' !in s[..k] && s[k] == ';'
  {
    hide Find;
    assert s[k..k + 1][0] == s[k];
    forall i | 0 <= i < k ensures s[i] != ';' {
      assert s[i..i + 1] == [s[i]];
      if At(s, ";", i) { FindMissesNothing(s, ";", i); }
    }
  }

  /** An occurrence that starts in `a` does not depend on what follows the pattern. */
  lemma SameBefore(a: string, p: string, c: string, i: nat)
    requires i < |a|
    ensures At(a + (p + c), p, i) <==> At(a + p, p, i)
  {
    var s, t := a + (p + c), a + p;
    assert s[..|t|] == t;
    if i + |p| <= |t| { assert s[i..i + |p|] == t[i..i + |p|]; }
  }

  lemma ImageParts(url: string, mediaType: string, data: string)
    requires ImageOf(ImageUrlBlock(url)) == Some(ImageBlock(mediaType, data))
    ensures exists mid :: url == "data:" + (mediaType + (mid + ("base64," + data)))
                          && ';' !in mediaType && mid != "" && mid[0] == ';'
                          && forall i: nat :: i < |mid| ==> !At(mid + "base64,", "base64,", i)
  {
    hide Find, At, ImageBlock, ImageOf;
    var k, b := ImageCuts(url);
    var media, rest := url[5..], url[5..][k..];
    BlockShowsAll(media[..k], rest[b + 7..], mediaType, data);
    NoSemicolon(media, k);
    MidStarts(rest, b);
    Rejoined(url, media, mediaType, rest);
    var mid := MidParts(rest, b);
  }

  /** Where a URL is cut. */
  lemma ImageCuts(url: string) returns (k: nat, b: nat)
    requires ImageOf(ImageUrlBlock(url)).Some?
    ensures "data:" <= url && Find(url[5..], ";") == Some(k) && k < |url[5..]|
    ensures Find(url[5..][k..], "base64,") == Some(b) && b + 7 <= |url[5..][k..]|
    ensures ImageOf(ImageUrlBlock(url)) == Some(ImageBlock(url[5..][..k], url[5..][k..][b + 7..]))
  {
    hide Find;
    k := Find(url[5..], ";").value;
    FoundWithin(url[5..], ";");
    b := Find(url[5..][k..], "base64,").value;
    FoundWithin(url[5..][k..], "base64,");
  }

  lemma MidParts(rest: string, b: nat) returns (mid: string)
    requires Find(rest, "base64,") == Some(b) && b + 7 <= |rest|
    ensures mid == rest[..b] && rest == mid + ("base64," + rest[b + 7..])
    ensures forall i: nat :: i < |mid| ==> !At(mid + "base64,", "base64,", i)
  {
    hide Find, At;
    FoundParts(rest, "base64,", b);
    mid := rest[..b];
    forall i: nat | i < |mid| ensures !At(mid + "base64,", "base64,", i) { SameBefore(mid, "base64,", rest[b + 7..], i); }
  }

  lemma Rejoined(url: string, media: string, mediaType: string, rest: string)
    requires "data:" <= url && media == url[5..] && |mediaType| <= |media| && media[..|mediaType|] == mediaType && rest == media[|mediaType|..]
    ensures url == "data:" + (mediaType + rest)
  {
    assert url == url[..5] + url[5..] && url[..5] == "data:";
    assert media == media[..|mediaType|] + media[|mediaType|..];
  }

  lemma MidStarts(rest: string, b: nat)
    requires rest != "" && rest[0] == ';' && At(rest, "base64,", b)
    ensures b > 0
  {
    assert rest[b..b + 7][0] == rest[b];
  }

  lemma ImageFromParts(url: string, mediaType: string, mid: string, data: string)
    requires url == "data:" + (mediaType + (mid + ("base64," + data))) && ';' !in mediaType && mid != "" && mid[0] == ';'
    requires forall i: nat :: i < |mid| ==> !At(mid + "base64,", "base64,", i)
    ensures ImageOf(ImageUrlBlock(url)) == Some(ImageBlock(mediaType, data))
  {
    hide Find, At, ImageBlock;
    var rest := mid + ("base64," + data);
    assert url[5..] == mediaType + rest && "data:" <= url;
    assert rest == ";" + rest[1..];
    NoCharBefore(mediaType, ";", rest[1..]);
    PartsFound(mediaType, ";", rest[1..]);
    forall i: nat | i < |mid| ensures !At(rest, "base64,", i) { SameBefore(mid, "base64,", data, i); }
    PartsFound(mid, "base64,", data);
    assert |"base64,"| == 7;
  }

  lemma {:induction false} ContentBlocksAppend(a: seq<Json>, b: seq<Json>)
    ensures ContentBlocks(a + b) == ContentBlocks(a) + ContentBlocks(b)
  {
    hide ContentBlock;
    if a == [] {
      assert a + b == b;
    } else {
      assert (a + b)[1..] == a[1..] + b;
      ContentBlocksAppend(a[1..], b);
    }
  }

  /** Blocks that are no images are passed on as they are, whatever images stand between them, and
      no image is left in the form it came in. */
  lemma {:induction false} OtherBlocksPass(a: seq<Json>, b: seq<Json>)
    requires forall block :: block in a ==> GetStr(block, Type) != Some("image_url")
    ensures ContentBlocks(a + b) == a + ContentBlocks(b)
    ensures forall block :: block in ContentBlocks(b) ==> GetStr(block, Type) != Some("image_url")
  {
    ContentBlocksAppend(a, b);
    NoImagesNoChange(a);
    NoUrlLeft(b);
  }

  lemma {:induction false} NoImagesNoChange(a: seq<Json>)
    requires forall block :: block in a ==> GetStr(block, Type) != Some("image_url")
    ensures ContentBlocks(a) == a
  {
    hide ImageOf;
    if a != [] {
      NoImagesNoChange(a[1..]);
      assert a[0] in a && a == [a[0]] + a[1..];
    }
  }

  lemma {:induction false} NoUrlLeft(b: seq<Json>)
    ensures forall block :: block in ContentBlocks(b) ==> GetStr(block, Type) != Some("image_url")
  {
    hide ImageOf, GetStr;
    if b != [] {
      NoUrlLeft(b[1..]);
      ImageIsNoUrl(b[0]);
    }
  }

  lemma ImageIsNoUrl(block: Json)
    ensures ImageOf(block).Some? ==> GetStr(ImageOf(block).value, Type) == Some("image") != Some("image_url")
  {
    hide Find;
    assert |"image"| != |"image_url"|;
  }
}
