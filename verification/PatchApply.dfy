/** Applying patch operations to files, one after the other. */
module PatchApply {
  import opened Wrappers
  import opened Text
  import opened PatchParser

  /** What the file system answers besides contents: how paths resolve, and what cannot be written. */
  datatype Env = Env(resolve: map<string, string>, readOnly: set<string>)

  datatype Failure = Unresolved(path: string) | Unreadable(path: string) | NotFound(path: string) | Unwritable(path: string)

  datatype Outcome = Success(applied: nat) | Failed(failure: Failure)

  /** The file with the first occurrence of old replaced. */
  function Replaced(content: string, op: Operation): Option<string> {
    match Find(content, op.oldContent)
    case None => None
    case Some(k) => Some(content[..k] + op.newContent + content[k + |op.oldContent|..])
  }

  function FailureOf(env: Env, files: map<string, string>, op: Operation): Option<Failure> {
    if op.path !in env.resolve then Some(Unresolved(op.path))
    else
      var key := env.resolve[op.path];
      if key !in files then Some(Unreadable(op.path))
      else if Replaced(files[key], op).None? then Some(NotFound(op.path))
      else if key in env.readOnly then Some(Unwritable(op.path))
      else None
  }

  /** The files after one operation, unchanged when it fails. */
  function ApplyOne(env: Env, files: map<string, string>, op: Operation): map<string, string> {
    if FailureOf(env, files, op).Some? then files
    else files[env.resolve[op.path] := Replaced(files[env.resolve[op.path]], op).value]
  }

  /** The files after the operations up to the first failing one. */
  function ApplyAll(env: Env, files: map<string, string>, ops: seq<Operation>): (map<string, string>, Option<Failure>) {
    if ops == [] then (files, None)
    else
      match FailureOf(env, files, ops[0])
      case Some(f) => (files, Some(f))
      case None => ApplyAll(env, ApplyOne(env, files, ops[0]), ops[1..])
  }

  class FileSystem {
    const env: Env
    var files: map<string, string>

    constructor (env: Env, files: map<string, string>)
      ensures this.env == env && this.files == files
    {
      this.env, this.files := env, files;
    }

    /** apply_patch on a valid patch. */
    method Apply(ops: seq<Operation>) returns (outcome: Outcome)
      modifies this
      ensures (files, match outcome case Success(_) => None case Failed(f) => Some(f)) == ApplyAll(env, old(files), ops)
      ensures outcome.Success? ==> outcome.applied == |ops|
    {
      for i := 0 to |ops|
        invariant ApplyAll(env, old(files), ops) == ApplyAll(env, files, ops[i..])
      {
        assert ops[i..][1..] == ops[i + 1..];
        var failure := ApplyOperation(ops[i]);
        if failure.Some? { return Failed(failure.value); }
      }
      outcome := Success(|ops|);
    }

    method ApplyOperation(op: Operation) returns (failure: Option<Failure>)
      modifies this
      ensures failure == FailureOf(env, old(files), op) && files == ApplyOne(env, old(files), op)
    {
      hide Find;
      if op.path !in env.resolve { return Some(Unresolved(op.path)); }
      var key := env.resolve[op.path];
      if key !in files { return Some(Unreadable(op.path)); }
      var content := files[key];
      var pos := Find(content, op.oldContent);
      if pos.None? { return Some(NotFound(op.path)); }
      var rewritten := content[..pos.value] + op.newContent + content[pos.value + |op.oldContent|..];
      if key in env.readOnly { return Some(Unwritable(op.path)); }
      files := files[key := rewritten];
      failure := None;
    }
  }

  // ---------------------------------------------------------------- properties

  /** A successful operation replaces one occurrence of the old text, the first, and touches
      nothing else. */
  lemma {:induction false} ReplacesFirstOccurrence(env: Env, files: map<string, string>, op: Operation)
    requires FailureOf(env, files, op).None?
    ensures var key := env.resolve[op.path];
            exists before, after ::
              && files[key] == before + op.oldContent + after
              && ApplyOne(env, files, op) == files[key := before + op.newContent + after]
              && forall i :: 0 <= i < |before| ==> !At(files[key], op.oldContent, i)
  {
    var content := files[env.resolve[op.path]];
    var k := Find(content, op.oldContent).value;
    var before, after := content[..k], content[k + |op.oldContent|..];
    assert content[k..k + |op.oldContent|] == op.oldContent;
    assert content == before + op.oldContent + after;
    forall i | 0 <= i < |before| ensures !At(content, op.oldContent, i) {
      if At(content, op.oldContent, i) { FindMissesNothing(content, op.oldContent, i); }
    }
  }

  /** Files that no operation names keep their content, and no file appears or disappears. */
  lemma {:induction false} OtherFilesKept(env: Env, files: map<string, string>, ops: seq<Operation>, key: string)
    requires forall op :: op in ops && op.path in env.resolve ==> env.resolve[op.path] != key
    ensures ApplyAll(env, files, ops).0.Keys == files.Keys
    ensures key in files ==> ApplyAll(env, files, ops).0[key] == files[key]
    decreases |ops|
  {
    hide Find;
    if ops != [] && FailureOf(env, files, ops[0]).None? {
      var next := ApplyOne(env, files, ops[0]);
      assert ops[0] in ops;
      assert next.Keys == files.Keys;
      OtherFilesKept(env, next, ops[1..], key);
    }
  }

  /** Applying a patch in two parts is applying it whole. */
  lemma {:induction false} ApplyInParts(env: Env, files: map<string, string>, a: seq<Operation>, b: seq<Operation>)
    ensures var first := ApplyAll(env, files, a);
            ApplyAll(env, files, a + b) == if first.1.Some? then first else ApplyAll(env, first.0, b)
    decreases |a|
  {
    hide FailureOf, ApplyOne;
    if a == [] {
      assert a + b == b;
    } else {
      assert (a + b)[1..] == a[1..] + b;
      if FailureOf(env, files, a[0]).None? { ApplyInParts(env, ApplyOne(env, files, a[0]), a[1..], b); }
    }
  }

  /** A failing patch leaves the files exactly as its operations before the failing one made
      them: there is no rollback, and nothing behind the failure is applied. */
  lemma {:induction false} FailureKeepsPrefix(env: Env, files: map<string, string>, ops: seq<Operation>) returns (i: nat)
    requires ApplyAll(env, files, ops).1.Some?
    ensures i < |ops| && ApplyAll(env, files, ops[..i]) == (ApplyAll(env, files, ops).0, None)
    ensures FailureOf(env, ApplyAll(env, files, ops).0, ops[i]) == ApplyAll(env, files, ops).1
    decreases |ops|
  {
    hide FailureOf, ApplyOne;
    if FailureOf(env, files, ops[0]).Some? {
      i := 0;
    } else {
      var k := FailureKeepsPrefix(env, ApplyOne(env, files, ops[0]), ops[1..]);
      i := k + 1;
      assert ops[..i][1..] == ops[1..][..k] && ops[..i][0] == ops[0];
    }
  }

  /** What a failure means, in the files as they are when the operation is reached. */
  ghost predicate Explains(env: Env, now: map<string, string>, op: Operation, failure: Failure) {
    var path := op.path;
    match failure
    case Unresolved(p) => p == path && path !in env.resolve
    case Unreadable(p) => p == path && path in env.resolve && env.resolve[path] !in now
    case NotFound(p) => p == path && path in env.resolve && env.resolve[path] in now && Free(now[env.resolve[path]], op.oldContent)
    case Unwritable(p) =>
      && p == path && path in env.resolve && env.resolve[path] in now && env.resolve[path] in env.readOnly
      && !Free(now[env.resolve[path]], op.oldContent)
  }

  /** A patch fails if and only if one of its operations meets a reason to, in the files that the
      operations before it have left; it is then the first of them that is reported. */
  lemma {:induction false} FailsExactly(env: Env, files: map<string, string>, ops: seq<Operation>, failure: Failure)
    ensures ApplyAll(env, files, ops).1 == Some(failure) <==>
            exists i: nat :: i < |ops| && ApplyAll(env, files, ops[..i]).1.None? &&
                             Explains(env, ApplyAll(env, files, ops[..i]).0, ops[i], failure)
  {
    hide FailureOf, ApplyOne, Explains;
    if ApplyAll(env, files, ops).1 == Some(failure) {
      var i := FailureKeepsPrefix(env, files, ops);
      FailureIs(env, ApplyAll(env, files, ops[..i]).0, ops[i], failure);
    }
    if i: nat :| i < |ops| && ApplyAll(env, files, ops[..i]).1.None? && Explains(env, ApplyAll(env, files, ops[..i]).0, ops[i], failure) {
      var now := ApplyAll(env, files, ops[..i]).0;
      FailureIs(env, now, ops[i], failure);
      assert ops == ops[..i] + ops[i..];
      ApplyInParts(env, files, ops[..i], ops[i..]);
      FirstFails(env, now, ops[i..]);
    }
  }

  lemma FirstFails(env: Env, files: map<string, string>, ops: seq<Operation>)
    requires ops != [] && FailureOf(env, files, ops[0]).Some?
    ensures ApplyAll(env, files, ops) == (files, FailureOf(env, files, ops[0]))
  {
    hide FailureOf, ApplyOne;
  }

  lemma FailureIs(env: Env, now: map<string, string>, op: Operation, failure: Failure)
    ensures FailureOf(env, now, op) == Some(failure) <==> Explains(env, now, op, failure)
  {
    hide Find, Free;
    if op.path in env.resolve && env.resolve[op.path] in now { FindNone(now[env.resolve[op.path]], op.oldContent); }
  }

  function Reverse(op: Operation): Operation { Operation(op.path, op.newContent, op.oldContent) }

  /** The reversed operation undoes a successful one exactly when the new text first occurs
      where it was put. */
  lemma {:induction false} UndoneExactly(env: Env, files: map<string, string>, op: Operation)
    requires FailureOf(env, files, op).None?
    ensures var after := ApplyOne(env, files, op);
            var key := env.resolve[op.path];
            && FailureOf(env, after, Reverse(op)).None?
            && (ApplyOne(env, after, Reverse(op)) == files <==> Find(after[key], op.newContent) == Find(files[key], op.oldContent))
  {
    hide Find;
    var key := env.resolve[op.path];
    var content := files[key];
    var k := Find(content, op.oldContent).value;
    var rewritten := Replaced(content, op).value;
    var after := ApplyOne(env, files, op);
    assert after[key] == rewritten;
    NewTextIsThere(content, op, k);
    var j := Find(rewritten, op.newContent).value;
    var back := Replaced(rewritten, Reverse(op)).value;
    assert ApplyOne(env, after, Reverse(op)) == after[key := back];
    assert after[key := back] == files[key := back];
    BackAgain(content, op, k, rewritten, j);
    if files[key := back] == files { assert files[key := back][key] == content; }
    if back == content { assert files[key := back] == files; }
  }

  lemma NewTextIsThere(content: string, op: Operation, k: nat)
    requires Find(content, op.oldContent) == Some(k)
    ensures var rewritten := content[..k] + op.newContent + content[k + |op.oldContent|..];
            Find(rewritten, op.newContent).Some? && Find(rewritten, op.newContent).value <= k
  {
    hide Find;
    var rewritten := content[..k] + op.newContent + content[k + |op.oldContent|..];
    assert rewritten[k..k + |op.newContent|] == op.newContent;
    FindMissesNothing(rewritten, op.newContent, k);
  }

  lemma BackAgain(content: string, op: Operation, k: nat, rewritten: string, j: nat)
    requires Find(content, op.oldContent) == Some(k)
    requires rewritten == content[..k] + op.newContent + content[k + |op.oldContent|..]
    requires Find(rewritten, op.newContent) == Some(j) && j <= k
    ensures rewritten[..j] + op.oldContent + rewritten[j + |op.newContent|..] == content <==> j == k
  {
    hide Find;
    var back := rewritten[..j] + op.oldContent + rewritten[j + |op.newContent|..];
    if j == k {
      assert content[k..k + |op.oldContent|] == op.oldContent;
      assert rewritten[..k] == content[..k] && rewritten[k + |op.newContent|..] == content[k + |op.oldContent|..];
      assert back == content;
    } else {
      assert back[j..j + |op.oldContent|] == op.oldContent;
      assert At(back, op.oldContent, j);
      if back == content { FindMissesNothing(content, op.oldContent, j); }
    }
  }
}
