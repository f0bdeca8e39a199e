/** A validation issue as the error responses carry it: the path of the
    offending field and its message (the shape that
    middleware/validations/errorSchema keeps of each zod issue). */
module Issues {
  import opened JsValues

  /** A message is either a text the schema declares, or one of the
      validation library's own default texts, which are not spelled out here. */
  datatype Message =
    | Custom(text: string)
    | LibraryRequired
    | LibraryInvalidType
    | LibraryUnrecognizedKeys(keys: set<string>)

  datatype Issue = Issue(path: seq<string>, message: Message)

  /** The issue list contributed by one optional issue. */
  function Listed(o: Option<Issue>): (r: seq<Issue>)
    ensures o.None? ==> r == []
    ensures o.Some? ==> r == [o.value]
  {
    match o
    case None => []
    case Some(i) => [i]
  }

  /** The paths that the issues point at, in order. */
  function Paths(issues: seq<Issue>): (paths: seq<seq<string>>)
    ensures |paths| == |issues|
    ensures forall i :: 0 <= i < |issues| ==> paths[i] == issues[i].path
  {
    if issues == [] then [] else [issues[0].path] + Paths(issues[1..])
  }

  /** The paths of two lists reported one after the other. */
  lemma {:induction false} PathsConcat(a: seq<Issue>, b: seq<Issue>)
    ensures Paths(a + b) == Paths(a) + Paths(b)
  {
    if a != [] {
      assert (a + b)[1..] == a[1..] + b;
      PathsConcat(a[1..], b);
    } else {
      assert a + b == b;
    }
  }
}
