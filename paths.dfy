/**
 * Express's path matching with its default options. A route path such as
 * "/promoteToAdmin/:id" is compiled into its segments; a literal segment
 * matches case-insensitively, a `:name` segment matches any non-empty
 * segment, and one trailing slash on the request path is ignored.
 */
module Paths {
  import Text

  datatype Segment = Literal(text: string) | Param(name: string)

  function LastChar(s: string): char
    requires |s| > 0
  {
    s[|s| - 1]
  }

  /** Drops one trailing slash, except from "/" itself. */
  function Trimmed(path: string): (t: string)
    ensures |t| <= |path|
    ensures |path| > 1 && LastChar(path) == '/' ==> t + "/" == path
    ensures !(|path| > 1 && LastChar(path) == '/') ==> t == path
  {
    if |path| > 1 && LastChar(path) == '/' then path[..|path| - 1] else path
  }

  /** The segments of a request path that starts with a slash; "/" has none. */
  function Segments(path: string): seq<string>
    requires Rooted(path)
  {
    var t := Trimmed(path);
    if t == "/" then [] else Text.Split(t[1..], '/')
  }

  predicate SegmentMatches(pattern: Segment, segment: string) {
    match pattern
    case Param(_) => segment != ""
    case Literal(text) => Text.Lower(text) == Text.Lower(segment)
  }

  /** Request paths start with a slash. */
  predicate Rooted(path: string) {
    |path| > 0 && path[0] == '/'
  }

  /** A compiled route path matches a request's segments one for one. */
  predicate SegmentsMatch(pattern: seq<Segment>, ss: seq<string>) {
    |pattern| == |ss| && forall i :: 0 <= i < |pattern| ==> SegmentMatches(pattern[i], ss[i])
  }

  predicate PathMatches(pattern: seq<Segment>, path: string) {
    Rooted(path) && SegmentsMatch(pattern, Segments(path))
  }

  /** The root path has no segments. */
  lemma RootHasNoSegments()
    ensures Segments("/") == []
  {
  }

  /** A path of one non-empty slash-free segment. */
  lemma {:induction false} OneSegment(id: string)
    requires id != "" && '/' !in id
    ensures Segments("/" + id) == [id]
  {
    var path := "/" + id;
    assert LastChar(path) == id[|id| - 1];
    assert Trimmed(path) == path;
    assert path[1..] == id;
  }

  /** A path of two slash-free segments, the second non-empty. */
  lemma {:induction false} TwoSegments(first: string, second: string)
    requires '/' !in first && '/' !in second && second != ""
    ensures Segments("/" + first + "/" + second) == [first, second]
  {
    var path := "/" + first + "/" + second;
    assert LastChar(path) == second[|second| - 1];
    assert Trimmed(path) == path;
    assert path[1..] == first + ['/'] + second;
    Text.SplitAfterHead(first, '/', second);
  }
}
