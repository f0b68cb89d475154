/** The route pattern logged for a request, assembled from controller and handler metadata. */
module RoutePath {
  import opened Optional

  /** Path metadata: absent, one pattern, or several of which the first counts. */
  datatype Meta = Missing | One(path: string) | Many(paths: seq<string>)

  function FirstPath(m: Meta): string {
    match m
    case Missing => ""
    case One(path) => path
    case Many(paths) => if paths == [] then "" else paths[0]
  }

  function DropSlashes(s: string): (r: string)
    ensures |r| <= |s| && (r != "" ==> r[0] != '/')
  {
    if s != "" && s[0] == '/' then DropSlashes(s[1..]) else s
  }

  /** Every run of slashes replaced by one. */
  function Collapse(s: string): string
    decreases |s|
  {
    if s == "" then ""
    else if s[0] == '/' then "/" + Collapse(DropSlashes(s))
    else [s[0]] + Collapse(s[1..])
  }

  function TrimSlash(s: string): string {
    if |s| > 1 && s[|s| - 1] == '/' then s[..|s| - 1] else s
  }

  function ExtractRoutePath(controller: Meta, handler: Meta): Option<string> {
    var c, h := FirstPath(controller), FirstPath(handler);
    if c == "" && h == "" then None
    else Some(TrimSlash(Collapse("/" + c + "/" + h)))
  }

  // ---------------------------------------------------------------- segments

  predicate SlashFree(s: string) {
    forall c | c in s :: c != '/'
  }

  /** The non-empty segments of a path, `current` being read already. */
  function SegmentsFrom(s: string, current: string): seq<string>
    decreases |s|
  {
    var done := if current == "" then [] else [current];
    if s == "" then done
    else if s[0] == '/' then done + SegmentsFrom(s[1..], "")
    else SegmentsFrom(s[1..], current + [s[0]])
  }

  function Segments(s: string): seq<string> {
    SegmentsFrom(s, "")
  }

  function Join(segments: seq<string>): string {
    if segments == [] then ""
    else if |segments| == 1 then segments[0]
    else segments[0] + "/" + Join(segments[1..])
  }

  /** A slash, then the segments joined by slashes. */
  function Canonical(segments: seq<string>): string {
    "/" + Join(segments)
  }

  function Strip(s: string): string {
    if s != "" && s[|s| - 1] == '/' then s[..|s| - 1] else s
  }

  lemma {:induction false} SegmentsOfParts(c: string, h: string, current: string)
    ensures SegmentsFrom(c + "/" + h, current) == SegmentsFrom(c, current) + Segments(h)
    decreases |c|
  {
    var s := c + "/" + h;
    if c == "" {
      assert s[1..] == h;
    } else {
      assert s[1..] == c[1..] + "/" + h && s[0] == c[0];
      SegmentsOfParts(c[1..], h, if c[0] == '/' then "" else current + [c[0]]);
    }
  }

  lemma {:induction false} LeadingSlashesDoNotCount(s: string)
    ensures Segments(DropSlashes(s)) == Segments(s)
    decreases |s|
  {
    if s != "" && s[0] == '/' {
      LeadingSlashesDoNotCount(s[1..]);
    }
  }

  lemma StripKeepsFront(front: string, tail: string)
    requires tail != ""
    ensures Strip(front + tail) == front + Strip(tail)
  {
    assert (front + tail)[|front + tail| - 1] == tail[|tail| - 1];
  }

  /** After a segment, a slash and the collapsed rest join on. */
  lemma JoinsAfterSlash(rest: string, current: string)
    requires current != "" && SlashFree(current)
    requires rest != "" ==> Collapse(rest) != "" && Segments(rest) != []
    requires Strip(Collapse(rest)) == Join(Segments(rest))
    ensures Strip(current + ("/" + Collapse(rest))) == Join([current] + Segments(rest))
  {
    hide Collapse, SegmentsFrom, SlashFree;
    var tail := Collapse(rest);
    if tail == "" {
      CollapseOfNothing(rest);
      assert current + ("/" + tail) == current + "/";
    } else {
      CollapseOfNothing(rest);
      assert current + ("/" + tail) == (current + "/") + tail;
      StripKeepsFront(current + "/", tail);
      assert ([current] + Segments(rest))[1..] == Segments(rest);
    }
  }

  lemma CollapseOfNothing(s: string)
    ensures s == "" ==> Collapse(s) == "" && Segments(s) == []
  {
  }

  /** Collapsing and stripping a path whose first segment has begun joins its segments. */
  lemma {:induction false} CollapseJoins(s: string, current: string)
    requires current != "" && SlashFree(current)
    ensures Strip(current + Collapse(s)) == Join(SegmentsFrom(s, current))
    decreases |s|, 0
  {
    if s == "" {
      assert current + "" == current && current[|current| - 1] in current;
    } else if s[0] == '/' {
      var rest := DropSlashes(s[1..]);
      assert Collapse(s) == "/" + Collapse(rest);
      LeadingSlashesDoNotCount(s[1..]);
      assert SegmentsFrom(s, current) == [current] + Segments(rest);
      hide Collapse, SegmentsFrom, Strip, Join;
      CollapseAfterSlash(rest);
      JoinsAfterSlash(rest, current);
    } else {
      assert current + Collapse(s) == (current + [s[0]]) + Collapse(s[1..]);
      assert SegmentsFrom(s, current) == SegmentsFrom(s[1..], current + [s[0]]);
      hide Collapse, SegmentsFrom, Strip, Join;
      CollapseJoins(s[1..], current + [s[0]]);
    }
  }

  lemma {:induction false} CollapseAfterSlash(s: string)
    requires s != "" ==> s[0] != '/'
    ensures Strip(Collapse(s)) == Join(Segments(s))
    ensures s != "" ==> Segments(s) != [] && Collapse(s) != ""
    decreases |s|, 1
  {
    if s != "" {
      assert "" + [s[0]] == [s[0]];
      CollapseJoins(s[1..], [s[0]]);
      StartedSegmentIsKept(s[1..], [s[0]]);
    }
  }

  lemma {:induction false} StartedSegmentIsKept(s: string, current: string)
    requires current != ""
    ensures SegmentsFrom(s, current) != []
    decreases |s|
  {
    if s != "" && s[0] != '/' {
      StartedSegmentIsKept(s[1..], current + [s[0]]);
    }
  }

  /** The result is a slash followed by the non-empty segments of both parts joined by
      slashes, whatever slashes the parts begin, end or repeat; there is none only when both
      parts are empty. */
  lemma RoutePathIsCanonical(controller: Meta, handler: Meta)
    ensures var c, h := FirstPath(controller), FirstPath(handler);
      ExtractRoutePath(controller, handler) ==
      if c == "" && h == "" then None else Some(Canonical(Segments(c) + Segments(h)))
  {
    var c, h := FirstPath(controller), FirstPath(handler);
    var rest := c + "/" + h;
    var s := "/" + c + "/" + h;
    assert s == "/" + rest && s[1..] == rest;
    var trimmed := DropSlashes(rest);
    assert DropSlashes(s) == trimmed;
    CollapseAfterSlash(trimmed);
    LeadingSlashesDoNotCount(rest);
    SegmentsOfParts(c, h, "");
    var tail := Collapse(trimmed);
    assert Collapse(s) == "/" + tail;
    assert TrimSlash("/" + tail) == "/" + Strip(tail) by {
      if tail != "" {
        assert ("/" + tail)[|tail|] == tail[|tail| - 1];
      }
    }
  }

  // ---------------------------------------------------------------- consequences

  predicate Clean(segments: seq<string>) {
    forall x | x in segments :: x != "" && SlashFree(x)
  }

  lemma {:induction false} SegmentsAreClean(s: string, current: string)
    requires SlashFree(current)
    ensures Clean(SegmentsFrom(s, current))
    decreases |s|
  {
    if s != "" {
      SegmentsAreClean(s[1..], if s[0] == '/' then "" else current + [s[0]]);
    }
  }

  lemma {:induction false} ReadsSegment(x: string, rest: string, current: string)
    requires SlashFree(x)
    ensures SegmentsFrom(x + rest, current) == SegmentsFrom(rest, current + x)
    decreases |x|
  {
    if x == "" {
      assert x + rest == rest && current + x == current;
    } else {
      assert x[0] in x && forall c | c in x[1..] :: c in x;
      assert (x + rest)[1..] == x[1..] + rest && current + [x[0]] + x[1..] == current + x;
      ReadsSegment(x[1..], rest, current + [x[0]]);
    }
  }

  /** Joining clean segments and splitting again gives them back. */
  lemma {:induction false} JoinSplits(segments: seq<string>)
    requires Clean(segments)
    ensures Segments(Join(segments)) == segments
    decreases |segments|
  {
    if |segments| == 1 {
      ReadsSegment(segments[0], "", "");
      assert segments[0] + "" == segments[0] && "" + segments[0] == segments[0];
      assert segments[0] != "";
    } else if |segments| > 1 {
      var rest := Join(segments[1..]);
      assert forall x | x in segments[1..] :: x in segments;
      JoinSplits(segments[1..]);
      assert Join(segments) == segments[0] + ("/" + rest) && "" + segments[0] == segments[0];
      ReadsSegment(segments[0], "/" + rest, "");
      assert ("/" + rest)[1..] == rest;
    }
  }

  /** A canonical path is its own normal form, so normalising twice changes nothing. */
  lemma NormalisingIsIdempotent(controller: Meta, handler: Meta)
    requires ExtractRoutePath(controller, handler).Some?
    ensures var path := ExtractRoutePath(controller, handler).value;
      && ExtractRoutePath(One(path), Missing) == Some(path)
      && ExtractRoutePath(Missing, One(path)) == Some(path)
  {
    RoutePathIsCanonical(controller, handler);
    var c, h := FirstPath(controller), FirstPath(handler);
    var segments := Segments(c) + Segments(h);
    SegmentsAreClean(c, "");
    SegmentsAreClean(h, "");
    JoinSplits(segments);
    var path := Canonical(segments);
    assert path[1..] == Join(segments) && path[0] == '/';
    assert Segments(path) == segments;
    RoutePathIsCanonical(One(path), Missing);
    RoutePathIsCanonical(Missing, One(path));
    assert segments + [] == segments && [] + segments == segments;
  }

  /** Two routes have the same path exactly when they have the same segments. */
  lemma SamePathIffSameSegments(c1: string, h1: string, c2: string, h2: string)
    requires (c1 != "" || h1 != "") && (c2 != "" || h2 != "")
    ensures ExtractRoutePath(One(c1), One(h1)) == ExtractRoutePath(One(c2), One(h2)) <==>
            Segments(c1) + Segments(h1) == Segments(c2) + Segments(h2)
  {
    RoutePathIsCanonical(One(c1), One(h1));
    RoutePathIsCanonical(One(c2), One(h2));
    SegmentsAreClean(c1, "");
    SegmentsAreClean(h1, "");
    SegmentsAreClean(c2, "");
    SegmentsAreClean(h2, "");
    var a, b := Segments(c1) + Segments(h1), Segments(c2) + Segments(h2);
    JoinSplits(a);
    JoinSplits(b);
    if Canonical(a) == Canonical(b) {
      assert Canonical(a)[1..] == Join(a) && Canonical(b)[1..] == Join(b);
    }
  }

  /** Of several paths in the metadata the first counts; none, or a blank one, counts as blank. */
  lemma OnlyTheFirstPathCounts(first: string, rest: seq<string>, other: Meta)
    ensures ExtractRoutePath(Many([first] + rest), other) == ExtractRoutePath(One(first), other)
    ensures ExtractRoutePath(other, Many([first] + rest)) == ExtractRoutePath(other, One(first))
    ensures ExtractRoutePath(Many([]), other) == ExtractRoutePath(Missing, other) == ExtractRoutePath(One(""), other)
    ensures ExtractRoutePath(other, Many([])) == ExtractRoutePath(other, Missing) == ExtractRoutePath(other, One(""))
  {
  }

  /** A controller and a handler with slashes to spare. */
  lemma RoutePathExample()
    ensures ExtractRoutePath(One("/v1"), One("/a//b/")) == Some("/v1/a/b")
    ensures ExtractRoutePath(One("/"), Missing) == Some("/")
    ensures ExtractRoutePath(Missing, Missing) == None
  {
    hide ExtractRoutePath, Collapse, SegmentsFrom, Segments;
    RoutePathIsCanonical(Missing, Missing);
    RoutePathIsCanonical(One("/v1"), One("/a//b/"));
    RoutePathIsCanonical(One("/"), Missing);
    ExampleSegments();
    assert ["v1"] + ["a", "b"] == ["v1", "a", "b"];
    assert ["v1", "a", "b"][1..] == ["a", "b"] && ["a", "b"][1..] == ["b"];
    assert Join(["v1", "a", "b"]) == "v1" + "/" + ("a" + "/" + "b") == "v1/a/b";
    assert "/" + "v1/a/b" == "/v1/a/b" && "/" + "" == "/";
  }

  lemma ExampleSegments()
    ensures Segments("/v1") == ["v1"] && Segments("/a//b/") == ["a", "b"]
    ensures Segments("/") == [] && Segments("") == []
  {
    ReadsSegment("v1", "", "");
    ReadsSegment("a", "//b/", "");
    ReadsSegment("b", "/", "");
    assert "/v1"[1..] == "v1" + "" && "/a//b/"[1..] == "a" + "//b/" && "//b/"[1..] == "/b/" && "/b/"[1..] == "b" + "/";
    assert "" + "v1" == "v1" && "" + "a" == "a" && "" + "b" == "b" && "/"[1..] == "";
    assert SegmentsFrom("/b/", "") == SegmentsFrom("/", "b") == ["b"];
    assert Segments("/a//b/") == SegmentsFrom("//b/", "a") == ["a"] + SegmentsFrom("/b/", "");
  }
}
