/**
  Capability scopes: when one narrows another, stated on `/`-separated segments
  rather than on strings, and along delegation chains of any length.
 */
module Scope {
  import opened Common

  datatype CapabilityScope = CapabilityScope(kind: string, path: Opt<string>)

  /** `str::split('/')`: at least one segment, possibly empty ones. */
  function Split(path: string): (r: seq<string>)
    ensures r != []
  {
    if path == "" then [""]
    else
      var rest := Split(path[1..]);
      if path[0] == '/' then [""] + rest else [[path[0]] + rest[0]] + rest[1..]
  }

  function Join(segments: seq<string>): string
    requires segments != []
  {
    if |segments| == 1 then segments[0] else segments[0] + "/" + Join(segments[1..])
  }

  predicate HasRelativeSegment(path: string) {
    exists i :: 0 <= i < |Split(path)| && (Split(path)[i] == "." || Split(path)[i] == "..")
  }

  predicate StartsWith(s: string, prefix: string) {
    prefix <= s
  }

  /** `CapabilityScope::is_within`. */
  predicate IsWithin(child: CapabilityScope, parent: CapabilityScope) {
    && child.kind == parent.kind
    && (parent.path.Yes? ==>
          && child.path.Yes?
          && !HasRelativeSegment(child.path.value) && !HasRelativeSegment(parent.path.value)
          && (child.path.value == parent.path.value || StartsWith(child.path.value, parent.path.value + "/")))
  }

  // --- splitting and joining ------------------------------------------------------------------

  lemma {:induction false} JoinSplit(path: string)
    ensures Join(Split(path)) == path
  {
    if path != "" {
      var rest := Split(path[1..]);
      JoinSplit(path[1..]);
      if path[0] == '/' {
        assert ([""] + rest)[1..] == rest;
      } else {
        var all := [[path[0]] + rest[0]] + rest[1..];
        if |rest| > 1 { assert all[1..] == rest[1..]; }
      }
    }
  }

  lemma {:induction false} JoinAppend(a: seq<string>, b: seq<string>)
    requires a != [] && b != []
    ensures Join(a + b) == Join(a) + "/" + Join(b)
  {
    assert (a + b)[0] == a[0];
    if |a| == 1 {
      assert (a + b)[1..] == b;
    } else {
      JoinAppend(a[1..], b);
      assert (a + b)[1..] == a[1..] + b;
    }
  }

  lemma {:induction false} SplitConcat(a: string, b: string)
    ensures Split(a + "/" + b) == Split(a) + Split(b)
  {
    hide Split;
    if a == "" {
      assert a + "/" + b == ['/'] + b;
      SplitCons('/', b);
      SplitEmpty();
    } else {
      SplitConcat(a[1..], b);
      SplitConcatStep(a[0], a[1..], b);
      assert a == [a[0]] + a[1..];
    }
  }

  lemma SplitConcatStep(c: char, a: string, b: string)
    requires Split(a + "/" + b) == Split(a) + Split(b)
    ensures Split([c] + a + "/" + b) == Split([c] + a) + Split(b)
  {
    hide Split;
    assert [c] + a + "/" + b == [c] + (a + "/" + b);
    SplitCons(c, a + "/" + b);
    SplitCons(c, a);
    HeadTail(Split(a), Split(b));
  }

  lemma HeadTail(x: seq<string>, y: seq<string>)
    requires x != []
    ensures (x + y)[0] == x[0] && (x + y)[1..] == x[1..] + y
  {
  }

  lemma SplitCons(c: char, s: string)
    ensures Split([c] + s) == if c == '/' then [""] + Split(s) else [[c] + Split(s)[0]] + Split(s)[1..]
  {
    assert ([c] + s)[1..] == s;
  }

  lemma SplitEmpty()
    ensures Split("") == [""]
  {
  }

  predicate Plain(segment: string) {
    '/' !in segment
  }

  /** Splitting gives the only segments without a slash that join to the path. */
  lemma {:induction false} SplitUnique(path: string, segments: seq<string>)
    requires segments != []
    ensures segments == Split(path) <==> Join(segments) == path && forall i :: 0 <= i < |segments| ==> Plain(segments[i])
  {
    JoinSplit(path);
    SegmentsPlain(path);
    if Join(segments) == path && forall i :: 0 <= i < |segments| ==> Plain(segments[i]) { SplitJoin(segments); }
  }

  lemma {:induction false} SegmentsPlain(path: string)
    ensures forall i :: 0 <= i < |Split(path)| ==> Plain(Split(path)[i])
  {
    if path != "" { SegmentsPlain(path[1..]); }
  }

  lemma {:induction false} SplitJoin(segments: seq<string>)
    requires segments != [] && forall i :: 0 <= i < |segments| ==> Plain(segments[i])
    ensures Split(Join(segments)) == segments
  {
    SplitPlain(segments[0]);
    if |segments| == 1 {
      assert segments == [segments[0]];
    } else {
      SplitJoin(segments[1..]);
      SplitConcat(segments[0], Join(segments[1..]));
      assert segments == [segments[0]] + segments[1..];
    }
  }

  lemma {:induction false} SplitPlain(s: string)
    requires Plain(s)
    ensures Split(s) == [s]
  {
    if s != "" {
      SplitPlain(s[1..]);
      assert s == [s[0]] + s[1..];
      assert s[0] in s;
    }
  }

  // --- narrowing is segment containment -----------------------------------------------------------

  lemma StringTestIsSegments(path: string, parent: string)
    ensures path == parent || StartsWith(path, parent + "/") <==> Split(parent) <= Split(path)
  {
    if StartsWith(path, parent + "/") {
      var rest := path[|parent| + 1..];
      assert path == parent + "/" + rest;
      SplitConcat(parent, rest);
    }
    if Split(parent) <= Split(path) {
      var rest := Split(path)[|Split(parent)|..];
      assert Split(path) == Split(parent) + rest;
      JoinSplit(path);
      JoinSplit(parent);
      if rest == [] {
        assert Split(path) == Split(parent);
      } else {
        JoinAppend(Split(parent), rest);
        assert path == parent + "/" + Join(rest);
      }
    }
  }

  /** No segment of the path is `.` or `..`. */
  lemma RelativeIff(path: string)
    ensures HasRelativeSegment(path) <==> "." in Split(path) || ".." in Split(path)
  {
  }

  /** A child without relative segments never extends a parent that has one. */
  lemma RelativeParentExcluded(path: string, parent: string)
    requires "." !in Split(path) && ".." !in Split(path) && Split(parent) <= Split(path)
    ensures "." !in Split(parent) && ".." !in Split(parent)
  {
    forall i | 0 <= i < |Split(parent)|
      ensures Split(parent)[i] != "." && Split(parent)[i] != ".."
    {
      assert Split(path)[i] == Split(parent)[i];
    }
  }

  /** Under a parent with a path, nothing with a `.` or `..` segment narrows, and nothing narrows such a parent. */
  lemma RelativeNeverNarrows(child: CapabilityScope, parent: CapabilityScope, segment: string)
    requires parent.path.Yes? && (segment == "." || segment == "..")
    requires segment in Split(parent.path.value) || (child.path.Yes? && segment in Split(child.path.value))
    ensures !IsWithin(child, parent)
  {
    RelativeIff(parent.path.value);
    if child.path.Yes? { RelativeIff(child.path.value); }
  }

  /** Narrowing: same kind, and the parent's segments start the child's, none of which is `.` or `..`. */
  lemma WithinIffSegments(child: CapabilityScope, parent: CapabilityScope)
    ensures IsWithin(child, parent) <==>
            && child.kind == parent.kind
            && (parent.path.Yes? ==>
                  && child.path.Yes? && Split(parent.path.value) <= Split(child.path.value)
                  && "." !in Split(child.path.value) && ".." !in Split(child.path.value))
  {
    if child.path.Yes? && parent.path.Yes? {
      var path, outer := child.path.value, parent.path.value;
      StringTestIsSegments(path, outer);
      RelativeIff(path);
      RelativeIff(outer);
      if "." !in Split(path) && ".." !in Split(path) && Split(outer) <= Split(path) { RelativeParentExcluded(path, outer); }
    }
  }

  lemma WithinTransitive(a: CapabilityScope, b: CapabilityScope, c: CapabilityScope)
    requires IsWithin(a, b) && IsWithin(b, c)
    ensures IsWithin(a, c)
  {
    hide IsWithin, Split, HasRelativeSegment;
    WithinIffSegments(a, b);
    WithinIffSegments(b, c);
    WithinIffSegments(a, c);
  }

  /** Each scope narrows the one before it. */
  predicate Chain(scopes: seq<CapabilityScope>) {
    forall i :: 0 < i < |scopes| ==> IsWithin(scopes[i], scopes[i - 1])
  }

  /** Along a delegation chain of any length the leaf narrows the root. */
  lemma {:induction false} ChainNarrows(scopes: seq<CapabilityScope>)
    requires |scopes| >= 2 && Chain(scopes)
    ensures IsWithin(scopes[|scopes| - 1], scopes[0])
  {
    hide IsWithin;
    var n := |scopes|;
    assert IsWithin(scopes[n - 1], scopes[n - 2]);
    if n > 2 {
      ChainNarrows(scopes[..n - 1]);
      WithinTransitive(scopes[n - 1], scopes[n - 2], scopes[0]);
    }
  }

  /** A shared string prefix is not enough: `/workbook` is not within `/work`. */
  lemma PrefixIsNotEnough(kind: string)
    ensures !IsWithin(CapabilityScope(kind, Yes("/workbook")), CapabilityScope(kind, Yes("/work")))
  {
    assert "/workbook"[5] == 'b' && ("/work" + "/")[5] == '/';
  }
}
