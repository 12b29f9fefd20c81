/** Splitting, joining and stripping of strings, as both Python and JavaScript do them. */
module Text {
  import opened Basics

  predicate OccursAt(s: string, i: nat, sub: string) {
    i + |sub| <= |s| && s[i..i + |sub|] == sub
  }

  function FindFrom(s: string, sub: string, i: nat): (r: Option<nat>)
    requires i <= |s|
    ensures r.None? ==> forall j :: i <= j <= |s| ==> !OccursAt(s, j, sub)
    ensures r.Some? ==> i <= r.value && OccursAt(s, r.value, sub)
    ensures r.Some? ==> forall j :: i <= j < r.value ==> !OccursAt(s, j, sub)
    decreases |s| - i
  {
    if OccursAt(s, i, sub) then Some(i)
    else if i == |s| then None
    else FindFrom(s, sub, i + 1)
  }

  predicate Contains(s: string, sub: string) {
    FindFrom(s, sub, 0).Some?
  }

  /** Somewhere in s there is sub. */
  ghost predicate PartOf(sub: string, s: string) {
    exists front, back :: s == front + sub + back
  }

  lemma ContainsIsPart(s: string, sub: string)
    ensures Contains(s, sub) <==> PartOf(sub, s)
  {
    if Contains(s, sub) {
      var i := FindFrom(s, sub, 0).value;
      assert s == s[..i] + sub + s[i + |sub|..];
    }
    if PartOf(sub, s) {
      var front, back :| s == front + sub + back;
      assert OccursAt(s, |front|, sub);
    }
  }

  function Split(s: string, sep: string): (parts: seq<string>)
    requires sep != ""
    ensures parts != []
    decreases |s|
  {
    match FindFrom(s, sep, 0)
    case None => [s]
    case Some(i) => [s[..i]] + Split(s[i + |sep|..], sep)
  }

  function Join(parts: seq<string>, sep: string): string {
    if parts == [] then ""
    else if |parts| == 1 then parts[0]
    else parts[0] + sep + Join(parts[1..], sep)
  }

  /** Joining undoes splitting. */
  lemma {:induction false} JoinSplit(s: string, sep: string)
    requires sep != ""
    ensures Join(Split(s, sep), sep) == s
    decreases |s|
  {
    match FindFrom(s, sep, 0)
    case None =>
    case Some(i) =>
      JoinSplit(s[i + |sep|..], sep);
      assert Split(s, sep)[1..] == Split(s[i + |sep|..], sep);
      assert s[..i] + sep + s[i + |sep|..] == s;
  }

  /** The part before the first separator is split off. */
  lemma SplitFirst(a: string, sep: string, rest: string)
    requires sep != "" && forall j :: 0 <= j < |a| ==> !OccursAt(a + sep + rest, j, sep)
    ensures Split(a + sep + rest, sep) == [a] + Split(rest, sep)
  {
    var s := a + sep + rest;
    assert OccursAt(s, |a|, sep);
    assert FindFrom(s, sep, 0) == Some(|a|);
    assert s[..|a|] == a && s[|a| + |sep|..] == rest;
  }

  predicate Without(parts: seq<string>, c: char) {
    forall i :: 0 <= i < |parts| ==> c !in parts[i]
  }

  lemma NotAt(s: string, j: nat, c: char)
    requires j < |s| ==> s[j] != c
    ensures !OccursAt(s, j, [c])
  {
    if j < |s| { assert s[j..j + 1][0] == s[j]; }
  }

  /** Splitting undoes joining when the separator is a character that occurs in no part. */
  lemma {:induction false} SplitJoin(parts: seq<string>, c: char)
    requires parts != [] && Without(parts, c)
    ensures Split(Join(parts, [c]), [c]) == parts
    decreases |parts|
  {
    if |parts| == 1 {
      forall j | 0 <= j <= |parts[0]| ensures !OccursAt(parts[0], j, [c]) {
        NotAt(parts[0], j, c);
      }
    } else {
      var rest := Join(parts[1..], [c]);
      SplitJoin(parts[1..], c);
      forall j | 0 <= j < |parts[0]| ensures !OccursAt(parts[0] + [c] + rest, j, [c]) {
        NotAt(parts[0] + [c] + rest, j, c);
      }
      SplitFirst(parts[0], [c], rest);
    }
  }

  /** No part of a split holds a single-character separator. */
  lemma {:induction false} SplitParts(s: string, c: char)
    ensures Without(Split(s, [c]), c)
    decreases |s|
  {
    match FindFrom(s, [c], 0)
    case None =>
      forall j | 0 <= j < |s| ensures s[j] != c {
        assert !OccursAt(s, j, [c]) && s[j..j + 1] == [s[j]];
      }
    case Some(i) =>
      SplitParts(s[i + 1..], c);
      forall j | 0 <= j < i ensures s[..i][j] != c {
        assert !OccursAt(s, j, [c]) && s[j..j + 1] == [s[j]];
      }
  }

  /** x lies in s between two separators or the ends. */
  ghost predicate SegmentAt(s: string, c: char, x: string, i: nat) {
    && OccursAt(s, i, x)
    && (i == 0 || s[i - 1] == c)
    && (i + |x| == |s| || s[i + |x|] == c)
  }

  ghost predicate HasSegment(s: string, c: char, x: string) {
    exists i: nat :: SegmentAt(s, c, x, i)
  }

  /** The parts of a split are what lies between the separators. */
  lemma {:induction false} PartsAreSegments(s: string, c: char, x: string)
    requires c !in x
    ensures x in Split(s, [c]) <==> HasSegment(s, c, x)
    decreases |s|
  {
    match FindFrom(s, [c], 0)
    case None =>
      OnlySegment(s, c, x);
    case Some(k) =>
      assert s[k] == c by { assert s[k..k + 1][0] == c; }
      PartsAreSegments(s[k + 1..], c, x);
      FirstOrLater(s, c, x, k);
  }

  lemma FirstOrLater(s: string, c: char, x: string, k: nat)
    requires c !in x && k < |s| && s[k] == c
    requires forall j :: 0 <= j < k ==> !OccursAt(s, j, [c])
    ensures HasSegment(s, c, x) <==> x == s[..k] || HasSegment(s[k + 1..], c, x)
  {
    hide SegmentAt;
    if x == s[..k] {
      assert SegmentAt(s, c, x, 0) by { FirstSegment(s, c, k); }
    }
    var rest := s[k + 1..];
    if j: nat :| SegmentAt(rest, c, x, j) {
      LaterSegment(s, c, x, k, j);
    }
    if i: nat :| SegmentAt(s, c, x, i) {
      SegmentBeforeOrAfter(s, c, x, i, k);
    }
  }

  lemma FirstSegment(s: string, c: char, k: nat)
    requires k < |s| && s[k] == c
    ensures SegmentAt(s, c, s[..k], 0)
  {
  }

  lemma LaterSegment(s: string, c: char, x: string, k: nat, j: nat)
    requires k < |s| && s[k] == c && SegmentAt(s[k + 1..], c, x, j)
    ensures SegmentAt(s, c, x, k + 1 + j)
  {
    assert s[k + 1 + j..k + 1 + j + |x|] == s[k + 1..][j..j + |x|];
  }

  lemma OnlySegment(s: string, c: char, x: string)
    requires forall j :: 0 <= j <= |s| ==> !OccursAt(s, j, [c])
    ensures HasSegment(s, c, x) <==> x == s
  {
    forall j | 0 <= j < |s| ensures s[j] != c {
      assert !OccursAt(s, j, [c]) && s[j..j + 1] == [s[j]];
    }
    if x == s { assert SegmentAt(s, c, x, 0); }
  }

  lemma SegmentBeforeOrAfter(s: string, c: char, x: string, i: nat, k: nat)
    requires c !in x && SegmentAt(s, c, x, i) && k < |s| && s[k] == c
    requires forall j :: 0 <= j < k ==> !OccursAt(s, j, [c])
    ensures x == s[..k] || HasSegment(s[k + 1..], c, x)
  {
    forall j | 0 <= j < k ensures s[j] != c {
      assert !OccursAt(s, j, [c]) && s[j..j + 1] == [s[j]];
    }
    forall j | i <= j < i + |x| ensures s[j] != c {
      assert s[j] == x[j - i];
    }
    if i > 0 {
      var rest, j := s[k + 1..], i - k - 1;
      assert s[i..i + |x|] == rest[j..j + |x|];
      assert SegmentAt(rest, c, x, j);
    }
  }

  function StripLeft(s: string, space: char -> bool): (r: string)
    ensures |r| <= |s| && r == s[|s| - |r|..] && forall i :: 0 <= i < |s| - |r| ==> space(s[i])
    ensures r != "" ==> !space(r[0])
    ensures s != "" && !space(s[0]) ==> r == s
    ensures s != "" && space(s[0]) ==> |r| < |s|
  {
    if s != "" && space(s[0]) then StripLeft(s[1..], space) else s
  }

  function StripRight(s: string, space: char -> bool): (r: string)
    ensures r <= s && forall i :: |r| <= i < |s| ==> space(s[i])
    ensures r != "" ==> !space(r[|r| - 1])
    ensures s != "" && !space(s[|s| - 1]) ==> r == s
    ensures s != "" && space(s[|s| - 1]) ==> |r| < |s|
  {
    if s != "" && space(s[|s| - 1]) then StripRight(s[..|s| - 1], space) else s
  }

  function Strip(s: string, space: char -> bool): string {
    StripRight(StripLeft(s, space), space)
  }

  predicate All(s: string, property: char -> bool) {
    forall i :: 0 <= i < |s| ==> property(s[i])
  }

  /** The body is what is left of s without the white space at both ends. */
  ghost predicate Trimmed(space: char -> bool, s: string, front: string, body: string, back: string) {
    && s == front + body + back && All(front, space) && All(back, space)
    && (body != "" ==> !space(body[0]) && !space(body[|body| - 1]))
  }

  /** Stripping removes the white space at both ends and nothing else. */
  lemma StripTrims(s: string, space: char -> bool) returns (front: string, back: string)
    ensures Trimmed(space, s, front, Strip(s, space), back)
  {
    hide StripLeft, StripRight, Trimmed;
    var left := StripLeft(s, space);
    var body := StripRight(left, space);
    var n, m := |s| - |left|, |body|;
    front, back := s[..n], left[m..];
    StrippedIsTrimmed(s, space, n, left, m, body);
  }

  lemma StrippedIsTrimmed(s: string, space: char -> bool, n: nat, left: string, m: nat, body: string)
    requires n <= |s| && left == s[n..] && m <= |left| && body == left[..m]
    requires forall i :: 0 <= i < n ==> space(s[i])
    requires forall i :: m <= i < |left| ==> space(left[i])
    requires left != "" ==> !space(left[0])
    requires body != "" ==> !space(body[|body| - 1])
    ensures Trimmed(space, s, s[..n], body, left[m..])
  {
    assert left == body + left[m..];
    assert s == s[..n] + left;
    assert s == s[..n] + body + left[m..];
    assert All(left[m..], space);
  }

  predicate Padded(s: string, space: char -> bool) {
    s != "" && (space(s[0]) || space(s[|s| - 1]))
  }

  /** Stripping changes exactly the strings with white space at an end, and shortens those. */
  lemma StripChangesPadded(s: string, space: char -> bool)
    ensures if Padded(s, space) then |Strip(s, space)| < |s| else Strip(s, space) == s
    ensures !Padded(Strip(s, space), space)
  {
    var l := StripLeft(s, space);
    if l != "" && s != "" && !space(s[0]) {
      assert l == s;
    }
  }

  function Replace(s: string, was: char, now: char): (r: string)
    ensures |r| == |s| && forall i :: 0 <= i < |s| ==> r[i] == if s[i] == was then now else s[i]
  {
    if s == "" then "" else [if s[0] == was then now else s[0]] + Replace(s[1..], was, now)
  }
}
