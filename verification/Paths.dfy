/** The normal form of project paths. */
module Paths {
  import opened Basics
  import opened Text
  import Dedupe

  datatype PathError = EmptyPath | NotRelative | Traversal

  datatype Result<T> = Ok(value: T) | Err(error: PathError)

  /** The characters that Python's strip removes. */
  predicate IsSpace(c: char) {
    var n := c as int;
    || 0x09 <= n <= 0x0D || 0x1C <= n <= 0x20 || n == 0x85 || n == 0xA0 || n == 0x1680
    || 0x2000 <= n <= 0x200A || n == 0x2028 || n == 0x2029 || n == 0x202F || n == 0x205F || n == 0x3000
  }

  predicate HasDrive(s: string) {
    |s| >= 2 && ('A' <= s[0] <= 'Z' || 'a' <= s[0] <= 'z') && s[1] == ':'
  }

  /** The segments that count: neither empty nor a dot. */
  function Kept(parts: seq<string>): seq<string> {
    if parts == [] then []
    else
      var n := |parts| - 1;
      Kept(parts[..n]) + if parts[n] == "" || parts[n] == "." then [] else [parts[n]]
  }

  function Rejoin(kept: seq<string>): string {
    if kept == [] then "." else Join(kept, "/")
  }

  /** The rules for a cleaned path. */
  function CanonicalRaw(raw: string): Result<string> {
    if raw == "" then Err(EmptyPath)
    else if raw[0] == '/' || HasDrive(raw) then Err(NotRelative)
    else if ".." in Split(raw, "/") then Err(Traversal)
    else Ok(Rejoin(Kept(Split(raw, "/"))))
  }

  /** A path without outer white space and backslashes. */
  function Cleaned(space: char -> bool, path: string): string {
    Replace(Strip(path, space), '\\', '/')
  }

  function Canonical(path: string): Result<string> {
    CanonicalRaw(Cleaned(IsSpace, path))
  }

  method CanonicalPath(path: string) returns (r: Result<string>)
    ensures r == Canonical(path)
  {
    var raw := Cleaned(IsSpace, path);
    if raw == "" {
      return Err(EmptyPath);
    }
    if raw[0] == '/' || HasDrive(raw) {
      return Err(NotRelative);
    }
    var parts := KeepSegments(Split(raw, "/"));
    if parts.Err? {
      return Err(parts.error);
    }
    if parts.value == [] {
      return Ok(".");
    }
    return Ok(Join(parts.value, "/"));
  }

  /** The segment loop. */
  method KeepSegments(split: seq<string>) returns (r: Result<seq<string>>)
    ensures r == if ".." in split then Err(Traversal) else Ok(Kept(split))
  {
    var parts: seq<string> := [];
    var i := 0;
    while i < |split|
      invariant 0 <= i <= |split|
      invariant parts == Kept(split[..i]) && ".." !in split[..i]
    {
      var part := split[i];
      assert split[..i + 1][..i] == split[..i];
      if part == "" || part == "." {
      } else if part == ".." {
        return Err(Traversal);
      } else {
        parts := parts + [part];
      }
      i := i + 1;
    }
    assert split[..i] == split;
    return Ok(parts);
  }

  // ----- the normal form

  predicate CleanSegment(s: string) {
    s != "" && s != "." && s != ".." && '/' !in s && '\\' !in s
  }

  predicate CleanSegments(segments: seq<string>) {
    forall i :: 0 <= i < |segments| ==> CleanSegment(segments[i])
  }

  ghost predicate NormalForm(s: string) {
    s == "." || exists segments :: segments != [] && CleanSegments(segments) && s == Join(segments, "/")
  }

  lemma {:induction false} KeptAreClean(parts: seq<string>)
    requires ".." !in parts && Without(parts, '/') && Without(parts, '\\')
    ensures CleanSegments(Kept(parts))
    decreases |parts|
  {
    if parts != [] {
      var n := |parts| - 1;
      assert Without(parts[..n], '/') && Without(parts[..n], '\\');
      KeptAreClean(parts[..n]);
    }
  }

  lemma {:induction false} CleanAreKept(parts: seq<string>)
    requires CleanSegments(parts)
    ensures Kept(parts) == parts
    decreases |parts|
  {
    if parts != [] {
      var n := |parts| - 1;
      CleanAreKept(parts[..n]);
      assert parts == parts[..n] + [parts[n]];
    }
  }

  lemma {:induction false} PartsOf(s: string, c: char, sep: char)
    requires c !in s
    ensures Without(Split(s, [sep]), c)
    decreases |s|
  {
    match FindFrom(s, [sep], 0)
    case None =>
    case Some(i) =>
      PartsOf(s[i + 1..], c, sep);
  }

  /** The segments an accepted path is built from. */
  lemma AcceptedSegments(raw: string)
    requires CanonicalRaw(raw).Ok? && '\\' !in raw
    ensures CleanSegments(Kept(Split(raw, "/")))
  {
    SplitParts(raw, '/');
    PartsOf(raw, '\\', '/');
    KeptAreClean(Split(raw, "/"));
  }

  /** Every accepted path becomes "." or clean segments joined by slashes. */
  lemma CanonicalIsNormal(path: string)
    requires Canonical(path).Ok?
    ensures NormalForm(Canonical(path).value)
  {
    CleanedHasNoBackslash(IsSpace, path);
    AcceptedSegments(Cleaned(IsSpace, path));
  }

  /** The result names the same segments as the path it came from. */
  lemma CanonicalKeepsSegments(raw: string)
    requires CanonicalRaw(raw).Ok? && '\\' !in raw
    ensures Kept(Split(CanonicalRaw(raw).value, "/")) == Kept(Split(raw, "/"))
  {
    var kept := Kept(Split(raw, "/"));
    AcceptedSegments(raw);
    if kept == [] {
      SplitOfDot();
    } else {
      assert Split(Join(kept, "/"), "/") == kept by { SplitJoin(kept, '/'); }
      CleanAreKept(kept);
    }
  }

  lemma SplitOfDot()
    ensures Split(".", "/") == ["."] && Kept(["."]) == []
  {
    assert Split(".", "/") == ["."] by {
      assert Join(["."], "/") == ".";
      SplitJoin(["."], '/');
    }
    assert Kept(["."]) == Kept([]) by { assert ["."][..0] == []; }
  }

  // ----- which paths are accepted, and what becomes of them

  predicate IsSlash(c: char) {
    c == '/' || c == '\\'
  }

  /** Two dots between slashes or backslashes, or at an end. */
  ghost predicate TraversesAt(body: string, i: nat) {
    && i + 2 <= |body| && body[i] == '.' && body[i + 1] == '.'
    && (i == 0 || IsSlash(body[i - 1])) && (i + 2 == |body| || IsSlash(body[i + 2]))
  }

  ghost predicate Traverses(body: string) {
    exists i: nat :: TraversesAt(body, i)
  }

  lemma TraversesBySegment(body: string)
    ensures Traverses(body) <==> ".." in Split(Replace(body, '\\', '/'), "/")
  {
    var raw := Replace(body, '\\', '/');
    PartsAreSegments(raw, '/', "..");
    if i: nat :| TraversesAt(body, i) {
      assert raw[i..i + 2] == "..";
      assert SegmentAt(raw, '/', "..", i);
    }
    if i: nat :| SegmentAt(raw, '/', "..", i) {
      assert raw[i] == raw[i..i + 2][0] == '.' && raw[i + 1] == raw[i..i + 2][1] == '.';
      assert TraversesAt(body, i);
    }
  }

  /** Which paths are refused, and with which error: by the characters of the path alone. */
  lemma OutcomeExactly(path: string) returns (front: string, body: string, back: string)
    ensures Trimmed(IsSpace, path, front, body, back)
    ensures Canonical(path) == Err(EmptyPath) <==> body == ""
    ensures Canonical(path) == Err(NotRelative)
            <==> body != "" && (|| body[0] == '/' || body[0] == '\\'
                                || (|body| >= 2 && ('A' <= body[0] <= 'Z' || 'a' <= body[0] <= 'z') && body[1] == ':'))
    ensures Canonical(path) == Err(Traversal)
            <==> Canonical(path) != Err(EmptyPath) && Canonical(path) != Err(NotRelative) && Traverses(body)
  {
    hide Split, Strip, Kept;
    body := Strip(path, IsSpace);
    front, back := StripTrims(path, IsSpace);
    TraversesBySegment(body);
  }

  /** The positions are those of the segments that count, in order. */
  ghost predicate Picks(parts: seq<string>, at: seq<nat>, kept: seq<string>) {
    && |at| == |kept|
    && (forall i :: 0 <= i < |at| ==> at[i] < |parts| && parts[at[i]] == kept[i])
    && (forall i, j :: 0 <= i < j < |at| ==> at[i] < at[j])
    && (forall p :: 0 <= p < |parts| ==> (p in at <==> parts[p] != "" && parts[p] != "."))
  }

  lemma {:induction false} KeptArePicked(parts: seq<string>) returns (at: seq<nat>)
    ensures Picks(parts, at, Kept(parts))
    decreases |parts|
  {
    at := [];
    if parts != [] {
      var n := |parts| - 1;
      at := KeptArePicked(parts[..n]);
      PickOneMore(parts, at, Kept(parts[..n]));
      if parts[n] != "" && parts[n] != "." { at := at + [n]; }
    }
  }

  lemma PickOneMore(parts: seq<string>, at: seq<nat>, kept: seq<string>)
    requires parts != [] && Picks(parts[..|parts| - 1], at, kept)
    ensures var n := |parts| - 1;
            if parts[n] == "" || parts[n] == "." then Picks(parts, at, kept)
            else Picks(parts, at + [n], kept + [parts[n]])
  {
    var n := |parts| - 1;
    forall i | 0 <= i < |at| ensures at[i] < n && parts[at[i]] == kept[i] {
      assert parts[..n][at[i]] == parts[at[i]];
    }
    forall p | 0 <= p < n ensures p in at <==> parts[p] != "" && parts[p] != "." {
      assert parts[..n][p] == parts[p];
    }
    assert forall p :: p in at + [n] <==> p in at || p == n;
  }

  /** An accepted path becomes its segments other than empty ones and dots, in order, joined by slashes;
      a dot if there are none. */
  lemma ResultBySegments(path: string)
    returns (front: string, body: string, back: string, at: seq<nat>, kept: seq<string>)
    requires Canonical(path).Ok?
    ensures Trimmed(IsSpace, path, front, body, back)
    ensures Picks(Split(Replace(body, '\\', '/'), "/"), at, kept)
    ensures Canonical(path).value == if kept == [] then "." else Join(kept, "/")
  {
    hide Split, Strip, Kept;
    body := Strip(path, IsSpace);
    front, back := StripTrims(path, IsSpace);
    kept := Kept(Split(Replace(body, '\\', '/'), "/"));
    at := KeptArePicked(Split(Replace(body, '\\', '/'), "/"));
  }

  // ----- when a second application changes nothing

  lemma {:induction false} JoinLast(parts: seq<string>)
    requires parts != []
    ensures var n := |parts| - 1;
            Join(parts, "/") == if n == 0 then parts[0] else Join(parts[..n], "/") + "/" + parts[n]
    decreases |parts|
  {
    var n := |parts| - 1;
    if n > 0 {
      JoinLast(parts[1..]);
      assert parts[..n][1..] == parts[1..][..n - 1];
    }
  }

  lemma {:induction false} JoinKeptIsShorter(parts: seq<string>)
    ensures |Join(Kept(parts), "/")| <= |Join(parts, "/")|
    decreases |parts|
  {
    if parts != [] {
      var n := |parts| - 1;
      JoinKeptIsShorter(parts[..n]);
      JoinLast(parts);
      if Kept(parts) != Kept(parts[..n]) {
        JoinLast(Kept(parts));
        assert Kept(parts)[..|Kept(parts)| - 1] == Kept(parts[..n]);
        if n == 0 { assert Kept(parts[..n]) == []; }
      }
    }
  }

  lemma RawIsNoLonger(raw: string)
    requires CanonicalRaw(raw).Ok?
    ensures |CanonicalRaw(raw).value| <= |raw|
  {
    JoinSplit(raw, "/");
    JoinKeptIsShorter(Split(raw, "/"));
  }

  lemma {:induction false} NormalFormCharacters(segments: seq<string>)
    requires segments != [] && CleanSegments(segments)
    ensures Join(segments, "/") != "" && Join(segments, "/")[0] != '/'
    ensures '\\' !in Join(segments, "/")
    decreases |segments|
  {
    if |segments| > 1 {
      NormalFormCharacters(segments[1..]);
    }
  }

  lemma ReplaceNothing(s: string, was: char, now: char)
    requires was !in s
    ensures Replace(s, was, now) == s
  {
    assert forall i :: 0 <= i < |s| ==> s[i] in s;
  }

  lemma RawOfNormal(segments: seq<string>)
    requires segments != [] && CleanSegments(segments)
    ensures var r := Join(segments, "/"); CanonicalRaw(r) == if HasDrive(r) then Err(NotRelative) else Ok(r)
  {
    NormalFormCharacters(segments);
    assert Split(Join(segments, "/"), "/") == segments by { SplitJoin(segments, '/'); }
    CleanAreKept(segments);
  }

  lemma RawOfDot()
    ensures CanonicalRaw(".") == Ok(".")
  {
    SplitOfDot();
  }

  lemma CleanedHasNoBackslash(space: char -> bool, s: string)
    ensures '\\' !in Cleaned(space, s)
  {
  }

  /** Cleaning changes exactly the padded strings, and shortens those. */
  lemma CleanedIfPadded(space: char -> bool, s: string)
    requires '\\' !in s
    ensures if Padded(s, space) then |Cleaned(space, s)| < |s| else Cleaned(space, s) == s
  {
    StripChangesPadded(s, space);
    if !Padded(s, space) { ReplaceNothing(s, '\\', '/'); }
  }

  lemma ResultHasNoBackslash(raw: string)
    requires CanonicalRaw(raw).Ok? && '\\' !in raw
    ensures '\\' !in CanonicalRaw(raw).value
  {
    AcceptedSegments(raw);
    var kept := Kept(Split(raw, "/"));
    if kept != [] { NormalFormCharacters(kept); }
  }

  /** A result applied again, where cleaning either shortens it or leaves it alone. */
  lemma StableRaw(raw: string, again: string, shorter: bool)
    requires CanonicalRaw(raw).Ok? && '\\' !in raw
    requires var r := CanonicalRaw(raw).value; if shorter then |again| < |r| else again == r
    ensures var r := CanonicalRaw(raw).value; CanonicalRaw(again) == Ok(r) <==> !shorter && !HasDrive(r)
  {
    if shorter {
      if CanonicalRaw(again).Ok? { RawIsNoLonger(again); }
    } else {
      AcceptedSegments(raw);
      var kept := Kept(Split(raw, "/"));
      if kept == [] { RawOfDot(); } else { RawOfNormal(kept); }
    }
  }

  /** Canonicalising a result again returns it unchanged exactly when it has no white space at an
      end and no drive prefix. */
  lemma StableExactly(path: string)
    requires Canonical(path).Ok?
    ensures var r := Canonical(path).value;
            Canonical(r) == Ok(r) <==> !Padded(r, IsSpace) && !HasDrive(r)
  {
    var raw := Cleaned(IsSpace, path);
    var r := CanonicalRaw(raw).value;
    CleanedHasNoBackslash(IsSpace, path);
    ResultHasNoBackslash(raw);
    CleanedIfPadded(IsSpace, r);
    StableRaw(raw, Cleaned(IsSpace, r), Padded(r, IsSpace));
  }

  /** The paths left alone are exactly the normal forms without outer white space and drive prefix. */
  lemma FixpointsExactly(s: string)
    ensures Canonical(s) == Ok(s) <==> NormalForm(s) && !Padded(s, IsSpace) && !HasDrive(s)
  {
    if Canonical(s) == Ok(s) {
      CanonicalIsNormal(s);
      StableExactly(s);
    }
    if NormalForm(s) && !Padded(s, IsSpace) && !HasDrive(s) {
      if s == "." {
        CleanedIfPadded(IsSpace, s);
        RawOfDot();
      } else {
        var segments :| segments != [] && CleanSegments(segments) && s == Join(segments, "/");
        NormalFormCharacters(segments);
        CleanedIfPadded(IsSpace, s);
        RawOfNormal(segments);
      }
    }
  }

  /** A single plain segment is left alone. */
  lemma OneSegment(s: string)
    requires CleanSegment(s) && !Padded(s, IsSpace) && !HasDrive(s)
    ensures Canonical(s) == Ok(s)
  {
    hide Canonical;
    var segments := [s];
    assert CleanSegments(segments) && s == Join(segments, "/");
    FixpointsExactly(s);
  }

  // ----- every normal form is a result, stable or not

  /** A path whose first segment is a dot and whose last one is empty. */
  function Shielded(s: string): string {
    "./" + s + "/"
  }

  lemma JoinShielded(segments: seq<string>)
    requires segments != []
    ensures Join(["."] + segments + [""], "/") == Shielded(Join(segments, "/"))
  {
    var parts := ["."] + segments + [""];
    var n := |parts| - 1;
    assert parts[..n] == ["."] + segments && parts[..n][1..] == segments;
    JoinLast(parts);
  }

  lemma {:induction false} KeptAfterDot(segments: seq<string>)
    requires CleanSegments(segments)
    ensures Kept(["."] + segments) == segments
    decreases |segments|
  {
    if segments == [] {
      assert (["."] + segments)[..0] == [];
    } else {
      var n := |segments| - 1;
      KeptAfterDot(segments[..n]);
      assert (["."] + segments)[..n + 1] == ["."] + segments[..n];
      assert segments == segments[..n] + [segments[n]];
    }
  }

  lemma RawOfShielded(segments: seq<string>)
    requires segments != [] && CleanSegments(segments)
    ensures CanonicalRaw(Shielded(Join(segments, "/"))) == Ok(Join(segments, "/"))
  {
    hide Kept, Split;
    var parts := ["."] + segments + [""];
    JoinShielded(segments);
    assert Without(parts, '/');
    SplitJoin(parts, '/');
    KeptAfterDot(segments);
    assert Kept(parts) == Kept(["."] + segments) by { KeptBeforeEmpty(["."] + segments); }
  }

  lemma KeptBeforeEmpty(parts: seq<string>)
    ensures Kept(parts + [""]) == Kept(parts)
  {
    assert (parts + [""])[..|parts|] == parts;
  }

  /** The shield protects white space at the ends and a drive prefix from the first application. */
  lemma ShieldProtects(segments: seq<string>)
    requires segments != [] && CleanSegments(segments)
    ensures Canonical(Shielded(Join(segments, "/"))) == Ok(Join(segments, "/"))
  {
    hide CanonicalRaw;
    var raw := Shielded(Join(segments, "/"));
    NormalFormCharacters(segments);
    assert '\\' !in raw && !Padded(raw, IsSpace);
    CleanedIfPadded(IsSpace, raw);
    RawOfShielded(segments);
  }

  /** The shield is such a path for every normal form. */
  lemma ShieldedIsAccepted(s: string)
    requires NormalForm(s)
    ensures Canonical(if s == "." then s else Shielded(s)) == Ok(s)
  {
    hide Canonical;
    if s == "." {
      FixpointsExactly(s);
    } else {
      var segments :| segments != [] && CleanSegments(segments) && s == Join(segments, "/");
      ShieldProtects(segments);
    }
  }

  /** The results of canonicalisation are exactly the normal forms. */
  lemma ImageExactly(s: string)
    ensures (exists path :: Canonical(path) == Ok(s)) <==> NormalForm(s)
  {
    hide Canonical;
    if NormalForm(s) {
      ShieldedIsAccepted(s);
    }
    if exists path :: Canonical(path) == Ok(s) {
      var path :| Canonical(path) == Ok(s);
      CanonicalIsNormal(path);
    }
  }

  /** Every normal form with white space at an end or a drive prefix is a result that a second
      application changes or refuses. */
  lemma UnstableFamily(s: string) returns (path: string)
    requires NormalForm(s) && (Padded(s, IsSpace) || HasDrive(s))
    ensures Canonical(path) == Ok(s) && Canonical(s) != Ok(s)
  {
    hide Canonical;
    path := if s == "." then s else Shielded(s);
    ShieldedIsAccepted(s);
    StableExactly(path);
  }

  lemma OneSegmentIsNormal(s: string)
    requires CleanSegment(s)
    ensures NormalForm(s)
  {
    assert CleanSegments([s]) && s == Join([s], "/");
  }

  lemma UnstableSegment(s: string)
    requires CleanSegment(s) && (Padded(s, IsSpace) || HasDrive(s))
    ensures Canonical(Shielded(s)) == Ok(s) && Canonical(s) != Ok(s)
  {
    hide Canonical;
    OneSegmentIsNormal(s);
    var path := UnstableFamily(s);
    ShieldedIsAccepted(s);
  }

  lemma TrailingBlankIsUnstable()
    ensures Canonical("./a /") == Ok("a ") && Canonical("a ") != Ok("a ")
  {
    hide Canonical;
    assert "./a /" == Shielded("a ");
    UnstableSegment("a ");
  }

  lemma RawAfterDot(segments: seq<string>)
    requires segments != [] && CleanSegments(segments)
    ensures CanonicalRaw("./" + Join(segments, "/")) == Ok(Join(segments, "/"))
  {
    hide Kept, Split;
    var parts := ["."] + segments;
    var raw := "./" + Join(segments, "/");
    assert Join(parts, "/") == raw by { assert parts[1..] == segments; }
    assert Without(parts, '/');
    SplitJoin(parts, '/');
    KeptAfterDot(segments);
  }

  /** A dot alone protects a leading blank and a drive prefix. */
  lemma DotProtects(segments: seq<string>)
    requires segments != [] && CleanSegments(segments) && !Padded("./" + Join(segments, "/"), IsSpace)
    ensures Canonical("./" + Join(segments, "/")) == Ok(Join(segments, "/"))
  {
    NormalFormCharacters(segments);
    CleanedIfPadded(IsSpace, "./" + Join(segments, "/"));
    RawAfterDot(segments);
  }

  lemma LeadingBlankIsUnstable()
    ensures Canonical("./ a") == Ok(" a") && Canonical(" a") != Ok(" a")
  {
    hide Canonical;
    assert "./ a" == "./" + Join([" a"], "/");
    DotProtects([" a"]);
    StableExactly("./ a");
  }

  lemma DriveIsUnstable()
    ensures Canonical("./C:") == Ok("C:") && Canonical("C:") != Ok("C:")
  {
    hide Canonical;
    assert "./C:" == "./" + Join(["C:"], "/");
    DotProtects(["C:"]);
    StableExactly("./C:");
  }

  // ----- lists of paths

  /** The images of all paths in order, or the error of the first that has none. */
  function EachBy(f: string -> Result<string>, paths: seq<string>): Result<seq<string>> {
    if paths == [] then Ok([])
    else
      var n := |paths| - 1;
      match EachBy(f, paths[..n])
      case Err(e) => Err(e)
      case Ok(items) =>
        match f(paths[n])
        case Err(e) => Err(e)
        case Ok(item) => Ok(items + [item])
  }

  function ListBy(f: string -> Result<string>, paths: seq<string>): Result<seq<string>> {
    match EachBy(f, paths)
    case Err(e) => Err(e)
    case Ok(items) => Ok(Dedupe.FirstOccurrences(items))
  }

  function CanonicalList(paths: seq<string>): Result<seq<string>> {
    ListBy(Canonical, paths)
  }

  lemma EachStart(f: string -> Result<string>, paths: seq<string>)
    ensures EachBy(f, paths[..0]) == Ok([]) && Dedupe.FirstOccurrences([]) == []
  {
  }

  lemma EachDone(f: string -> Result<string>, paths: seq<string>, items: seq<string>)
    requires EachBy(f, paths[..|paths|]) == Ok(items)
    ensures ListBy(f, paths) == Ok(Dedupe.FirstOccurrences(items))
  {
    assert paths[..|paths|] == paths;
  }

  lemma EachStep(f: string -> Result<string>, paths: seq<string>, i: nat, items: seq<string>)
    requires i < |paths| && EachBy(f, paths[..i]) == Ok(items)
    ensures f(paths[i]).Ok? ==> EachBy(f, paths[..i + 1]) == Ok(items + [f(paths[i]).value])
    ensures f(paths[i]).Err? ==> ListBy(f, paths) == Err(f(paths[i]).error)
  {
    assert paths[..i + 1][..i] == paths[..i];
    if f(paths[i]).Err? { FirstErrorStays(f, paths, i + 1); }
  }

  method CanonicalPaths(paths: seq<string>) returns (r: Result<seq<string>>)
    ensures r == CanonicalList(paths)
  {
    hide Canonical, EachBy, ListBy, Dedupe.FirstOccurrences;
    ghost var f := Canonical;
    EachStart(f, paths);
    var seen: set<string> := {};
    var normalized: seq<string> := [];
    ghost var items: seq<string> := [];
    var i := 0;
    while i < |paths|
      invariant 0 <= i <= |paths|
      invariant EachBy(f, paths[..i]) == Ok(items)
      invariant normalized == Dedupe.FirstOccurrences(items)
      invariant seen == set x | x in normalized
    {
      EachStep(f, paths, i, items);
      var item := CanonicalPath(paths[i]);
      if item.Err? {
        return Err(item.error);
      }
      Dedupe.OneMore(items, item.value);
      items := items + [item.value];
      if item.value !in seen {
        seen := seen + {item.value};
        normalized := normalized + [item.value];
      }
      i := i + 1;
    }
    EachDone(f, paths, items);
    return Ok(normalized);
  }

  lemma {:induction false} FirstErrorStays(f: string -> Result<string>, paths: seq<string>, n: nat)
    requires n <= |paths| && EachBy(f, paths[..n]).Err?
    ensures EachBy(f, paths) == EachBy(f, paths[..n])
    decreases |paths|
  {
    if n < |paths| {
      var m := |paths| - 1;
      assert paths[..m][..n] == paths[..n];
      FirstErrorStays(f, paths[..m], n);
    } else {
      assert paths[..n] == paths;
    }
  }

  lemma {:induction false} EachPointwise(f: string -> Result<string>, paths: seq<string>)
    ensures EachBy(f, paths).Ok? <==> forall i :: 0 <= i < |paths| ==> f(paths[i]).Ok?
    ensures EachBy(f, paths).Ok? ==>
              && |EachBy(f, paths).value| == |paths|
              && forall i :: 0 <= i < |paths| ==> f(paths[i]) == Ok(EachBy(f, paths).value[i])
    decreases |paths|
  {
    if paths != [] {
      EachPointwise(f, paths[..|paths| - 1]);
    }
  }

  /** x is the image of some path before position k. */
  ghost predicate ImageBefore(f: string -> Result<string>, paths: seq<string>, k: nat, x: string)
    requires k <= |paths|
  {
    exists i :: 0 <= i < k && f(paths[i]) == Ok(x)
  }

  /** The list holds the image of every path and nothing else, once each, in the order of first
      occurrence. */
  ghost predicate IsImageOf(f: string -> Result<string>, paths: seq<string>, list: seq<string>) {
    && (forall x :: x in list <==> ImageBefore(f, paths, |paths|, x))
    && (forall i, j :: 0 <= i < j < |list| ==> list[i] != list[j])
    && (forall i, j, k :: 0 <= i < j < |list| && 0 <= k < |paths| && f(paths[k]) == Ok(list[j])
          ==> ImageBefore(f, paths, k, list[i]))
  }

  lemma ListByIsImage(f: string -> Result<string>, paths: seq<string>)
    ensures ListBy(f, paths).Ok? <==> forall i :: 0 <= i < |paths| ==> f(paths[i]).Ok?
    ensures ListBy(f, paths).Ok? ==> IsImageOf(f, paths, ListBy(f, paths).value)
  {
    EachPointwise(f, paths);
    if ListBy(f, paths).Ok? {
      var items := EachBy(f, paths).value;
      var list := ListBy(f, paths).value;
      Dedupe.SameValuesOnce(items);
      forall x ensures x in list <==> ImageBefore(f, paths, |paths|, x) {
        if x in items {
          var i :| 0 <= i < |items| && items[i] == x;
          assert f(paths[i]) == Ok(x);
        }
      }
      forall i, j, k | 0 <= i < j < |list| && 0 <= k < |paths| && f(paths[k]) == Ok(list[j])
        ensures ImageBefore(f, paths, k, list[i])
      {
        var l := Dedupe.InFirstOccurrenceOrder(items, i, j, k);
        assert f(paths[l]) == Ok(list[i]);
      }
    }
  }

  /** The list form succeeds exactly when every path is accepted, and is then the ordered image. */
  lemma CanonicalListIsImage(paths: seq<string>)
    ensures CanonicalList(paths).Ok? <==> forall i :: 0 <= i < |paths| ==> Canonical(paths[i]).Ok?
    ensures CanonicalList(paths).Ok? ==> IsImageOf(Canonical, paths, CanonicalList(paths).value)
  {
    ListByIsImage(Canonical, paths);
  }
}
