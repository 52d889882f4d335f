/** `BlenderMatcher::match_str` (src/blender_utils.rs): reading a build name such
    as `blender-4.2.1-stable+v42.abc123-linux.x86_64-release.tar.xz` into a
    `BlenderVersion` with the two patterns

      main:      blender-(?<version>\d.\d.\d+)-(?<release>\w+)\+(?<branch>.+?)-(?<os>.+)-
      extracted: blender-(?<version>\d.\d.\d+)-(?<os>.+)

    The patterns are specified relationally, by the positions where each group
    ends (`MainSpans`, `FallbackSpans`); the regex engine's choice among those
    matches (leftmost start, then the lazy `.+?` as short and the greedy `.+` as
    long as possible) is `LeftmostMain` / `LeftmostFallback`. A small
    deterministic matcher computes that choice and is proved to agree with it. */
module BlenderMatcher {
  import opened Types

  const Prefix: string := "blender-"

  /** The character classes the patterns use: `\d`, `\w` and `.` (which matches
      every character except a line feed). */
  datatype Class = Digit | Word | Any

  predicate InClass(c: char, cl: Class)
  {
    match cl
    case Digit => '0' <= c <= '9'
    case Word => '0' <= c <= '9' || 'a' <= c <= 'z' || 'A' <= c <= 'Z' || c == '_'
    case Any => c != '\n'
  }

  /** Every character of `s[lo..hi]` is in class `cl`. */
  predicate Run(s: string, lo: nat, hi: nat, cl: Class)
    requires lo <= hi <= |s|
  {
    forall k :: lo <= k < hi ==> InClass(s[k], cl)
  }

  /** `s[lo..hi]` matches `\d.\d.\d+`. */
  predicate VersionSpan(s: string, lo: nat, hi: nat)
  {
    lo + 5 <= hi <= |s| && InClass(s[lo], Digit) && InClass(s[lo + 1], Any) &&
    InClass(s[lo + 2], Digit) && InClass(s[lo + 3], Any) && Run(s, lo + 4, hi, Digit)
  }

  /** The text `s[i..]` starts with "blender-". */
  predicate PrefixAt(s: string, i: nat)
  {
    i + |Prefix| <= |s| && s[i..i + |Prefix|] == Prefix
  }

  /** The main pattern matches `s[i..oe + 1]` with the version group ending at
      `ve`, release at `re`, branch at `be` and os at `oe` (each group is
      followed by its delimiter: '-', '+', '-', '-'). */
  predicate MainSpans(s: string, i: nat, ve: nat, re: nat, be: nat, oe: nat)
  {
    PrefixAt(s, i) &&
    VersionSpan(s, i + |Prefix|, ve) && ve < |s| && s[ve] == '-' &&
    ve + 1 < re < |s| && Run(s, ve + 1, re, Word) && s[re] == '+' &&
    BranchOsSpans(s, re, be, oe)
  }

  /** After the '+' at `re`: the branch group ends at `be` and the os group at
      `oe`, each followed by its '-'. */
  predicate BranchOsSpans(s: string, re: nat, be: nat, oe: nat)
  {
    re + 1 < be < |s| && Run(s, re + 1, be, Any) && s[be] == '-' &&
    be + 1 < oe < |s| && Run(s, be + 1, oe, Any) && s[oe] == '-'
  }

  /** The extracted-directory pattern matches `s[i..oe]`, the version group
      ending at `ve` and the os group at `oe`. */
  predicate FallbackSpans(s: string, i: nat, ve: nat, oe: nat)
  {
    PrefixAt(s, i) &&
    VersionSpan(s, i + |Prefix|, ve) && ve < |s| && s[ve] == '-' &&
    ve + 1 < oe <= |s| && Run(s, ve + 1, oe, Any)
  }

  ghost predicate HasMain(s: string)
  {
    exists i: nat, ve: nat, re: nat, be: nat, oe: nat :: MainSpans(s, i, ve, re, be, oe)
  }

  ghost predicate HasFallback(s: string)
  {
    exists i: nat, ve: nat, oe: nat :: FallbackSpans(s, i, ve, oe)
  }

  datatype MainHit = MainHit(start: nat, ve: nat, re: nat, be: nat, oe: nat)

  datatype FallbackHit = FallbackHit(start: nat, ve: nat, oe: nat)

  /** The match the regex engine reports for the main pattern: no match starts
      earlier, and among the matches at this start the lazy branch group is the
      shortest and the greedy os group the longest. */
  ghost predicate LeftmostMain(s: string, h: MainHit)
  {
    MainSpans(s, h.start, h.ve, h.re, h.be, h.oe) &&
    (forall j: nat, ve: nat, re: nat, be: nat, oe: nat :: j < h.start ==> !MainSpans(s, j, ve, re, be, oe)) &&
    (forall ve: nat, re: nat, be: nat, oe: nat :: MainSpans(s, h.start, ve, re, be, oe) ==> h.be <= be && oe <= h.oe)
  }

  /** The match the regex engine reports for the extracted pattern: leftmost
      start, longest os group. */
  ghost predicate LeftmostFallback(s: string, h: FallbackHit)
  {
    FallbackSpans(s, h.start, h.ve, h.oe) &&
    (forall j: nat, ve: nat, oe: nat :: j < h.start ==> !FallbackSpans(s, j, ve, oe)) &&
    (forall ve: nat, oe: nat :: FallbackSpans(s, h.start, ve, oe) ==> oe <= h.oe)
  }

  /** The end of the longest run of class `cl` starting at `lo`. */
  function RunEnd(s: string, lo: nat, cl: Class): (hi: nat)
    requires lo <= |s|
    ensures lo <= hi <= |s| && Run(s, lo, hi, cl)
    ensures hi == |s| || !InClass(s[hi], cl)
    decreases |s| - lo
  {
    if lo == |s| || !InClass(s[lo], cl) then lo else RunEnd(s, lo + 1, cl)
  }

  /** A run that stops at `hi` is the longest run: `RunEnd` finds `hi`. */
  lemma {:induction false} RunEndAt(s: string, lo: nat, hi: nat, cl: Class)
    requires lo <= hi <= |s| && Run(s, lo, hi, cl)
    requires hi == |s| || !InClass(s[hi], cl)
    ensures RunEnd(s, lo, cl) == hi
    decreases hi - lo
  {
    if lo < hi {
      RunEndAt(s, lo + 1, hi, cl);
    }
  }

  /** The longest run from `lo` covers every run from `lo`. */
  lemma {:induction false} RunEndCovers(s: string, lo: nat, hi: nat, cl: Class)
    requires lo <= hi <= |s| && Run(s, lo, hi, cl)
    ensures hi <= RunEnd(s, lo, cl)
    decreases hi - lo
  {
    if lo < hi {
      RunEndCovers(s, lo + 1, hi, cl);
    }
  }

  /** The first index in `[lo, hi)` holding `c`. */
  function FirstIndexOf(s: string, lo: nat, hi: nat, c: char): (r: Option<nat>)
    requires lo <= hi <= |s|
    ensures r.Some? ==> lo <= r.value < hi && s[r.value] == c && forall k :: lo <= k < r.value ==> s[k] != c
    ensures r.None? ==> forall k :: lo <= k < hi ==> s[k] != c
    decreases hi - lo
  {
    if lo == hi then None
    else if s[lo] == c then Some(lo)
    else FirstIndexOf(s, lo + 1, hi, c)
  }

  /** The last index in `[lo, hi)` holding `c`. */
  function LastIndexOf(s: string, lo: nat, hi: nat, c: char): (r: Option<nat>)
    requires lo <= hi <= |s|
    ensures r.Some? ==> lo <= r.value < hi && s[r.value] == c && forall k :: r.value < k < hi ==> s[k] != c
    ensures r.None? ==> forall k :: lo <= k < hi ==> s[k] != c
    decreases hi - lo
  {
    if lo == hi then None
    else if s[hi - 1] == c then Some(hi - 1)
    else LastIndexOf(s, lo, hi - 1, c)
  }

  /** Where `\d.\d.\d+-` starting at `lo` puts its '-': the end of the digit run
      is forced, so there is at most one such place. */
  function VersionEnd(s: string, lo: nat): (r: Option<nat>)
    requires lo <= |s|
    ensures r.Some? ==> VersionSpan(s, lo, r.value) && r.value < |s| && s[r.value] == '-'
    ensures forall ve: nat :: VersionSpan(s, lo, ve) && ve < |s| && s[ve] == '-' ==> r == Some(ve)
  {
    if lo + 4 < |s| && InClass(s[lo], Digit) && InClass(s[lo + 1], Any) &&
       InClass(s[lo + 2], Digit) && InClass(s[lo + 3], Any)
    then
      var ve := RunEnd(s, lo + 4, Digit);
      if lo + 4 < ve < |s| && s[ve] == '-' then Some(ve) else None
    else
      None
  }

  /** The main pattern tried at one start position. */
  function MainAt(s: string, i: nat): (r: Option<MainHit>)
    requires i <= |s|
    ensures r.Some? ==> r.value.start == i && MainSpans(s, i, r.value.ve, r.value.re, r.value.be, r.value.oe)
  {
    if !PrefixAt(s, i) then None
    else match VersionEnd(s, i + |Prefix|)
      case None => None
      case Some(ve) =>
        var re := RunEnd(s, ve + 1, Word);
        if re == ve + 1 || re == |s| || s[re] != '+' then None
        else match BranchOs(s, re)
          case None => None
          case Some(ends) => Some(MainHit(i, ve, re, ends.0, ends.1))
  }

  /** `(?<branch>.+?)-(?<os>.+)-` after the '+' at `re`: the os group runs to
      the last '-' before the line ends, the branch group to the first '-'
      that leaves the os group non-empty. */
  function BranchOs(s: string, re: nat): (r: Option<(nat, nat)>)
    requires re < |s|
    ensures r.Some? ==> BranchOsSpans(s, re, r.value.0, r.value.1)
  {
    var lineEnd := RunEnd(s, re + 1, Any);
    match LastIndexOf(s, re + 1, lineEnd, '-')
    case None => None
    case Some(oe) =>
      if oe < re + 3 then None
      else match FirstIndexOf(s, re + 2, oe - 1, '-')
        case None => None
        case Some(be) => Some((be, oe))
  }

  /** Every way the branch and os groups can match after `re` is seen by
      `BranchOs`, which picks the shortest branch and the longest os. */
  lemma BranchOsComplete(s: string, re: nat, be: nat, oe: nat)
    requires BranchOsSpans(s, re, be, oe)
    ensures BranchOs(s, re).Some? && BranchOs(s, re).value.0 <= be && oe <= BranchOs(s, re).value.1
  {
    assert Run(s, re + 1, oe + 1, Any) by {
      forall k | re + 1 <= k < oe + 1 ensures InClass(s[k], Any) {
        if k < be {
          assert Run(s, re + 1, be, Any);
        } else if be < k < oe {
          assert Run(s, be + 1, oe, Any);
        }
      }
    }
    RunEndCovers(s, re + 1, oe + 1, Any);
    var lineEnd := RunEnd(s, re + 1, Any);
    var last := LastIndexOf(s, re + 1, lineEnd, '-');
    assert last.Some? && oe <= last.value;
    var first := FirstIndexOf(s, re + 2, last.value - 1, '-');
    assert first.Some? && first.value <= be;
  }

  /** Every main-pattern match at `i` is seen by `MainAt`, which picks the one
      with the shortest branch and the longest os. */
  lemma MainAtComplete(s: string, i: nat, ve: nat, re: nat, be: nat, oe: nat)
    requires MainSpans(s, i, ve, re, be, oe)
    ensures MainAt(s, i).Some? && MainAt(s, i).value.be <= be && oe <= MainAt(s, i).value.oe
  {
    assert VersionEnd(s, i + |Prefix|) == Some(ve);
    RunEndAt(s, ve + 1, re, Word);
    BranchOsComplete(s, re, be, oe);
  }

  /** The extracted pattern tried at one start position. */
  function FallbackAt(s: string, i: nat): (r: Option<FallbackHit>)
    requires i <= |s|
    ensures r.Some? ==> r.value.start == i && FallbackSpans(s, i, r.value.ve, r.value.oe)
  {
    if !PrefixAt(s, i) then None
    else match VersionEnd(s, i + |Prefix|)
      case None => None
      case Some(ve) =>
        var oe := RunEnd(s, ve + 1, Any);
        if oe == ve + 1 then None else Some(FallbackHit(i, ve, oe))
  }

  /** Every extracted-pattern match at `i` is seen by `FallbackAt`, which picks
      the longest os. */
  lemma FallbackAtComplete(s: string, i: nat, ve: nat, oe: nat)
    requires FallbackSpans(s, i, ve, oe)
    ensures FallbackAt(s, i).Some? && oe <= FallbackAt(s, i).value.oe
  {
    assert VersionEnd(s, i + |Prefix|) == Some(ve);
    RunEndCovers(s, ve + 1, oe, Any);
  }

  /** The first index at or after `from` holding a value. */
  function FirstSome<T>(hits: seq<Option<T>>, from: nat): (r: Option<nat>)
    requires from <= |hits|
    ensures r.Some? ==> from <= r.value < |hits| && hits[r.value].Some?
    ensures r.Some? ==> forall k :: from <= k < r.value ==> hits[k].None?
    ensures r.None? ==> forall k :: from <= k < |hits| ==> hits[k].None?
    decreases |hits| - from
  {
    if from == |hits| then None
    else if hits[from].Some? then Some(from)
    else FirstSome(hits, from + 1)
  }

  /** The main pattern tried at every start position, the end of the text
      included. */
  function MainHits(s: string): (r: seq<Option<MainHit>>)
    ensures |r| == |s| + 1
    ensures forall i :: 0 <= i <= |s| ==> r[i] == MainAt(s, i)
  {
    seq(|s| + 1, i requires 0 <= i <= |s| => MainAt(s, i))
  }

  /** The extracted pattern tried at every start position. */
  function FallbackHits(s: string): (r: seq<Option<FallbackHit>>)
    ensures |r| == |s| + 1
    ensures forall i :: 0 <= i <= |s| ==> r[i] == FallbackAt(s, i)
  {
    seq(|s| + 1, i requires 0 <= i <= |s| => FallbackAt(s, i))
  }

  /** The main match at the first start position where there is one. */
  function FindMain(s: string): Option<MainHit>
  {
    match FirstSome(MainHits(s), 0)
    case None => None
    case Some(k) => MainAt(s, k)
  }

  /** The extracted match at the first start position where there is one. */
  function FindFallback(s: string): Option<FallbackHit>
  {
    match FirstSome(FallbackHits(s), 0)
    case None => None
    case Some(k) => FallbackAt(s, k)
  }

  /** The search finds exactly the match the regex engine reports, and finds
      nothing exactly when the main pattern matches nowhere. */
  lemma FindMainLeftmost(s: string)
    ensures FindMain(s).None? <==> !HasMain(s)
    ensures FindMain(s).Some? ==> LeftmostMain(s, FindMain(s).value)
  {
    var hits := MainHits(s);
    match FirstSome(hits, 0)
    case Some(k) =>
      var h := MainAt(s, k).value;
      assert h.start == k;
      forall j: nat, ve: nat, re: nat, be: nat, oe: nat | j < k
        ensures !MainSpans(s, j, ve, re, be, oe)
      {
        if MainSpans(s, j, ve, re, be, oe) {
          assert hits[j].None?;
          MainAtComplete(s, j, ve, re, be, oe);
        }
      }
      forall ve: nat, re: nat, be: nat, oe: nat | MainSpans(s, k, ve, re, be, oe)
        ensures h.be <= be && oe <= h.oe
      {
        MainAtComplete(s, k, ve, re, be, oe);
      }
    case None =>
      if HasMain(s) {
        var i: nat, ve: nat, re: nat, be: nat, oe: nat :| MainSpans(s, i, ve, re, be, oe);
        assert hits[i].None?;
        MainAtComplete(s, i, ve, re, be, oe);
      }
  }

  /** The same for the extracted pattern. */
  lemma FindFallbackLeftmost(s: string)
    ensures FindFallback(s).None? <==> !HasFallback(s)
    ensures FindFallback(s).Some? ==> LeftmostFallback(s, FindFallback(s).value)
  {
    var hits := FallbackHits(s);
    match FirstSome(hits, 0)
    case Some(k) =>
      var h := FallbackAt(s, k).value;
      assert h.start == k;
      forall j: nat, ve: nat, oe: nat | j < k
        ensures !FallbackSpans(s, j, ve, oe)
      {
        if FallbackSpans(s, j, ve, oe) {
          assert hits[j].None?;
          FallbackAtComplete(s, j, ve, oe);
        }
      }
      forall ve: nat, oe: nat | FallbackSpans(s, k, ve, oe)
        ensures oe <= h.oe
      {
        FallbackAtComplete(s, k, ve, oe);
      }
    case None =>
      if HasFallback(s) {
        var i: nat, ve: nat, oe: nat :| FallbackSpans(s, i, ve, oe);
        assert hits[i].None?;
        FallbackAtComplete(s, i, ve, oe);
      }
  }

  /** The build read from a main-pattern match: the four captures, no link. */
  function MainCaptures(s: string, h: MainHit): BlenderVersion
    requires MainSpans(s, h.start, h.ve, h.re, h.be, h.oe)
  {
    BlenderVersion(s[h.start + |Prefix|..h.ve], s[h.ve + 1..h.re], s[h.re + 1..h.be], s[h.be + 1..h.oe], "")
  }

  /** The build read from an extracted-pattern match: release "stable", no
      branch, no link. */
  function FallbackCaptures(s: string, h: FallbackHit): BlenderVersion
    requires FallbackSpans(s, h.start, h.ve, h.oe)
  {
    BlenderVersion(s[h.start + |Prefix|..h.ve], "stable", "", s[h.ve + 1..h.oe], "")
  }

  /** `match_str`: the main pattern first; the extracted pattern only when the
      main one matches nowhere; `None` when neither matches. */
  function MatchStr(s: string): (r: Option<BlenderVersion>)
    ensures r.None? <==> !HasMain(s) && !HasFallback(s)
    ensures HasMain(s) ==> r.Some? && exists h :: LeftmostMain(s, h) && r.value == MainCaptures(s, h)
    ensures !HasMain(s) && HasFallback(s) ==>
      r.Some? && exists h :: LeftmostFallback(s, h) && r.value == FallbackCaptures(s, h)
  {
    FindMainLeftmost(s);
    FindFallbackLeftmost(s);
    match FindMain(s)
    case Some(h) => Some(MainCaptures(s, h))
    case None =>
      match FindFallback(s)
      case Some(h) => Some(FallbackCaptures(s, h))
      case None => None
  }

  /** Regex semantics leave no choice: there is one reported main match. */
  lemma LeftmostMainUnique(s: string, h1: MainHit, h2: MainHit)
    requires LeftmostMain(s, h1) && LeftmostMain(s, h2)
    ensures h1 == h2
  {
    assert h1.start == h2.start;
    var i := h1.start;
    assert VersionEnd(s, i + |Prefix|) == Some(h1.ve) == Some(h2.ve);
    RunEndAt(s, h1.ve + 1, h1.re, Word);
    RunEndAt(s, h2.ve + 1, h2.re, Word);
  }

  /** Regex semantics leave no choice: there is one reported extracted match. */
  lemma LeftmostFallbackUnique(s: string, h1: FallbackHit, h2: FallbackHit)
    requires LeftmostFallback(s, h1) && LeftmostFallback(s, h2)
    ensures h1 == h2
  {
    assert h1.start == h2.start;
    assert VersionEnd(s, h1.start + |Prefix|) == Some(h1.ve) == Some(h2.ve);
  }

  /** `t` occurs in `s`. */
  ghost predicate IsSubstring(t: string, s: string)
  {
    exists i: nat :: i <= |s| && t <= s[i..]
  }

  /** A captured version has the shape `\d.\d.\d+`. */
  predicate VersionShape(v: string)
  {
    VersionSpan(v, 0, |v|)
  }

  /** A captured release is a non-empty run of word characters. */
  predicate WordString(r: string)
  {
    |r| > 0 && Run(r, 0, |r|, Word)
  }

  /** A captured branch or os is a non-empty run of non-line-feed characters. */
  predicate LineString(r: string)
  {
    |r| > 0 && Run(r, 0, |r|, Any)
  }

  /** The main match cut back into its literals and groups. */
  lemma MainPieces(s: string, i: nat, ve: nat, re: nat, be: nat, oe: nat)
    requires i + |Prefix| <= ve < re < be < oe < |s|
    requires s[i..i + |Prefix|] == Prefix && s[ve] == '-' && s[re] == '+' && s[be] == '-' && s[oe] == '-'
    ensures s[i..oe + 1] == Prefix + s[i + |Prefix|..ve] + "-" + s[ve + 1..re] + "+" + s[re + 1..be] + "-" + s[be + 1..oe] + "-"
  {
    var v, r, b, o := s[i + |Prefix|..ve], s[ve + 1..re], s[re + 1..be], s[be + 1..oe];
    Extend(s, i, i + |Prefix|, ve, Prefix, v);
    Extend(s, i, ve, ve + 1, Prefix + v, "-");
    Extend(s, i, ve + 1, re, Prefix + v + "-", r);
    Extend(s, i, re, re + 1, Prefix + v + "-" + r, "+");
    Extend(s, i, re + 1, be, Prefix + v + "-" + r + "+", b);
    Extend(s, i, be, be + 1, Prefix + v + "-" + r + "+" + b, "-");
    Extend(s, i, be + 1, oe, Prefix + v + "-" + r + "+" + b + "-", o);
    Extend(s, i, oe, oe + 1, Prefix + v + "-" + r + "+" + b + "-" + o, "-");
  }

  /** Every slice of `s` occurs in `s`. */
  lemma SliceOccurs(s: string, i: nat, j: nat)
    requires i <= j <= |s|
    ensures IsSubstring(s[i..j], s)
  {
    assert s[i..j] <= s[i..];
  }

  /** A slice that starts with `x` and continues with `piece`. */
  lemma Extend(s: string, i: nat, b: nat, c: nat, x: string, piece: string)
    requires i <= b <= c <= |s| && s[i..b] == x && s[b..c] == piece
    ensures s[i..c] == x + piece
  {
    assert s[i..c] == s[i..b] + s[b..c];
  }

  /** A version group, cut out of the text, has the version shape. */
  lemma VersionCapture(s: string, lo: nat, hi: nat)
    requires VersionSpan(s, lo, hi)
    ensures VersionShape(s[lo..hi])
  {
    var v := s[lo..hi];
    forall k | 4 <= k < |v| ensures InClass(v[k], Digit) {
      assert v[k] == s[lo + k];
    }
  }

  /** A run, cut out of the text, is a run of the same class. */
  lemma WordCapture(s: string, lo: nat, hi: nat, cl: Class)
    requires lo < hi <= |s| && Run(s, lo, hi, cl)
    ensures |s[lo..hi]| > 0 && Run(s[lo..hi], 0, hi - lo, cl)
  {
    var v := s[lo..hi];
    forall k | 0 <= k < |v| ensures InClass(v[k], cl) {
      assert v[k] == s[lo + k];
    }
  }

  /** What a main-pattern result looks like: its fields, put back between the
      pattern's literals, occur in the input. */
  lemma MainResultShape(s: string, h: MainHit)
    requires MainSpans(s, h.start, h.ve, h.re, h.be, h.oe)
    ensures var v := MainCaptures(s, h);
      IsSubstring(Prefix + v.version + "-" + v.release + "+" + v.branch + "-" + v.os + "-", s) &&
      VersionShape(v.version) && WordString(v.release) && LineString(v.branch) && LineString(v.os) &&
      v.link == ""
  {
    var v := MainCaptures(s, h);
    assert v == BlenderVersion(s[h.start + |Prefix|..h.ve], s[h.ve + 1..h.re], s[h.re + 1..h.be], s[h.be + 1..h.oe], "");
    MainOccurs(s, h);
    MainGroups(s, h);
  }

  /** The four groups of a main match, cut out of the text, have their shapes. */
  lemma MainGroups(s: string, h: MainHit)
    requires MainSpans(s, h.start, h.ve, h.re, h.be, h.oe)
    ensures VersionShape(s[h.start + |Prefix|..h.ve]) && WordString(s[h.ve + 1..h.re])
    ensures LineString(s[h.re + 1..h.be]) && LineString(s[h.be + 1..h.oe])
  {
    VersionCapture(s, h.start + |Prefix|, h.ve);
    WordCapture(s, h.ve + 1, h.re, Word);
    WordCapture(s, h.re + 1, h.be, Any);
    WordCapture(s, h.be + 1, h.oe, Any);
  }

  lemma MainOccurs(s: string, h: MainHit)
    requires MainSpans(s, h.start, h.ve, h.re, h.be, h.oe)
    ensures IsSubstring(Prefix + s[h.start + |Prefix|..h.ve] + "-" + s[h.ve + 1..h.re] + "+" +
                        s[h.re + 1..h.be] + "-" + s[h.be + 1..h.oe] + "-", s)
  {
    MainPiecesOccur(s, h.start, h.ve, h.re, h.be, h.oe);
  }

  lemma MainPiecesOccur(s: string, i: nat, ve: nat, re: nat, be: nat, oe: nat)
    requires i + |Prefix| <= ve < re < be < oe < |s|
    requires s[i..i + |Prefix|] == Prefix && s[ve] == '-' && s[re] == '+' && s[be] == '-' && s[oe] == '-'
    ensures IsSubstring(Prefix + s[i + |Prefix|..ve] + "-" + s[ve + 1..re] + "+" + s[re + 1..be] + "-" + s[be + 1..oe] + "-", s)
  {
    MainPieces(s, i, ve, re, be, oe);
    SliceOccurs(s, i, oe + 1);
  }

  /** What an extracted-pattern result looks like. */
  lemma FallbackResultShape(s: string, h: FallbackHit)
    requires FallbackSpans(s, h.start, h.ve, h.oe)
    ensures var v := FallbackCaptures(s, h);
      IsSubstring(Prefix + v.version + "-" + v.os, s) &&
      VersionShape(v.version) && LineString(v.os) &&
      v.release == "stable" && v.branch == "" && v.link == ""
  {
    var v := FallbackCaptures(s, h);
    assert v == BlenderVersion(s[h.start + |Prefix|..h.ve], "stable", "", s[h.ve + 1..h.oe], "");
    FallbackOccurs(s, h);
    VersionCapture(s, h.start + |Prefix|, h.ve);
    WordCapture(s, h.ve + 1, h.oe, Any);
  }

  lemma FallbackOccurs(s: string, h: FallbackHit)
    requires FallbackSpans(s, h.start, h.ve, h.oe)
    ensures IsSubstring(Prefix + s[h.start + |Prefix|..h.ve] + "-" + s[h.ve + 1..h.oe], s)
  {
    FallbackPiecesOccur(s, h.start, h.ve, h.oe);
  }

  lemma FallbackPiecesOccur(s: string, i: nat, ve: nat, oe: nat)
    requires i + |Prefix| <= ve < oe <= |s|
    requires s[i..i + |Prefix|] == Prefix && s[ve] == '-'
    ensures IsSubstring(Prefix + s[i + |Prefix|..ve] + "-" + s[ve + 1..oe], s)
  {
    var v, o := s[i + |Prefix|..ve], s[ve + 1..oe];
    Extend(s, i, i + |Prefix|, ve, Prefix, v);
    Extend(s, i, ve, ve + 1, Prefix + v, "-");
    Extend(s, i, ve + 1, oe, Prefix + v + "-", o);
    SliceOccurs(s, i, oe);
  }

  /** When the main pattern matches, `match_str` returns its captures: a build
      with a non-empty branch whose pieces occur in the input in pattern order. */
  lemma MatchStrMain(s: string)
    requires HasMain(s)
    ensures var r := MatchStr(s);
      r.Some? && |r.value.branch| > 0 &&
      IsSubstring(Prefix + r.value.version + "-" + r.value.release + "+" + r.value.branch + "-" + r.value.os + "-", s) &&
      VersionShape(r.value.version) && WordString(r.value.release) && LineString(r.value.os) && r.value.link == ""
  {
    FindMainLeftmost(s);
    MainResultShape(s, FindMain(s).value);
  }

  /** When only the extracted pattern matches, `match_str` returns a stable build
      with empty branch and link. */
  lemma MatchStrFallback(s: string)
    requires !HasMain(s) && HasFallback(s)
    ensures var r := MatchStr(s);
      r.Some? && r.value.release == "stable" && r.value.branch == "" && r.value.link == "" &&
      IsSubstring(Prefix + r.value.version + "-" + r.value.os, s) &&
      VersionShape(r.value.version) && LineString(r.value.os)
  {
    FindMainLeftmost(s);
    FindFallbackLeftmost(s);
    FallbackResultShape(s, FindFallback(s).value);
  }
}
