/** `parse_downloaded` (src/tui/app/widgets/files/utils.rs): turn the directories
    found in the download folder into build descriptors by matching the last
    component of each path. */
module FilesUtils {
  import opened Types
  import opened BlenderMatcher

  /** The build named by one directory: nothing for a path without components,
      otherwise `match_str` of its last component. */
  function ParseOne(p: Path): (r: Option<BlenderVersion>)
    ensures p == [] ==> r.None?
    ensures p != [] ==> r == MatchStr(p[|p| - 1])
    ensures p != [] ==> (r.None? <==> !HasMain(p[|p| - 1]) && !HasFallback(p[|p| - 1]))
  {
    if p == [] then None else MatchStr(p[|p| - 1])
  }

  /** `flatten().collect()`: the present values, in order. */
  function Flatten(opts: seq<Option<BlenderVersion>>): (r: seq<BlenderVersion>)
    ensures |r| <= |opts|
    ensures forall v :: v in r <==> Some(v) in opts
  {
    if opts == [] then []
    else
      assert opts == [opts[0]] + opts[1..];
      match opts[0]
      case Some(v) => [v] + Flatten(opts[1..])
      case None => Flatten(opts[1..])
  }

  /** Flattening two lists one after the other gives the two results one after
      the other. */
  lemma {:induction false} FlattenAppend(a: seq<Option<BlenderVersion>>, b: seq<Option<BlenderVersion>>)
    ensures Flatten(a + b) == Flatten(a) + Flatten(b)
  {
    if a == [] {
      assert a + b == b;
    } else {
      assert (a + b)[0] == a[0];
      assert (a + b)[1..] == a[1..] + b;
      FlattenAppend(a[1..], b);
    }
  }

  /** `ParseOne` applied to every path, in order. */
  function ParseAll(paths: seq<Path>): (r: seq<Option<BlenderVersion>>)
    ensures |r| == |paths|
    ensures forall i :: 0 <= i < |paths| ==> r[i] == ParseOne(paths[i])
  {
    if paths == [] then [] else [ParseOne(paths[0])] + ParseAll(paths[1..])
  }

  /** `map(...).flatten().collect()`: the builds of the paths that name one, in
      the order of the paths. */
  function ParseDownloaded(paths: seq<Path>): (r: seq<BlenderVersion>)
    ensures |r| <= |paths|
    ensures forall v :: v in r <==> exists i :: 0 <= i < |paths| && ParseOne(paths[i]) == Some(v)
  {
    var opts := ParseAll(paths);
    assert forall v :: Some(v) in opts <==> exists i :: 0 <= i < |paths| && ParseOne(paths[i]) == Some(v);
    Flatten(opts)
  }

  /** Scanning two lists of paths one after the other gives the two results one
      after the other: the input order is kept. */
  lemma ParseDownloadedAppend(a: seq<Path>, b: seq<Path>)
    ensures ParseDownloaded(a + b) == ParseDownloaded(a) + ParseDownloaded(b)
  {
    ParseAllAppend(a, b);
    FlattenAppend(ParseAll(a), ParseAll(b));
  }

  lemma {:induction false} ParseAllAppend(a: seq<Path>, b: seq<Path>)
    ensures ParseAll(a + b) == ParseAll(a) + ParseAll(b)
  {
    if a == [] {
      assert a + b == b;
    } else {
      assert (a + b)[0] == a[0];
      assert (a + b)[1..] == a[1..] + b;
      ParseAllAppend(a[1..], b);
    }
  }

  /** One path contributes exactly its build when its last component matches
      and nothing otherwise; a path without components contributes nothing. */
  lemma ParseDownloadedSingle(p: Path)
    ensures ParseOne(p).Some? ==> ParseDownloaded([p]) == [ParseOne(p).value]
    ensures ParseOne(p).None? ==> ParseDownloaded([p]) == []
    ensures p == [] ==> ParseDownloaded([p]) == []
  {
    assert ParseAll([p]) == [ParseOne(p)];
    assert ParseAll([p])[1..] == [];
  }
}
