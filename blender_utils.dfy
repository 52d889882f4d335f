/** `filter_latest` (src/blender_utils.rs): keep one build per (version, release),
    scanning the list from its end, skipping every build whose version already has
    a kept stable build, and return the kept builds sorted by version string,
    highest first. */
module BlenderUtils {
  import opened Types

  /** Lexicographic order on strings by character code, the order `String`
      comparison uses. */
  predicate StrLe(a: string, b: string)
    decreases |a|
  {
    a == [] || (b != [] && (a[0] < b[0] || (a[0] == b[0] && StrLe(a[1..], b[1..]))))
  }

  lemma {:induction false} StrLeTotal(a: string, b: string)
    ensures StrLe(a, b) || StrLe(b, a)
    decreases |a|
  {
    if a != [] && b != [] && a[0] == b[0] {
      StrLeTotal(a[1..], b[1..]);
    }
  }

  lemma {:induction false} StrLeTrans(a: string, b: string, c: string)
    requires StrLe(a, b) && StrLe(b, c)
    ensures StrLe(a, c)
    decreases |a|
  {
    if a != [] && a[0] == b[0] && b[0] == c[0] {
      StrLeTrans(a[1..], b[1..], c[1..]);
    }
  }

  /** Sorted by version, highest first. */
  predicate SortedDesc(s: seq<BlenderVersion>)
  {
    forall i, j :: 0 <= i < j < |s| ==> StrLe(s[j].version, s[i].version)
  }

  predicate Distinct<T(==)>(s: seq<T>)
  {
    forall i, j :: 0 <= i < j < |s| ==> s[i] != s[j]
  }

  /** Put `x` before the first build whose version is not above it. */
  function InsertDesc(x: BlenderVersion, s: seq<BlenderVersion>): (r: seq<BlenderVersion>)
    requires SortedDesc(s)
    ensures SortedDesc(r)
    ensures multiset(r) == multiset(s) + multiset{x}
    ensures Distinct(s) && x !in s ==> Distinct(r)
  {
    if s == [] then [x]
    else if StrLe(s[0].version, x.version) then
      InsertDescHead(x, s);
      [x] + s
    else
      var rest := InsertDesc(x, s[1..]);
      InsertDescCons(x, s, rest);
      ConsMultiset(x, s, rest);
      [s[0]] + rest
  }

  lemma InsertDescHead(x: BlenderVersion, s: seq<BlenderVersion>)
    requires SortedDesc(s) && s != [] && StrLe(s[0].version, x.version)
    ensures SortedDesc([x] + s)
    ensures Distinct(s) && x !in s ==> Distinct([x] + s)
  {
    var r := [x] + s;
    forall i, j | 0 <= i < j < |r| ensures StrLe(r[j].version, r[i].version) {
      if i == 0 {
        if j > 1 {
          StrLeTrans(s[j - 1].version, s[0].version, x.version);
        }
      } else {
        assert r[i] == s[i - 1] && r[j] == s[j - 1];
      }
    }
  }

  lemma InsertDescCons(x: BlenderVersion, s: seq<BlenderVersion>, rest: seq<BlenderVersion>)
    requires SortedDesc(s) && s != [] && !StrLe(s[0].version, x.version)
    requires SortedDesc(rest) && multiset(rest) == multiset(s[1..]) + multiset{x}
    requires Distinct(s) && x !in s ==> Distinct(rest)
    ensures SortedDesc([s[0]] + rest)
    ensures Distinct(s) && x !in s ==> Distinct([s[0]] + rest)
  {
    StrLeTotal(s[0].version, x.version);
    var r := [s[0]] + rest;
    forall i, j | 0 <= i < j < |r| ensures StrLe(r[j].version, r[i].version) {
      if i == 0 {
        var y := rest[j - 1];
        assert y in multiset(rest);
        if y != x {
          assert y in s[1..];
        }
      } else {
        assert r[i] == rest[i - 1] && r[j] == rest[j - 1];
      }
    }
    if Distinct(s) && x !in s {
      forall j | 0 < j < |r| ensures r[0] != r[j] {
        var y := rest[j - 1];
        assert y in multiset(rest);
        if y != x {
          assert y in s[1..];
        }
      }
    }
  }

  /** Putting the head back in front of the rest adds it back to the multiset. */
  lemma ConsMultiset(x: BlenderVersion, s: seq<BlenderVersion>, rest: seq<BlenderVersion>)
    requires s != [] && multiset(rest) == multiset(s[1..]) + multiset{x}
    ensures multiset([s[0]] + rest) == multiset(s) + multiset{x}
  {
    assert s == [s[0]] + s[1..];
  }

  /** `sort_by(|a, b| b.version.partial_cmp(&a.version))`: a permutation of the
      input, sorted by version, highest first. */
  function SortDesc(s: seq<BlenderVersion>): (r: seq<BlenderVersion>)
    ensures SortedDesc(r)
    ensures multiset(r) == multiset(s)
    ensures Distinct(s) ==> Distinct(r)
  {
    if s == [] then []
    else
      var rest := SortDesc(s[1..]);
      assert s == [s[0]] + s[1..];
      DistinctTail(s, rest);
      InsertDesc(s[0], rest)
  }

  /** The head of a list without duplicates is not among the rest of it. */
  lemma DistinctTail(s: seq<BlenderVersion>, rest: seq<BlenderVersion>)
    requires s != [] && multiset(rest) == multiset(s[1..])
    ensures Distinct(s) ==> Distinct(s[1..]) && s[0] !in rest
  {
    if Distinct(s) {
      forall i, j | 0 <= i < j < |s| - 1 ensures s[1..][i] != s[1..][j] {
        assert s[1..][i] == s[i + 1] && s[1..][j] == s[j + 1];
      }
      forall k | 0 <= k < |s| - 1 ensures s[1..][k] != s[0] {
        assert s[1..][k] == s[k + 1];
      }
      assert s[0] !in multiset(s[1..]);
    }
  }

  /** A later build `later` hides an earlier build of the same version that has
      the same release, or any earlier build of that version once `later` is
      stable. */
  predicate Shadows(later: BlenderVersion, earlier: BlenderVersion)
  {
    later.version == earlier.version && (later.release == earlier.release || later.release == "stable")
  }

  /** The build at index `j` is kept: nothing after it shadows it. */
  predicate KeptAt(vs: seq<BlenderVersion>, j: int)
  {
    0 <= j < |vs| && forall t :: j < t < |vs| ==> !Shadows(vs[t], vs[j])
  }

  /** `v` is one of the kept builds of `vs`. */
  predicate Kept(vs: seq<BlenderVersion>, v: BlenderVersion)
  {
    exists j :: 0 <= j < |vs| && KeptAt(vs, j) && vs[j] == v
  }

  /** One iteration of the scan over the reversed list. */
  function Step(m: map<(string, string), BlenderVersion>, v: BlenderVersion): map<(string, string), BlenderVersion>
  {
    if (v.version, "stable") in m then m
    else if BuildKey(v) in m then m
    else m[BuildKey(v) := v]
  }

  /** The map after scanning `vs` from its last element to its first. */
  function Latest(vs: seq<BlenderVersion>): map<(string, string), BlenderVersion>
  {
    if vs == [] then map[] else Step(Latest(vs[1..]), vs[0])
  }

  /** Whatever the scan meets is remembered: the build's own key, or the
      stable key of its version. */
  lemma {:induction false} Covered(vs: seq<BlenderVersion>, t: nat)
    requires t < |vs|
    ensures BuildKey(vs[t]) in Latest(vs) || (vs[t].version, "stable") in Latest(vs)
  {
    if t > 0 {
      Covered(vs[1..], t - 1);
    }
  }

  /** The scan keeps exactly the builds nothing later shadows, each under its
      own key. */
  lemma {:induction false} LatestSpec(vs: seq<BlenderVersion>)
    ensures forall k :: k in Latest(vs) ==>
      exists j :: KeptAt(vs, j) && vs[j] == Latest(vs)[k] && BuildKey(vs[j]) == k
    ensures forall j :: KeptAt(vs, j) ==> BuildKey(vs[j]) in Latest(vs) && Latest(vs)[BuildKey(vs[j])] == vs[j]
  {
    if vs != [] {
      var x, tail := vs[0], vs[1..];
      var m, m' := Latest(vs), Latest(tail);
      LatestSpec(tail);
      assert forall j :: 1 <= j < |vs| ==> (KeptAt(vs, j) <==> KeptAt(tail, j - 1)) by {
        forall j | 1 <= j < |vs| ensures KeptAt(vs, j) <==> KeptAt(tail, j - 1) {
          assert forall t :: j - 1 < t < |tail| ==> tail[t] == vs[t + 1];
          if !KeptAt(tail, j - 1) {
            var t :| j - 1 < t < |tail| && Shadows(tail[t], tail[j - 1]);
            assert Shadows(vs[t + 1], vs[j]);
          }
        }
      }
      if (x.version, "stable") in m' || BuildKey(x) in m' {
        assert m == m';
        var k := if (x.version, "stable") in m' then (x.version, "stable") else BuildKey(x);
        var j' :| KeptAt(tail, j') && tail[j'] == m'[k] && BuildKey(tail[j']) == k;
        assert Shadows(vs[j' + 1], x);
        assert !KeptAt(vs, 0);
        forall k | k in m ensures exists j :: KeptAt(vs, j) && vs[j] == m[k] && BuildKey(vs[j]) == k {
          var j'' :| KeptAt(tail, j'') && tail[j''] == m'[k] && BuildKey(tail[j'']) == k;
          assert KeptAt(vs, j'' + 1) && vs[j'' + 1] == tail[j''];
        }
      } else {
        assert m == m'[BuildKey(x) := x];
        forall t | 0 < t < |vs| ensures !Shadows(vs[t], x) {
          Covered(tail, t - 1);
          assert tail[t - 1] == vs[t];
        }
        assert KeptAt(vs, 0);
        forall k | k in m ensures exists j :: KeptAt(vs, j) && vs[j] == m[k] && BuildKey(vs[j]) == k {
          if k != BuildKey(x) {
            var j'' :| KeptAt(tail, j'') && tail[j''] == m'[k] && BuildKey(tail[j'']) == k;
            assert KeptAt(vs, j'' + 1) && vs[j'' + 1] == tail[j''];
          }
        }
      }
      forall j | KeptAt(vs, j) ensures BuildKey(vs[j]) in m && m[BuildKey(vs[j])] == vs[j] {
        if j > 0 {
          assert KeptAt(tail, j - 1) && tail[j - 1] == vs[j];
        }
      }
    }
  }

  /** The scan loop of `filter_latest`: walk the list from its end, skip a build
      whose version already has a stable entry or whose own key is taken, and
      record every other build under its key. */
  method ScanLatest(versions: seq<BlenderVersion>) returns (result: map<(string, string), BlenderVersion>)
    ensures result == Latest(versions)
  {
    result := map[];
    var i := |versions|;
    while i > 0
      invariant 0 <= i <= |versions|
      invariant result == Latest(versions[i..])
    {
      i := i - 1;
      assert versions[i..][1..] == versions[i + 1..];
      var version := versions[i];
      var key := BuildKey(version);
      if (version.version, "stable") in result {
        continue;
      } else if key in result {
        continue;
      } else {
        result := result[key := version];
      }
    }
    assert versions[0..] == versions;
  }

  /** Every entry is stored under the key of its build, as the scan stores them. */
  predicate Keyed(m: map<(string, string), BlenderVersion>)
  {
    forall k :: k in m ==> BuildKey(m[k]) == k
  }

  /** `into_values`: every value of the map, in an order the hash map chooses;
      when entries are keyed by their builds, no value appears twice. */
  method IntoValues(m: map<(string, string), BlenderVersion>) returns (values: seq<BlenderVersion>)
    ensures forall t :: 0 <= t < |values| ==> values[t] in m.Values
    ensures forall k :: k in m ==> m[k] in values
    ensures Keyed(m) ==> Distinct(values)
  {
    values := [];
    var keys := m.Keys;
    ghost var taken: seq<(string, string)> := [];
    while keys != {}
      invariant keys <= m.Keys
      invariant |taken| == |values|
      invariant forall t :: 0 <= t < |values| ==> taken[t] in m && m[taken[t]] == values[t] && taken[t] !in keys
      invariant forall k :: k in m && k !in keys ==> m[k] in values
      invariant forall i, j :: 0 <= i < j < |taken| ==> taken[i] != taken[j]
      invariant Keyed(m) ==> Distinct(values)
      decreases keys
    {
      var k :| k in keys;
      values := values + [m[k]];
      taken := taken + [k];
      keys := keys - {k};
    }
  }

  /** The scan stores every build under its own key. */
  lemma LatestKeyed(vs: seq<BlenderVersion>)
    ensures Keyed(Latest(vs))
  {
    LatestSpec(vs);
  }

  /** A value of the scan's map is a kept build, stored under its own key. */
  lemma LatestValue(vs: seq<BlenderVersion>, v: BlenderVersion)
    requires v in Latest(vs).Values
    ensures BuildKey(v) in Latest(vs) && Latest(vs)[BuildKey(v)] == v
    ensures Kept(vs, v)
  {
    LatestSpec(vs);
    var k :| k in Latest(vs) && Latest(vs)[k] == v;
    var j :| KeptAt(vs, j) && vs[j] == Latest(vs)[k] && BuildKey(vs[j]) == k;
    assert KeptAt(vs, j) && vs[j] == v;
  }

  /** Every value listed from the scan's map is a kept build, and distinct
      values have distinct keys. */
  lemma LatestValuesKeyed(vs: seq<BlenderVersion>, values: seq<BlenderVersion>)
    requires forall t :: 0 <= t < |values| ==> values[t] in Latest(vs).Values
    requires Distinct(values)
    ensures forall i, j :: 0 <= i < j < |values| ==> BuildKey(values[i]) != BuildKey(values[j])
    ensures forall t :: 0 <= t < |values| ==> Kept(vs, values[t])
  {
    forall t | 0 <= t < |values|
      ensures BuildKey(values[t]) in Latest(vs) && Latest(vs)[BuildKey(values[t])] == values[t]
    {
      LatestValue(vs, values[t]);
    }
    forall t | 0 <= t < |values| ensures Kept(vs, values[t]) {
      LatestValue(vs, values[t]);
    }
  }

  /** `filter_latest`: de-duplicate by (version, release) from the end of the
      list, suppressing builds whose version has a kept stable build, then sort
      by version, highest first. The order of builds with equal versions is
      that of the hash map's values, which is unspecified. */
  method FilterLatest(versions: seq<BlenderVersion>) returns (out: seq<BlenderVersion>)
    ensures SortedDesc(out)
    ensures forall i, j :: 0 <= i < j < |out| ==> BuildKey(out[i]) != BuildKey(out[j])
    ensures forall v :: v in out <==> Kept(versions, v)
  {
    var result := ScanLatest(versions);
    LatestKeyed(versions);
    var values := IntoValues(result);
    LatestValuesKeyed(versions, values);
    out := SortDesc(values);
    SortedKeys(values, out);
    LatestSpec(versions);
  }

  /** Sorting keeps the members, and with them distinct keys. */
  lemma SortedKeys(values: seq<BlenderVersion>, out: seq<BlenderVersion>)
    requires multiset(out) == multiset(values)
    requires forall i, j :: 0 <= i < j < |values| ==> BuildKey(values[i]) != BuildKey(values[j])
    ensures forall v :: v in out <==> v in values
    ensures forall i, j :: 0 <= i < j < |out| ==> BuildKey(out[i]) != BuildKey(out[j])
  {
    forall v ensures v in out <==> v in values {
      assert v in out <==> v in multiset(out);
      assert v in values <==> v in multiset(values);
    }
    forall i, j | 0 <= i < j < |out| ensures BuildKey(out[i]) != BuildKey(out[j]) {
      assert out[i] in out && out[j] in out;
      var a :| 0 <= a < |values| && values[a] == out[i];
      var b :| 0 <= b < |values| && values[b] == out[j];
      if a == b {
        DistinctCount(values, a);
        TwiceCount(out, i, j);
        assert false;
      }
    }
  }

  lemma TwiceCount(s: seq<BlenderVersion>, i: nat, j: nat)
    requires i < j < |s| && s[i] == s[j]
    ensures multiset(s)[s[i]] >= 2
  {
    assert s == s[..i] + [s[i]] + s[i + 1..j] + [s[j]] + s[j + 1..];
  }

  /** In a list with pairwise different elements, each element occurs once. */
  lemma {:induction false} DistinctCount(s: seq<BlenderVersion>, a: nat)
    requires a < |s|
    requires forall t :: 0 <= t < |s| && t != a ==> s[t] != s[a]
    ensures multiset(s)[s[a]] == 1
  {
    var x := s[a];
    assert s == s[..a] + [x] + s[a + 1..];
    assert x !in s[..a] by {
      forall t | 0 <= t < a ensures s[..a][t] != x { }
    }
    assert x !in s[a + 1..] by {
      forall t | a < t < |s| ensures s[t] != x { }
    }
  }
}
