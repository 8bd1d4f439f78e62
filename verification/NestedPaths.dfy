/** Path containment and the removal of nested paths (cmd/partout/uninstall.go:419-445). */
module NestedPaths {

  /** A cleaned path: its components, none of them empty or ".". */
  datatype Path = Path(abs: bool, comps: seq<string>)

  function Join(dir: Path, name: string): Path { dir.(comps := dir.comps + [name]) }

  // ---- filepath.Rel ----

  /** How to get from one path to another: so many times "..", and then down; or not at all, when only
      one path is absolute or the way up is not known. */
  datatype Way = NoWay | Way(ups: nat, down: seq<string>)

  function Common(a: seq<string>, b: seq<string>): (c: nat)
    ensures c <= |a| && c <= |b| && a[..c] == b[..c]
    ensures c < |a| && c < |b| ==> a[c] != b[c]
  {
    if a == [] || b == [] || a[0] != b[0] then 0
    else
      var c := 1 + Common(a[1..], b[1..]);
      assert a[..c] == [a[0]] + a[1..][..c - 1] && b[..c] == [b[0]] + b[1..][..c - 1];
      c
  }

  function Rel(base: Path, target: Path): Way {
    if base == target then Way(0, [])
    else if base.abs != target.abs then NoWay
    else
      var c := Common(base.comps, target.comps);
      if c < |base.comps| && base.comps[c] == ".." then NoWay
      else Way(|base.comps| - c, target.comps[c..])
  }

  /** p is dir or inside it. */
  predicate Under(p: Path, dir: Path) {
    var w := Rel(dir, p);
    w.Way? && w.ups == 0 && (w.down == [] || w.down[0] != "..")
  }

  lemma UnderIsPrefix(p: Path, dir: Path)
    ensures Under(p, dir) <==>
            && p.abs == dir.abs && dir.comps <= p.comps
            && (|p.comps| > |dir.comps| ==> p.comps[|dir.comps|] != "..")
  {
    var c := Common(dir.comps, p.comps);
    if c == |dir.comps| {
      assert dir.comps[..c] == dir.comps;
      assert p.comps == p.comps[..c] + p.comps[c..];
    }
  }

  lemma UnderTransitive(p: Path, q: Path, r: Path)
    requires Under(p, q) && Under(q, r)
    ensures Under(p, r)
  {
    UnderIsPrefix(p, q);
    UnderIsPrefix(q, r);
    UnderIsPrefix(p, r);
  }

  lemma UnderReflexive(p: Path)
    ensures Under(p, p)
  {
  }

  lemma ProperlyUnder(p: Path, q: Path)
    requires Under(p, q) && p != q
    ensures |q.comps| < |p.comps| && !Under(q, p)
  {
    UnderIsPrefix(p, q);
    UnderIsPrefix(q, p);
  }

  // ---- dedupeNested ----

  ghost predicate Nested(paths: seq<Path>, i: nat)
    requires i < |paths|
  {
    exists j :: 0 <= j < |paths| && j != i && Under(paths[i], paths[j])
  }

  ghost function NestedIn(paths: seq<Path>): set<nat> {
    set i: nat | i < |paths| && Nested(paths, i)
  }

  /** The first n paths without those at the positions in gone. */
  ghost function Select(paths: seq<Path>, n: nat, gone: set<nat>): seq<Path>
    requires n <= |paths|
  {
    if n == 0 then []
    else if n - 1 in gone then Select(paths, n - 1, gone)
    else Select(paths, n - 1, gone) + [paths[n - 1]]
  }

  ghost function Outer(paths: seq<Path>): seq<Path> { Select(paths, |paths|, NestedIn(paths)) }

  method DedupeNested(paths: seq<Path>) returns (out: seq<Path>)
    ensures out == Outer(paths)
  {
    out := [];
    ghost var gone := NestedIn(paths);
    for i := 0 to |paths|
      invariant out == Select(paths, i, gone)
    {
      var nested := InsideAnother(paths, i);
      if !nested {
        out := out + [paths[i]];
      }
    }
  }

  /** The inner loop. */
  method InsideAnother(paths: seq<Path>, i: nat) returns (nested: bool)
    requires i < |paths|
    ensures nested <==> i in NestedIn(paths)
  {
    nested := false;
    for j := 0 to |paths|
      invariant !nested
      invariant forall k :: 0 <= k < j && k != i ==> !Under(paths[i], paths[k])
    {
      if i != j && Under(paths[i], paths[j]) {
        nested := true;
        break;
      }
    }
  }

  lemma {:induction false} SelectInOrder(paths: seq<Path>, n: nat, gone: set<nat>) returns (ks: seq<nat>)
    requires n <= |paths|
    ensures |ks| == |Select(paths, n, gone)|
    ensures forall m :: 0 <= m < |ks| ==> ks[m] < n && Select(paths, n, gone)[m] == paths[ks[m]] && ks[m] !in gone
    ensures forall l, m :: 0 <= l < m < |ks| ==> ks[l] < ks[m]
    ensures forall k: nat :: k < n && k !in gone ==> k in ks
  {
    if n == 0 {
      ks := [];
    } else {
      var before := SelectInOrder(paths, n - 1, gone);
      if n - 1 in gone {
        ks := before;
      } else {
        ks := before + [n - 1];
        forall k: nat | k < n && k !in gone ensures k in ks {
          if k < n - 1 { assert k in before; }
        }
      }
    }
  }

  /** The result is a part of the list, in its order: it holds exactly the paths inside no other one. */
  lemma InOrder(paths: seq<Path>) returns (ks: seq<nat>)
    ensures |ks| == |Outer(paths)|
    ensures forall m :: 0 <= m < |ks| ==> ks[m] < |paths| && Outer(paths)[m] == paths[ks[m]] && !Nested(paths, ks[m])
    ensures forall l, m :: 0 <= l < m < |ks| ==> ks[l] < ks[m]
    ensures forall k: nat :: k < |paths| && !Nested(paths, k) ==> k in ks
  {
    ks := SelectInOrder(paths, |paths|, NestedIn(paths));
    forall m | 0 <= m < |ks| ensures !Nested(paths, ks[m]) {
      assert ks[m] !in NestedIn(paths);
    }
  }

  lemma Antichain(paths: seq<Path>)
    ensures var out := Outer(paths);
            forall l, m :: 0 <= l < |out| && 0 <= m < |out| && l != m ==> !Under(out[l], out[m])
  {
    var out := Outer(paths);
    var ks := InOrder(paths);
    forall l, m | 0 <= l < |out| && 0 <= m < |out| && l != m ensures !Under(out[l], out[m]) {
      assert ks[l] != ks[m];
    }
  }

  lemma InOuter(paths: seq<Path>, q: Path)
    ensures q in Outer(paths) <==> exists k :: 0 <= k < |paths| && paths[k] == q && !Nested(paths, k)
  {
    var out := Outer(paths);
    var ks := InOrder(paths);
    if q in out {
      var m :| 0 <= m < |out| && out[m] == q;
      assert paths[ks[m]] == q;
    }
    if k :| 0 <= k < |paths| && paths[k] == q && !Nested(paths, k) {
      var m :| 0 <= m < |ks| && ks[m] == k;
      assert out[m] == q;
    }
  }

  // ---- when every path is still covered ----

  ghost predicate Covered(p: Path, out: seq<Path>) {
    exists q :: q in out && Under(p, q)
  }

  /** Path i lies in no other path but copies of itself. */
  ghost predicate Top(paths: seq<Path>, i: nat)
    requires i < |paths|
  {
    forall j :: 0 <= j < |paths| && Under(paths[i], paths[j]) ==> paths[j] == paths[i]
  }

  ghost predicate NoTopTwice(paths: seq<Path>) {
    forall i, j :: 0 <= i < |paths| && 0 <= j < |paths| && i != j && Top(paths, i) ==> paths[i] != paths[j]
  }

  lemma {:induction false} TopAbove(paths: seq<Path>, i: nat) returns (t: nat)
    requires i < |paths|
    ensures t < |paths| && Top(paths, t) && Under(paths[i], paths[t])
    decreases |paths[i].comps|
  {
    if Top(paths, i) {
      t := i;
      UnderReflexive(paths[i]);
    } else {
      var j :| 0 <= j < |paths| && Under(paths[i], paths[j]) && paths[j] != paths[i];
      ProperlyUnder(paths[i], paths[j]);
      t := TopAbove(paths, j);
      UnderTransitive(paths[i], paths[j], paths[t]);
    }
  }

  lemma TwinsAreNested(paths: seq<Path>, i: nat, j: nat, k: nat)
    requires i < |paths| && j < |paths| && k < |paths| && i != j && paths[i] == paths[j] && Top(paths, i)
    ensures Under(paths[i], paths[k]) ==> Nested(paths, k)
  {
    UnderReflexive(paths[k]);
    var twin := if k == i then j else i;
    assert Under(paths[i], paths[k]) ==> paths[twin] == paths[k];
  }

  /** Every path of the list lies under a path of the result exactly when no outermost path occurs twice:
      of two equal outermost paths neither is returned. */
  lemma CoveredExactly(paths: seq<Path>)
    ensures (forall i :: 0 <= i < |paths| ==> Covered(paths[i], Outer(paths))) <==> NoTopTwice(paths)
  {
    var out := Outer(paths);
    if NoTopTwice(paths) {
      forall i | 0 <= i < |paths| ensures Covered(paths[i], out) {
        var t := TopAbove(paths, i);
        InOuter(paths, paths[t]);
      }
    }
    if i, j :| 0 <= i < |paths| && 0 <= j < |paths| && i != j && Top(paths, i) && paths[i] == paths[j] {
      forall q | q in out ensures !Under(paths[i], q) {
        InOuter(paths, q);
        var k :| 0 <= k < |paths| && paths[k] == q && !Nested(paths, k);
        TwinsAreNested(paths, i, j, k);
      }
    }
  }
}
