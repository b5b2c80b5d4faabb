/**
 * The update decision: the remote `(cycle, version, package)` triple is newer
 * than the local one when it is greater in lexicographic order, as `DoCheck`
 * decides it component by component.
 */
module Versions {

  /** An AIRAC cycle, its revision and the package number, as `std::stoi` read them. */
  datatype Version = Version(cycle: int, version: int, package: int)

  /** The comparison in `DoCheck`: a higher cycle, or the same cycle and a higher version, or both equal and a higher package. */
  predicate Newer(remote: Version, local: Version) {
    || remote.cycle > local.cycle
    || (remote.cycle == local.cycle && remote.version > local.version)
    || (remote.cycle == local.cycle && remote.version == local.version && remote.package > local.package)
  }

  /** The triple as a sequence of components, most significant first. */
  function Components(v: Version): (c: seq<int>)
    ensures |c| == 3
  {
    [v.cycle, v.version, v.package]
  }

  /** Lexicographic order on sequences of the same length: the first differing component decides. */
  predicate LexLess(a: seq<int>, b: seq<int>)
    requires |a| == |b|
  {
    |a| > 0 && (a[0] < b[0] || (a[0] == b[0] && LexLess(a[1..], b[1..])))
  }

  /** `Newer` is exactly the lexicographic order on the components. */
  lemma NewerIsLexicographic(remote: Version, local: Version)
    ensures Newer(remote, local) <==> LexLess(Components(local), Components(remote))
  {
    var a, b := Components(local), Components(remote);
    var a1, b1 := [local.version, local.package], [remote.version, remote.package];
    var a2, b2 := [local.package], [remote.package];
    assert a[1..] == a1 && b[1..] == b1 && a1[1..] == a2 && b1[1..] == b2;
    assert !LexLess(a2[1..], b2[1..]);
    assert LexLess(a2, b2) <==> local.package < remote.package;
    assert LexLess(a1, b1) <==> local.version < remote.version || (local.version == remote.version && LexLess(a2, b2));
  }

  /** No sequence is below itself. */
  lemma {:induction false} LexIrreflexive(a: seq<int>)
    ensures !LexLess(a, a)
    decreases |a|
  {
    if |a| > 0 {
      LexIrreflexive(a[1..]);
    }
  }

  /** Lexicographic order is transitive. */
  lemma {:induction false} LexTransitive(a: seq<int>, b: seq<int>, c: seq<int>)
    requires |a| == |b| == |c|
    requires LexLess(a, b) && LexLess(b, c)
    ensures LexLess(a, c)
    decreases |a|
  {
    if a[0] == b[0] && b[0] == c[0] {
      LexTransitive(a[1..], b[1..], c[1..]);
    }
  }

  /** Of two sequences of the same length, either they are equal or one is below the other. */
  lemma {:induction false} LexTotal(a: seq<int>, b: seq<int>)
    requires |a| == |b|
    ensures a == b || LexLess(a, b) || LexLess(b, a)
    decreases |a|
  {
    if |a| > 0 && a[0] == b[0] {
      LexTotal(a[1..], b[1..]);
      if a[1..] == b[1..] {
        assert a == [a[0]] + a[1..] && b == [b[0]] + b[1..];
      }
    }
  }

  /** Two different triples have different components. */
  lemma ComponentsInjective(u: Version, v: Version)
    requires Components(u) == Components(v)
    ensures u == v
  {
    assert Components(u)[0] == Components(v)[0];
    assert Components(u)[1] == Components(v)[1];
    assert Components(u)[2] == Components(v)[2];
  }

  /** A version is never newer than itself: an equal triple is up to date. */
  lemma NewerIrreflexive(v: Version)
    ensures !Newer(v, v)
  {
    NewerIsLexicographic(v, v);
    LexIrreflexive(Components(v));
  }

  /** If `a` is newer than `b`, `b` is not newer than `a`. */
  lemma NewerAsymmetric(a: Version, b: Version)
    requires Newer(a, b)
    ensures !Newer(b, a)
  {
    NewerIsLexicographic(a, b);
    NewerIsLexicographic(b, a);
    if LexLess(Components(a), Components(b)) {
      LexTransitive(Components(a), Components(b), Components(a));
      LexIrreflexive(Components(a));
    }
  }

  /** `Newer` is transitive. */
  lemma NewerTransitive(a: Version, b: Version, c: Version)
    requires Newer(a, b) && Newer(b, c)
    ensures Newer(a, c)
  {
    NewerIsLexicographic(a, b);
    NewerIsLexicographic(b, c);
    NewerIsLexicographic(a, c);
    LexTransitive(Components(c), Components(b), Components(a));
  }

  /** Two triples are equal, or exactly one of them is newer than the other. */
  lemma NewerTrichotomy(a: Version, b: Version)
    ensures a == b || Newer(a, b) || Newer(b, a)
    ensures !(Newer(a, b) && Newer(b, a))
    ensures a == b ==> !Newer(a, b)
  {
    NewerIsLexicographic(a, b);
    NewerIsLexicographic(b, a);
    LexTotal(Components(a), Components(b));
    if Components(a) == Components(b) {
      ComponentsInjective(a, b);
    }
    if Newer(a, b) {
      NewerAsymmetric(a, b);
    }
    if a == b {
      NewerIrreflexive(a);
    }
  }

  /** A higher remote cycle is newer, whatever the version and package of either side. */
  lemma HigherCycleNewer(remote: Version, local: Version)
    requires remote.cycle > local.cycle
    ensures Newer(remote, local)
  {
    NewerIsLexicographic(remote, local);
  }

  /** A lower remote cycle is never newer, whatever the version and package of either side. */
  lemma LowerCycleNotNewer(remote: Version, local: Version)
    requires remote.cycle < local.cycle
    ensures !Newer(remote, local)
  {
    NewerIsLexicographic(remote, local);
  }

  /** Local 2510/2 package 0: remote 2510/2-1 is an update, 2510/2-0 and 2509/9-9 are not. */
  lemma NewerExamples()
    ensures Newer(Version(2510, 2, 1), Version(2510, 2, 0))
    ensures !Newer(Version(2510, 2, 0), Version(2510, 2, 0))
    ensures !Newer(Version(2509, 9, 9), Version(2510, 2, 0))
  {
    NewerIrreflexive(Version(2510, 2, 0));
    LowerCycleNotNewer(Version(2509, 9, 9), Version(2510, 2, 0));
  }
}
