/**
 * The recursive subtree expansions of FamixQueryServiceImpl and the two small
 * total lookups: pure functions over a model snapshot.
 */
module Expansion {
  import opened Famix

  /**
   * getPhysicalClassPathsOfSoftwareUnit: the unit itself unless it is a
   * package, together with the expansions of all its children. The self test
   * looks at the package index only, so a path known nowhere expands to itself.
   */
  function PhysicalClassPaths(m: FamixModel, p: string): (r: set<string>)
    requires m.Valid()
    ensures forall q :: q in r ==> q !in m.packages && m.Height(q) <= m.Height(p)
    ensures p !in m.packages <==> p in r
    decreases m.Height(p)
  {
    (if p in m.packages then {} else {p})
      + (set c, q | c in m.ChildNames(p) && q in PhysicalClassPaths(m, c) :: q)
  }

  /**
   * getPhysicalPackagePathsOfSoftwareUnit: every package child, and the
   * package expansion of every child; the unit itself is never added.
   */
  function PhysicalPackagePaths(m: FamixModel, p: string): (r: set<string>)
    requires m.Valid()
    ensures r <= m.packages
    ensures forall q :: q in r ==> m.Height(q) < m.Height(p)
    ensures p !in r
    ensures forall c :: c in m.ChildNames(p) && c in m.packages ==> c in r
    decreases m.Height(p)
  {
    (m.ChildNames(p) * m.packages)
      + (set c, q | c in m.ChildNames(p) && q in PhysicalPackagePaths(m, c) :: q)
  }

  /** s is a path down the containment hierarchy from p to q (p itself when |s| == 1). */
  ghost predicate IsDescent(m: FamixModel, s: seq<string>, p: string, q: string)
  {
    && |s| >= 1 && s[0] == p && s[|s| - 1] == q
    && forall i :: 0 <= i < |s| - 1 ==> s[i + 1] in m.ChildNames(s[i])
  }

  lemma DescentTail(m: FamixModel, s: seq<string>, p: string, q: string)
    requires IsDescent(m, s, p, q) && |s| >= 2
    ensures s[1] in m.ChildNames(p) && IsDescent(m, s[1..], s[1], q)
  {
    assert s[1] == s[0 + 1];
  }

  lemma DescentCons(m: FamixModel, s: seq<string>, p: string, c: string, q: string)
    requires c in m.ChildNames(p) && IsDescent(m, s, c, q)
    ensures IsDescent(m, [p] + s, p, q)
  {
    var t := [p] + s;
    forall i | 0 <= i < |t| - 1
      ensures t[i + 1] in m.ChildNames(t[i])
    {
      if i > 0 {
        assert t[i + 1] == s[(i - 1) + 1] && t[i] == s[i - 1];
      }
    }
  }

  /**
   * The class expansion of p is exactly the set of non-package units at or
   * below p in the containment hierarchy.
   */
  lemma {:induction false} PhysicalClassPathsExact(m: FamixModel, p: string, q: string)
    requires m.Valid()
    ensures q in PhysicalClassPaths(m, p) <==> q !in m.packages && exists s :: IsDescent(m, s, p, q)
    decreases m.Height(p)
  {
    if q in PhysicalClassPaths(m, p) {
      if q == p {
        assert IsDescent(m, [p], p, q);
      } else {
        var c :| c in m.ChildNames(p) && q in PhysicalClassPaths(m, c);
        PhysicalClassPathsExact(m, c, q);
        var s :| IsDescent(m, s, c, q);
        DescentCons(m, s, p, c, q);
      }
    }
    if q !in m.packages && exists s :: IsDescent(m, s, p, q) {
      var s :| IsDescent(m, s, p, q);
      if |s| >= 2 {
        DescentTail(m, s, p, q);
        PhysicalClassPathsExact(m, s[1], q);
      }
    }
  }

  lemma {:induction false} PackagePathsAreProperDescendants(m: FamixModel, p: string, q: string)
    requires m.Valid() && q in PhysicalPackagePaths(m, p)
    ensures exists s :: IsDescent(m, s, p, q) && |s| >= 2
    decreases m.Height(p)
  {
    if q in m.ChildNames(p) {
      assert IsDescent(m, [p, q], p, q);
    } else {
      var c :| c in m.ChildNames(p) && q in PhysicalPackagePaths(m, c);
      PackagePathsAreProperDescendants(m, c, q);
      var s :| IsDescent(m, s, c, q) && |s| >= 2;
      DescentCons(m, s, p, c, q);
    }
  }

  lemma {:induction false} ProperDescendantPackagesArePackagePaths(m: FamixModel, s: seq<string>, p: string, q: string)
    requires m.Valid() && q in m.packages && IsDescent(m, s, p, q) && |s| >= 2
    ensures q in PhysicalPackagePaths(m, p)
    decreases |s|
  {
    DescentTail(m, s, p, q);
    if |s| > 2 {
      ProperDescendantPackagesArePackagePaths(m, s[1..], s[1], q);
    }
  }

  /**
   * The package expansion of p is exactly the set of packages strictly below p
   * in the containment hierarchy.
   */
  lemma PhysicalPackagePathsExact(m: FamixModel, p: string, q: string)
    requires m.Valid()
    ensures q in PhysicalPackagePaths(m, p)
        <==> q in m.packages && exists s :: IsDescent(m, s, p, q) && |s| >= 2
  {
    if q in PhysicalPackagePaths(m, p) {
      PackagePathsAreProperDescendants(m, p, q);
    }
    if q in m.packages && exists s :: IsDescent(m, s, p, q) && |s| >= 2 {
      var s :| IsDescent(m, s, p, q) && |s| >= 2;
      ProperDescendantPackagesArePackagePaths(m, s, p, q);
    }
  }

  /**
   * A unit that is not a package and has no children expands to itself alone,
   * whether or not it is a known class: only the package index is consulted.
   */
  lemma LeafExpandsToItself(m: FamixModel, p: string)
    requires m.Valid() && p !in m.packages && m.ChildNames(p) == {}
    ensures PhysicalClassPaths(m, p) == {p}
    ensures PhysicalPackagePaths(m, p) == {}
  {
  }

  /** getSourceFilePathOfClass: the class's source file, "" for an unknown class. */
  function SourceFilePathOfClass(m: FamixModel, p: string): (r: string)
    ensures p in m.classes ==> r == m.classes[p].sourceFilePath
    ensures p !in m.classes ==> r == ""
  {
    if p in m.classes then m.classes[p].sourceFilePath else ""
  }

  /**
   * getChildUnitsOfSoftwareUnit: the child DTOs the module finder reports, an
   * empty array when the unit has none or is unknown.
   */
  function ChildUnitsOf(m: FamixModel, p: string): (r: seq<SoftwareUnit>)
    ensures p in m.childUnits ==> r == m.childUnits[p]
    ensures r == [] <==> p !in m.childUnits || m.childUnits[p] == []
  {
    var childModules := if p in m.childUnits then m.childUnits[p] else [];
    if |childModules| > 0 then childModules else []
  }
}
