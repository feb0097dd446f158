/**
 * The specification side of getDependenciesFromSoftwareUnitToSoftwareUnit:
 * the string key under which dependencies are de-duplicated, the order in
 * which the three nested loops meet dependencies, and the TreeMap that keeps
 * the first dependency met under each key.
 */
module Dedup {
  import opened JavaStrings
  import opened Famix
  import opened Expansion

  /**
   * The de-duplication key: the six fields concatenated with no separator,
   * the line number and the flag rendered as Java renders them.
   */
  function Key(d: Dependency): string
  {
    d.from + d.to + IntToString(d.lineNumber) + d.kind + d.subKind + BoolToString(d.isIndirect)
  }

  /** The key starts with the two endpoints. */
  lemma KeyStartsWithEndpoints(d: Dependency)
    ensures |Key(d)| >= |d.from| + |d.to|
    ensures Key(d)[..|d.from| + |d.to|] == d.from + d.to
  {
    var line, flag := IntToString(d.lineNumber), BoolToString(d.isIndirect);
    Regroup(d.from, d.to, line, d.kind, d.subKind, flag);
    Prefix(d.from + d.to, line + d.kind + d.subKind + flag);
  }

  lemma Prefix(x: string, y: string)
    ensures (x + y)[..|x|] == x
  {
  }

  /** The last four characters of the key tell whether the dependency is indirect. */
  lemma KeyEndsWithFlag(d: Dependency)
    ensures |Key(d)| >= 4
    ensures Key(d)[|Key(d)| - 4..] == "true" <==> d.isIndirect
  {
    var line, flag := IntToString(d.lineNumber), BoolToString(d.isIndirect);
    Regroup(d.from, d.to, line, d.kind, d.subKind, flag);
    PrefixAndSuffix(d.from + d.to, line + d.kind + d.subKind, flag);
  }

  lemma Regroup(a: string, b: string, c: string, d: string, e: string, f: string)
    ensures a + b + c + d + e + f == (a + b) + (c + d + e) + f
    ensures a + b + c + d + e + f == (a + b) + (c + d + e + f)
  {
  }

  lemma PrefixAndSuffix(x: string, y: string, z: string)
    requires |z| >= 4
    ensures (x + y + z)[..|x|] == x
    ensures (x + y + z)[|x + y + z| - 4..] == z[|z| - 4..]
  {
  }

  /** Two dependencies that share a key agree on whether they are indirect. */
  lemma KeySharedFlag(d1: Dependency, d2: Dependency)
    requires Key(d1) == Key(d2)
    ensures d1.isIndirect == d2.isIndirect
  {
    KeyEndsWithFlag(d1);
    KeyEndsWithFlag(d2);
  }

  /**
   * The key does not identify a dependency: moving a character from the end
   * of `from` to the start of `to` keeps the key, so the query reports only
   * one of two different dependencies.
   */
  lemma KeyNotInjective()
    ensures exists d1, d2 :: d1 != d2 && Key(d1) == Key(d2)
  {
    var d1 := Dependency("ab", "c", 1, "Call", "", false);
    var d2 := Dependency("a", "bc", 1, "Call", "", false);
    assert Key(d1) == "abc1Callfalse" == Key(d2);
  }

  /** The position of the first dependency in cs with key k; |cs| when there is none. */
  function FirstIndexOfKey(cs: seq<Dependency>, key: Dependency -> string, k: string): (i: nat)
    ensures i <= |cs|
    ensures i < |cs| ==> key(cs[i]) == k
    ensures forall j :: 0 <= j < i ==> key(cs[j]) != k
  {
    if cs == [] then 0
    else
      var pre := cs[..|cs| - 1];
      var i := FirstIndexOfKey(pre, key, k);
      assert forall j :: 0 <= j < |pre| ==> cs[j] == pre[j];
      if i < |pre| then i
      else if key(cs[|pre|]) == k then |pre|
      else |cs|
  }

  /** d is the first dependency of cs with its key. */
  predicate FirstWithKey(cs: seq<Dependency>, key: Dependency -> string, d: Dependency)
  {
    var i := FirstIndexOfKey(cs, key, key(d));
    i < |cs| && cs[i] == d
  }

  /**
   * The TreeMap after cs has been fed to it in order, each dependency put
   * under its key only when that key is not yet present.
   */
  function FirstByKey(cs: seq<Dependency>, key: Dependency -> string): (r: map<string, Dependency>)
  {
    if cs == [] then map[]
    else
      var found := FirstByKey(cs[..|cs| - 1], key);
      var d := cs[|cs| - 1];
      if key(d) in found then found else found[key(d) := d]
  }

  /** Feeding one more dependency to the TreeMap: put it unless its key is present. */
  lemma FirstByKeySnoc(cs: seq<Dependency>, key: Dependency -> string, d: Dependency)
    ensures FirstByKey(cs + [d], key)
         == if key(d) in FirstByKey(cs, key) then FirstByKey(cs, key) else FirstByKey(cs, key)[key(d) := d]
  {
    assert (cs + [d])[..|cs + [d]| - 1] == cs;
  }

  /**
   * The map has a key exactly for the keys that occur in cs, and under each
   * key it holds the first dependency of cs with that key.
   */
  lemma {:induction false} FirstByKeyKeepsFirst(cs: seq<Dependency>, key: Dependency -> string)
    ensures forall k :: k in FirstByKey(cs, key) <==> FirstIndexOfKey(cs, key, k) < |cs|
    ensures forall k :: k in FirstByKey(cs, key) ==> FirstByKey(cs, key)[k] == cs[FirstIndexOfKey(cs, key, k)]
  {
    if cs != [] {
      var pre := cs[..|cs| - 1];
      FirstByKeyKeepsFirst(pre, key);
      forall k
        ensures k in FirstByKey(cs, key) <==> FirstIndexOfKey(cs, key, k) < |cs|
        ensures k in FirstByKey(cs, key) ==> FirstByKey(cs, key)[k] == cs[FirstIndexOfKey(cs, key, k)]
      {
        if FirstIndexOfKey(pre, key, k) < |pre| {
          assert cs[FirstIndexOfKey(pre, key, k)] == pre[FirstIndexOfKey(pre, key, k)];
        }
      }
    }
  }

  /** Every dependency of cs has its key in the map. */
  lemma FirstByKeyComplete(cs: seq<Dependency>, key: Dependency -> string, i: nat)
    requires i < |cs|
    ensures key(cs[i]) in FirstByKey(cs, key)
  {
    FirstByKeyKeepsFirst(cs, key);
  }

  /** What the innermost two loops meet for one from-type: the lookups for tos in order. */
  function Row(fd: DependencyFinder, from: string, tos: seq<string>): seq<Dependency>
  {
    if tos == [] then []
    else Row(fd, from, tos[..|tos| - 1]) + fd.DependenciesFromTo(from, tos[|tos| - 1])
  }

  /** What the three loops meet: for each from-type in order, its row. */
  function Grid(fd: DependencyFinder, froms: seq<string>, tos: seq<string>): seq<Dependency>
  {
    if froms == [] then []
    else Grid(fd, froms[..|froms| - 1], tos) + Row(fd, froms[|froms| - 1], tos)
  }

  /** Row and Grid grow by one lookup and by one row as the loops advance. */
  lemma RowSnoc(fd: DependencyFinder, from: string, tos: seq<string>, j: nat)
    requires j < |tos|
    ensures Row(fd, from, tos[..j + 1]) == Row(fd, from, tos[..j]) + fd.DependenciesFromTo(from, tos[j])
  {
    assert tos[..j + 1][..j] == tos[..j];
  }

  lemma GridSnoc(fd: DependencyFinder, froms: seq<string>, tos: seq<string>, i: nat)
    requires i < |froms|
    ensures Grid(fd, froms[..i + 1], tos) == Grid(fd, froms[..i], tos) + Row(fd, froms[i], tos)
  {
    assert froms[..i + 1][..i] == froms[..i];
  }

  lemma {:induction false} RowMembership(fd: DependencyFinder, from: string, tos: seq<string>, d: Dependency)
    ensures d in Row(fd, from, tos) <==> exists t :: t in tos && d in fd.DependenciesFromTo(from, t)
  {
    if tos != [] {
      var pre := tos[..|tos| - 1];
      RowMembership(fd, from, pre, d);
      assert tos == pre + [tos[|tos| - 1]];
    }
  }

  /** A dependency is met by the loops iff some (from, to) pair of the two lists has it in its lookup. */
  lemma {:induction false} GridMembership(fd: DependencyFinder, froms: seq<string>, tos: seq<string>, d: Dependency)
    ensures d in Grid(fd, froms, tos)
        <==> exists f, t :: f in froms && t in tos && d in fd.DependenciesFromTo(f, t)
  {
    if froms != [] {
      var pre := froms[..|froms| - 1];
      GridMembership(fd, pre, tos, d);
      RowMembership(fd, froms[|froms| - 1], tos, d);
      assert froms == pre + [froms[|froms| - 1]];
    }
  }

  /**
   * The dependencies the query meets, in the order it meets them: from-types
   * and to-types each in TreeSet order of the two class expansions.
   */
  ghost function Discovered(m: FamixModel, fd: DependencyFinder, pathFrom: string, pathTo: string): seq<Dependency>
    requires m.Valid()
  {
    Grid(fd, Sorted(PhysicalClassPaths(m, pathFrom)), Sorted(PhysicalClassPaths(m, pathTo)))
  }

  /** The dependency finder lists d for some pair of a type in F and a type in T. */
  ghost predicate ListedBetween(fd: DependencyFinder, F: set<string>, T: set<string>, d: Dependency)
  {
    exists f, t :: f in F && t in T && d in fd.DependenciesFromTo(f, t)
  }

  /** Some dependency in r has key k. */
  ghost predicate HasKey(r: seq<Dependency>, key: Dependency -> string, k: string)
  {
    exists i :: 0 <= i < |r| && key(r[i]) == k
  }

  /**
   * The query meets a dependency iff the dependency finder lists it for some
   * type below pathFrom and some type below pathTo.
   */
  lemma DiscoveredMembership(m: FamixModel, fd: DependencyFinder, pathFrom: string, pathTo: string)
    requires m.Valid()
    ensures forall d :: d in Discovered(m, fd, pathFrom, pathTo)
                 <==> ListedBetween(fd, PhysicalClassPaths(m, pathFrom), PhysicalClassPaths(m, pathTo), d)
  {
    SortedFacts(PhysicalClassPaths(m, pathFrom));
    SortedFacts(PhysicalClassPaths(m, pathTo));
    forall d {
      GridMembership(fd, Sorted(PhysicalClassPaths(m, pathFrom)), Sorted(PhysicalClassPaths(m, pathTo)), d);
    }
  }
}
