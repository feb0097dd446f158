/**
 * The lines-of-code sum of getAnalysisStatistics: linesOfCode added up over
 * the type names that are keys of the class index, with the order in which
 * the names are visited shown not to matter.
 */
module Statistics {
  import opened JavaStrings
  import opened Famix
  import opened Expansion

  /** linesOfCode of a type name, 0 for a name that is not a class. */
  function LinesOfCodeOfType(m: FamixModel, name: string): int
  {
    if name in m.classes then m.classes[name].linesOfCode else 0
  }

  /** The sum the loop accumulates while visiting names in order. */
  function LinesOfCodeOf(m: FamixModel, names: seq<string>): (r: int)
    ensures (forall i :: 0 <= i < |names| ==> names[i] !in m.classes) ==> r == 0
    ensures (forall n :: n in m.classes ==> m.classes[n].linesOfCode >= 0) ==> r >= 0
  {
    if names == [] then 0
    else LinesOfCodeOf(m, names[..|names| - 1]) + LinesOfCodeOfType(m, names[|names| - 1])
  }

  /** The lines of code of a set of type names, visited in TreeSet order. */
  ghost function LinesOfCodeIn(m: FamixModel, names: set<string>): int
  {
    LinesOfCodeOf(m, Sorted(names))
  }

  lemma {:induction false} LinesOfCodeOfConcat(m: FamixModel, a: seq<string>, b: seq<string>)
    ensures LinesOfCodeOf(m, a + b) == LinesOfCodeOf(m, a) + LinesOfCodeOf(m, b)
    decreases |b|
  {
    if b == [] {
      assert a + b == a;
    } else {
      var b' := b[..|b| - 1];
      assert (a + b)[..|a + b| - 1] == a + b';
      LinesOfCodeOfConcat(m, a, b');
    }
  }

  /** Taking one name out of the visit order takes exactly its own lines out of the sum. */
  lemma LinesOfCodeOfRemove(m: FamixModel, names: seq<string>, k: nat)
    requires k < |names|
    ensures LinesOfCodeOf(m, names)
         == LinesOfCodeOf(m, names[..k] + names[k + 1..]) + LinesOfCodeOfType(m, names[k])
  {
    assert names == names[..k] + [names[k]] + names[k + 1..];
    LinesOfCodeOfConcat(m, names[..k] + [names[k]], names[k + 1..]);
    LinesOfCodeOfConcat(m, names[..k], [names[k]]);
    LinesOfCodeOfConcat(m, names[..k], names[k + 1..]);
  }

  predicate Distinct(names: seq<string>)
  {
    forall i, j :: 0 <= i < j < |names| ==> names[i] != names[j]
  }

  /** A duplicate-free list has as many elements as the set of its members. */
  lemma {:induction false} DistinctLength(names: seq<string>)
    requires Distinct(names)
    ensures |(set x | x in names)| == |names|
  {
    if names != [] {
      var pre := names[..|names| - 1];
      var last := names[|names| - 1];
      forall i, j | 0 <= i < j < |pre|
        ensures pre[i] != pre[j]
      {
        assert pre[i] == names[i] && pre[j] == names[j];
      }
      DistinctLength(pre);
      assert names == pre + [last];
      assert (set x | x in names) == (set x | x in pre) + {last};
      forall i | 0 <= i < |pre|
        ensures pre[i] != last
      {
        assert pre[i] == names[i];
      }
      assert last !in (set x | x in pre);
    }
  }

  /** Removing one position from a duplicate-free list removes exactly that name. */
  lemma DistinctRemove(names: seq<string>, k: nat)
    requires Distinct(names) && k < |names|
    ensures Distinct(names[..k] + names[k + 1..])
    ensures forall y :: y in names[..k] + names[k + 1..] <==> y in names && y != names[k]
  {
    var rest := names[..k] + names[k + 1..];
    forall i | 0 <= i < |rest|
      ensures rest[i] == names[if i < k then i else i + 1]
    {
    }
    forall y | y in names && y != names[k]
      ensures y in rest
    {
      var j :| 0 <= j < |names| && names[j] == y;
      if j < k { assert rest[j] == y; } else { assert rest[j - 1] == y; }
    }
  }

  /** Any two duplicate-free visit orders of the same names give the same sum. */
  lemma {:induction false} LinesOfCodeOfPermutation(m: FamixModel, a: seq<string>, b: seq<string>)
    requires Distinct(a) && Distinct(b)
    requires forall x :: x in a <==> x in b
    ensures LinesOfCodeOf(m, a) == LinesOfCodeOf(m, b)
    decreases |a|
  {
    assert (set x | x in a) == (set x | x in b);
    DistinctLength(a);
    DistinctLength(b);
    if a == [] {
      assert b == [];
    } else {
      var x := a[|a| - 1];
      assert x in b;
      var k :| 0 <= k < |b| && b[k] == x;
      DistinctRemove(a, |a| - 1);
      assert a[..|a| - 1] + a[|a|..] == a[..|a| - 1];
      DistinctRemove(b, k);
      var a', b' := a[..|a| - 1], b[..k] + b[k + 1..];
      forall y
        ensures y in a' <==> y in b'
      {
        assert y in a' <==> y in a && y != x;
        assert y in b' <==> y in b && y != x;
      }
      LinesOfCodeOfPermutation(m, a[..|a| - 1], b[..k] + b[k + 1..]);
      LinesOfCodeOfRemove(m, b, k);
    }
  }

  /** The TreeSet order of a set has no duplicates. */
  lemma SortedDistinct(names: set<string>)
    ensures Distinct(Sorted(names))
  {
    SortedFacts(names);
    forall i, j | 0 <= i < j < |Sorted(names)|
      ensures Sorted(names)[i] != Sorted(names)[j]
    {
      LessIrreflexive(Sorted(names)[i]);
    }
  }

  /** The TreeSet order is one such order, so the sum over a set is well defined. */
  lemma LinesOfCodeInAnyOrder(m: FamixModel, names: set<string>, order: seq<string>)
    requires Distinct(order) && forall x :: x in order <==> x in names
    ensures LinesOfCodeOf(m, order) == LinesOfCodeIn(m, names)
  {
    SortedFacts(names);
    SortedDistinct(names);
    LinesOfCodeOfPermutation(m, order, Sorted(names));
  }

  /** The lines of code of two disjoint sets of types add up. */
  lemma LinesOfCodeInDisjointUnion(m: FamixModel, a: set<string>, b: set<string>)
    requires a !! b
    ensures LinesOfCodeIn(m, a + b) == LinesOfCodeIn(m, a) + LinesOfCodeIn(m, b)
  {
    SortedFacts(a);
    SortedFacts(b);
    SortedDistinct(a);
    SortedDistinct(b);
    var order := Sorted(a) + Sorted(b);
    forall i, j | 0 <= i < j < |order|
      ensures order[i] != order[j]
    {
      if j < |Sorted(a)| {
        assert order[i] == Sorted(a)[i] && order[j] == Sorted(a)[j];
      } else if i >= |Sorted(a)| {
        assert order[i] == Sorted(b)[i - |Sorted(a)|] && order[j] == Sorted(b)[j - |Sorted(a)|];
      } else {
        assert order[i] in a && order[j] in b;
      }
    }
    LinesOfCodeInAnyOrder(m, a + b, order);
    LinesOfCodeOfConcat(m, Sorted(a), Sorted(b));
  }

  /** The types below the units of cs: the union of their class expansions. */
  ghost function ClassesBelow(m: FamixModel, cs: seq<string>): set<string>
    requires m.Valid()
  {
    if cs == [] then {} else ClassesBelow(m, cs[..|cs| - 1]) + PhysicalClassPaths(m, cs[|cs| - 1])
  }

  /** The scoped lines of code of each unit of cs, added up. */
  ghost function LinesOfCodeOfUnits(m: FamixModel, cs: seq<string>): int
    requires m.Valid()
  {
    if cs == [] then 0
    else LinesOfCodeOfUnits(m, cs[..|cs| - 1]) + LinesOfCodeIn(m, PhysicalClassPaths(m, cs[|cs| - 1]))
  }

  /** The units listed in cs. */
  function Members(cs: seq<string>): set<string>
  {
    set c | c in cs
  }

  /** No type lies below two different units of cs. */
  ghost predicate ExpansionsDisjoint(m: FamixModel, cs: set<string>)
    requires m.Valid()
  {
    forall c1, c2 :: c1 in cs && c2 in cs && c1 != c2 ==> PhysicalClassPaths(m, c1) !! PhysicalClassPaths(m, c2)
  }

  /** Some unit of cs has q in its class expansion. */
  ghost predicate BelowSome(m: FamixModel, cs: seq<string>, q: string)
    requires m.Valid()
  {
    exists c :: c in cs && q in PhysicalClassPaths(m, c)
  }

  lemma {:induction false} ClassesBelowMembership(m: FamixModel, cs: seq<string>, q: string)
    requires m.Valid()
    ensures q in ClassesBelow(m, cs) <==> BelowSome(m, cs, q)
  {
    if cs != [] {
      var pre := cs[..|cs| - 1];
      ClassesBelowMembership(m, pre, q);
      assert cs == pre + [cs[|cs| - 1]];
    }
  }

  /** The units before the last one share no type with the last one. */
  lemma LastUnitDisjoint(m: FamixModel, cs: seq<string>)
    requires m.Valid() && Distinct(cs) && cs != []
    requires ExpansionsDisjoint(m, Members(cs))
    ensures ClassesBelow(m, cs[..|cs| - 1]) !! PhysicalClassPaths(m, cs[|cs| - 1])
  {
    var pre, last := cs[..|cs| - 1], cs[|cs| - 1];
    forall q | q in ClassesBelow(m, pre)
      ensures q !in PhysicalClassPaths(m, last)
    {
      ClassesBelowMembership(m, pre, q);
      var c :| c in pre && q in PhysicalClassPaths(m, c);
      var i :| 0 <= i < |pre| && pre[i] == c;
      assert cs[i] == c && c != last;
    }
  }

  /** Dropping the last unit keeps the units distinct and their expansions disjoint. */
  lemma DropLastUnit(m: FamixModel, cs: seq<string>)
    requires m.Valid() && Distinct(cs) && cs != []
    requires ExpansionsDisjoint(m, Members(cs))
    ensures Distinct(cs[..|cs| - 1])
    ensures ExpansionsDisjoint(m, Members(cs[..|cs| - 1]))
  {
    var pre := cs[..|cs| - 1];
    forall i, j | 0 <= i < j < |pre|
      ensures pre[i] != pre[j]
    {
      assert pre[i] == cs[i] && pre[j] == cs[j];
    }
    assert Members(pre) <= Members(cs);
  }

  lemma {:induction false} LinesOfCodeOfDisjointUnits(m: FamixModel, cs: seq<string>)
    requires m.Valid() && Distinct(cs)
    requires ExpansionsDisjoint(m, Members(cs))
    ensures LinesOfCodeIn(m, ClassesBelow(m, cs)) == LinesOfCodeOfUnits(m, cs)
  {
    if cs != [] {
      var pre, last := cs[..|cs| - 1], cs[|cs| - 1];
      DropLastUnit(m, cs);
      LinesOfCodeOfDisjointUnits(m, pre);
      LastUnitDisjoint(m, cs);
      LinesOfCodeInDisjointUnion(m, ClassesBelow(m, pre), PhysicalClassPaths(m, last));
    }
  }

  /**
   * The lines of code of a package are the sum of the scoped lines of code of
   * its children, visited in TreeSet order, as long as no type lies below two
   * different children.
   */
  lemma PackageLinesOfCode(m: FamixModel, p: string)
    requires m.Valid() && p in m.packages
    requires ExpansionsDisjoint(m, m.ChildNames(p))
    ensures LinesOfCodeIn(m, PhysicalClassPaths(m, p)) == LinesOfCodeOfUnits(m, Sorted(m.ChildNames(p)))
  {
    var children := Sorted(m.ChildNames(p));
    SortedFacts(m.ChildNames(p));
    SortedDistinct(m.ChildNames(p));
    assert Members(children) == m.ChildNames(p);
    forall q
      ensures q in PhysicalClassPaths(m, p) <==> q in ClassesBelow(m, children)
    {
      ClassesBelowMembership(m, children, q);
    }
    assert PhysicalClassPaths(m, p) == ClassesBelow(m, children);
    LinesOfCodeOfDisjointUnits(m, children);
  }
}
