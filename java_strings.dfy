/**
 * The parts of java.lang.String and java.util.TreeSet<String> that the query
 * service depends on: the natural order of strings (String.compareTo), the
 * ascending iteration order of a TreeSet, and the decimal/boolean renderings
 * that string concatenation uses for int and boolean operands.
 */
module JavaStrings {

  /** a.compareTo(b) < 0: lexicographic on characters, a proper prefix first. */
  predicate Less(a: string, b: string)
  {
    if a == [] then b != []
    else if b == [] then false
    else if a[0] != b[0] then a[0] < b[0]
    else Less(a[1..], b[1..])
  }

  lemma {:induction false} LessIrreflexive(a: string)
    ensures !Less(a, a)
  {
    if a != [] {
      LessIrreflexive(a[1..]);
    }
  }

  lemma {:induction false} LessAsymmetric(a: string, b: string)
    requires Less(a, b)
    ensures !Less(b, a)
  {
    if a != [] && a[0] == b[0] {
      LessAsymmetric(a[1..], b[1..]);
    }
  }

  lemma {:induction false} LessTransitive(a: string, b: string, c: string)
    requires Less(a, b) && Less(b, c)
    ensures Less(a, c)
  {
    if a != [] && a[0] == b[0] && b[0] == c[0] {
      LessTransitive(a[1..], b[1..], c[1..]);
    }
  }

  /** compareTo is a total order: two distinct strings are always ordered. */
  lemma {:induction false} LessTotal(a: string, b: string)
    ensures a == b || Less(a, b) || Less(b, a)
  {
    if a != [] && b != [] && a[0] == b[0] {
      LessTotal(a[1..], b[1..]);
      if a[1..] == b[1..] {
        assert a == [a[0]] + a[1..] && b == [b[0]] + b[1..];
      }
    }
  }

  /** a is a proper prefix of b. */
  predicate ProperPrefix(a: string, b: string)
  {
    |a| < |b| && a == b[..|a|]
  }

  /** At the first index where a and b differ, a has the smaller character. */
  ghost predicate SmallerAtFirstDifference(a: string, b: string)
  {
    exists k :: 0 <= k < |a| && k < |b| && a[..k] == b[..k] && a[k] < b[k]
  }

  lemma {:induction false} LessOfProperPrefix(a: string, b: string)
    requires ProperPrefix(a, b)
    ensures Less(a, b)
  {
    if a != [] {
      assert a[0] == b[0];
      assert a[1..] == b[1..][..|a[1..]|];
      LessOfProperPrefix(a[1..], b[1..]);
    }
  }

  lemma {:induction false} LessAtDifference(a: string, b: string, k: nat)
    requires k < |a| && k < |b| && a[..k] == b[..k] && a[k] < b[k]
    ensures Less(a, b)
  {
    if k > 0 {
      assert a[0] == a[..k][0] == b[..k][0] == b[0];
      assert a[1..][..k - 1] == a[..k][1..] == b[..k][1..] == b[1..][..k - 1];
      LessAtDifference(a[1..], b[1..], k - 1);
    }
  }

  lemma {:induction false} LessCases(a: string, b: string)
    requires Less(a, b)
    ensures ProperPrefix(a, b) || SmallerAtFirstDifference(a, b)
  {
    if a == [] {
      assert ProperPrefix(a, b);
    } else if a[0] != b[0] {
      assert a[..0] == b[..0];
    } else {
      LessCases(a[1..], b[1..]);
      if ProperPrefix(a[1..], b[1..]) {
        assert a == [a[0]] + a[1..] && b[..|a|] == [b[0]] + b[1..][..|a[1..]|];
      } else {
        var k :| 0 <= k < |a[1..]| && k < |b[1..]| && a[1..][..k] == b[1..][..k] && a[1..][k] < b[1..][k];
        assert a[..k + 1] == [a[0]] + a[1..][..k] && b[..k + 1] == [b[0]] + b[1..][..k];
        assert a[k + 1] < b[k + 1];
      }
    }
  }

  /**
   * Less is String.compareTo(a, b) < 0 as the JDK documents it: either a is a
   * proper prefix of b, or at the first index where the two differ a has the
   * smaller character.
   */
  lemma LessMatchesCompareTo(a: string, b: string)
    ensures Less(a, b) <==> ProperPrefix(a, b) || SmallerAtFirstDifference(a, b)
  {
    if Less(a, b) {
      LessCases(a, b);
    }
    if ProperPrefix(a, b) {
      LessOfProperPrefix(a, b);
    }
    if SmallerAtFirstDifference(a, b) {
      var k :| 0 <= k < |a| && k < |b| && a[..k] == b[..k] && a[k] < b[k];
      LessAtDifference(a, b, k);
    }
  }

  /** Strictly ascending, hence also free of duplicates. */
  predicate Ascending(s: seq<string>)
  {
    forall i, j :: 0 <= i < j < |s| ==> Less(s[i], s[j])
  }

  /** x is the first element of s in TreeSet order. */
  predicate IsLeast(x: string, s: set<string>)
  {
    x in s && forall y :: y in s && y != x ==> Less(x, y)
  }

  lemma {:induction false} LeastExists(s: set<string>)
    requires s != {}
    ensures exists x :: IsLeast(x, s)
    decreases |s|
  {
    var y :| y in s;
    if s == {y} {
      assert IsLeast(y, s);
    } else {
      var rest := s - {y};
      LeastExists(rest);
      var z :| IsLeast(z, rest);
      LessTotal(y, z);
      if Less(y, z) {
        forall w | w in s && w != y
          ensures Less(y, w)
        {
          if w != z {
            LessTransitive(y, z, w);
          }
        }
        assert IsLeast(y, s);
      } else {
        assert IsLeast(z, s);
      }
    }
  }

  lemma LeastUnique(s: set<string>)
    ensures forall x, y :: IsLeast(x, s) && IsLeast(y, s) ==> x == y
  {
    forall x, y | IsLeast(x, s) && IsLeast(y, s)
      ensures x == y
    {
      if x != y {
        LessAsymmetric(x, y);
      }
    }
  }

  /** The elements of a TreeSet<String> in the order its iterator yields them. */
  ghost function Sorted(s: set<string>): seq<string>
    decreases |s|
  {
    if s == {} then []
    else
      LeastExists(s);
      var x :| IsLeast(x, s);
      [x] + Sorted(s - {x})
  }

  lemma SortedUnfold(s: set<string>, x: string)
    requires IsLeast(x, s)
    ensures Sorted(s) == [x] + Sorted(s - {x})
  {
    LeastUnique(s);
  }

  /** Iterating a TreeSet lists every element exactly once, in ascending order. */
  lemma {:induction false} SortedFacts(s: set<string>)
    ensures Ascending(Sorted(s))
    ensures forall x :: x in Sorted(s) <==> x in s
    ensures |Sorted(s)| == |s|
    decreases |s|
  {
    if s != {} {
      LeastExists(s);
      var x :| IsLeast(x, s);
      SortedUnfold(s, x);
      SortedFacts(s - {x});
      var r := Sorted(s);
      forall i, j | 0 <= i < j < |r|
        ensures Less(r[i], r[j])
      {
        if i == 0 {
          assert r[j] in s - {x};
        }
      }
    }
  }

  /** The TreeSet order is the only strictly ascending listing of the set. */
  lemma {:induction false} AscendingIsSorted(s: set<string>, q: seq<string>)
    requires Ascending(q)
    requires forall x :: x in q <==> x in s
    ensures q == Sorted(s)
    decreases |q|
  {
    if q == [] {
      assert forall x :: x !in s;
      assert s == {};
    } else {
      var x, q' := q[0], q[1..];
      forall y | y in s && y != x
        ensures Less(x, y)
      {
        var j :| 0 <= j < |q| && q[j] == y;
      }
      assert IsLeast(x, s);
      SortedUnfold(s, x);
      forall y
        ensures y in q' <==> y in s - {x}
      {
        if y in q' {
          var j :| 0 <= j < |q'| && q'[j] == y;
          assert Less(q[0], q[j + 1]);
          LessIrreflexive(x);
        }
        if y in s - {x} {
          var j :| 0 <= j < |q| && q[j] == y;
          assert q'[j - 1] == y;
        }
      }
      AscendingIsSorted(s - {x}, q');
      assert q == [x] + q';
    }
  }

  /**
   * Copies a TreeSet into a list (new ArrayList<String>(treeSet)): the loop
   * takes the least remaining element each round, as the iterator does.
   */
  method AscendingList(s: set<string>) returns (r: seq<string>)
    ensures r == Sorted(s)
    ensures Ascending(r) && |r| == |s|
    ensures forall x :: x in r <==> x in s
  {
    r := [];
    var rest := s;
    while rest != {}
      invariant r + Sorted(rest) == Sorted(s)
      decreases |rest|
    {
      LeastExists(rest);
      var x :| IsLeast(x, rest);
      SortedUnfold(rest, x);
      r, rest := r + [x], rest - {x};
    }
    SortedFacts(s);
  }

  /** The value of a decimal digit character, 0 for any other character. */
  function DigitValue(c: char): nat
  {
    if '0' <= c <= '9' then c as int - '0' as int else 0
  }

  /** The number a string of decimal digits denotes, most significant first. */
  function DecimalValue(s: string): nat
  {
    if s == [] then 0 else DecimalValue(s[..|s| - 1]) * 10 + DigitValue(s[|s| - 1])
  }

  function Digit(n: nat): (c: char)
    requires n < 10
    ensures '0' <= c <= '9' && DigitValue(c) == n
  {
    "0123456789"[n]
  }

  /** Integer.toString for a non-negative value: decimal, no leading zeros. */
  function NatToString(n: nat): (r: string)
    ensures |r| >= 1 && r[0] != '-'
    ensures forall i :: 0 <= i < |r| ==> '0' <= r[i] <= '9'
    ensures DecimalValue(r) == n
    ensures r[0] == '0' <==> n == 0
    ensures |r| > 1 ==> r[0] != '0'
    decreases n
  {
    if n < 10 then [Digit(n)]
    else
      var r := NatToString(n / 10) + [Digit(n % 10)];
      assert r[..|r| - 1] == NatToString(n / 10);
      r
  }

  /** Integer.toString: a minus sign before the magnitude of a negative value. */
  function IntToString(i: int): (r: string)
    ensures |r| >= 1
    ensures r[0] == '-' <==> i < 0
    ensures i >= 0 ==> DecimalValue(r) == i
    ensures i < 0 ==> DecimalValue(r[1..]) == -i && r[1] != '0'
    ensures forall k :: (if i < 0 then 1 else 0) <= k < |r| ==> '0' <= r[k] <= '9'
    ensures i >= 0 && |r| > 1 ==> r[0] != '0'
  {
    if i < 0 then "-" + NatToString(-i) else NatToString(i)
  }

  /** Boolean.toString: the rendering ends in "true" exactly for true. */
  function BoolToString(b: bool): (r: string)
    ensures |r| >= 4 && (r[|r| - 4..] == "true" <==> b)
  {
    if b then "true" else "false"
  }
}
