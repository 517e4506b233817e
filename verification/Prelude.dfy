/** Small shared vocabulary: optional values, results, and a few facts about sequences
    that several components of the simulation kernel rely on. */
module Prelude {

  datatype Option<+T> = None | Some(value: T)

  datatype Result<+T, +E> = Ok(value: T) | Err(error: E)

  /** No element occurs twice. */
  ghost predicate NoDup<T>(s: seq<T>) {
    forall i, j :: 0 <= i < j < |s| ==> s[i] != s[j]
  }

  /** `s` without the element at position `i`. */
  function RemoveAt<T>(s: seq<T>, i: nat): (r: seq<T>)
    requires i < |s|
    ensures |r| == |s| - 1
  {
    s[..i] + s[i + 1..]
  }

  lemma RemoveAtMultiset<T>(s: seq<T>, i: nat)
    requires i < |s|
    ensures multiset(RemoveAt(s, i)) == multiset(s) - multiset{s[i]}
    ensures s[i] in multiset(s)
  {
    assert s == s[..i] + [s[i]] + s[i + 1..];
  }

  function InsertAt<T>(s: seq<T>, i: nat, x: T): seq<T>
    requires i <= |s|
  {
    s[..i] + [x] + s[i..]
  }

  lemma InsertAtMultiset<T>(s: seq<T>, i: nat, x: T)
    requires i <= |s|
    ensures multiset(InsertAt(s, i, x)) == multiset(s) + multiset{x}
  {
    assert s == s[..i] + s[i..];
  }

  /** How often `x` occurs in `s`. */
  ghost function Occurs<T>(s: seq<T>, x: T): nat {
    multiset(s)[x]
  }

  lemma OccursConcat<T>(a: seq<T>, b: seq<T>, x: T)
    ensures Occurs(a + b, x) == Occurs(a, x) + Occurs(b, x)
  {
    assert multiset(a + b) == multiset(a) + multiset(b);
  }

  /** Adds up `f` over the elements of `s`. */
  ghost function Tally<A>(s: seq<A>, f: A -> nat): nat {
    if s == [] then 0 else f(s[0]) + Tally(s[1..], f)
  }

  lemma {:induction false} TallyUpdate<A>(s: seq<A>, i: nat, x: A, f: A -> nat)
    requires i < |s|
    ensures f(s[i]) <= Tally(s, f)
    ensures Tally(s[i := x], f) == Tally(s, f) - f(s[i]) + f(x)
  {
    if i == 0 {
      assert s[0 := x][1..] == s[1..];
    } else {
      assert s[i := x][1..] == s[1..][i - 1 := x];
      TallyUpdate(s[1..], i - 1, x, f);
    }
  }

  lemma {:induction false} TallyZero<A>(s: seq<A>, f: A -> nat)
    ensures Tally(s, f) == 0 <==> forall i :: 0 <= i < |s| ==> f(s[i]) == 0
  {
    if s != [] {
      TallyZero(s[1..], f);
      assert forall i :: 0 < i < |s| ==> s[i] == s[1..][i - 1];
      assert forall i :: 0 <= i < |s| - 1 ==> s[1..][i] == s[i + 1];
    }
  }

  /** Having no duplicates is a property of the contents alone. */
  lemma {:induction false} NoDupOccurs<T>(s: seq<T>)
    ensures NoDup(s) <==> forall x :: Occurs(s, x) <= 1
    decreases |s|
  {
    if s != [] {
      var n := |s| - 1;
      var p, x := s[..n], s[n];
      assert s == p + [x];
      forall y ensures Occurs(s, y) == Occurs(p, y) + (if y == x then 1 else 0) { OccursConcat(p, [x], y); }
      NoDupOccurs(p);
      assert x in p <==> Occurs(p, x) > 0;
      if NoDup(s) {
        assert NoDup(p) && x !in p;
      } else {
        var i, j :| 0 <= i < j < |s| && s[i] == s[j];
        if j < n {
          assert p[i] == p[j];
          var y :| Occurs(p, y) > 1;
          assert Occurs(s, y) > 1;
        } else {
          assert p[i] == x;
          assert Occurs(s, x) > 1;
        }
      }
    }
  }

  /** The numbers below `n`. */
  function UpTo(n: nat): (r: set<nat>)
    ensures |r| == n
    ensures forall k: nat :: k in r <==> k < n
  {
    if n == 0 then {} else UpTo(n - 1) + {n - 1}
  }

  function Elements<T>(s: seq<T>): set<T> {
    set x | x in s
  }

  lemma {:induction false} DistinctSize<T>(s: seq<T>)
    requires NoDup(s)
    ensures |Elements(s)| == |s|
  {
    if s != [] {
      var p, last := s[..|s| - 1], s[|s| - 1];
      assert s == p + [last];
      DistinctSize(p);
      assert Elements(s) == Elements(p) + {last};
    }
  }

  lemma SubsetSize<T>(a: set<T>, b: set<T>)
    requires a <= b
    ensures |a| <= |b|
    ensures |a| == |b| ==> a == b
  {
    assert b == a + (b - a);
  }

  lemma NoDupConcat<T>(a: seq<T>, b: seq<T>)
    requires NoDup(a) && NoDup(b) && forall x :: x in a ==> x !in b
    ensures NoDup(a + b)
  {
    forall i, j | 0 <= i < j < |a + b| ensures (a + b)[i] != (a + b)[j] {
      if i < |a| <= j { assert a[i] in a && b[j - |a|] in b; }
    }
  }

  function SaturatingSub(a: nat, b: nat): nat {
    if a < b then 0 else a - b
  }

  lemma ProductPositive(a: real, b: real)
    requires a > 0.0 && b > 0.0
    ensures a * b > 0.0
  {
  }

  lemma ProductDifference(a: real, b: real, c: real)
    ensures (a - b) * c == a * c - b * c
  {
  }

  /** Comparing after scaling by a positive factor is comparing before. */
  lemma ScaleCompare(a: real, b: real, c: real)
    requires c > 0.0
    ensures a * c < b * c <==> a < b
    ensures a * c <= b * c <==> a <= b
  {
    ProductDifference(a, b, c);
    ProductDifference(b, a, c);
    if a < b { ProductPositive(b - a, c); }
    if a > b { ProductPositive(a - b, c); }
  }
}
