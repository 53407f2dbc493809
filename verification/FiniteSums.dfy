/** Finite sets: the elements of a sequence, sums of integer-valued functions, and taking out an element. */
module FiniteSums {

  /** Any element; stands for a traversal whose order is left open. */
  method Pick<T(==)>(s: set<T>) returns (x: T)
    requires s != {}
    ensures x in s
  {
    x :| x in s;
  }

  lemma Witness<T>(s: set<T>) returns (x: T)
    requires s != {}
    ensures x in s
  {
    x :| x in s;
  }

  lemma SameMap<K, V>(a: map<K, V>, b: map<K, V>)
    requires forall k | k in a :: k in b && a[k] == b[k]
    requires forall k | k in b :: k in a
    ensures a == b
  {
  }

  lemma {:induction false} SubsetSize<T>(a: set<T>, b: set<T>)
    requires a <= b
    ensures |a| <= |b|
    decreases a
  {
    if a != {} {
      var x :| x in a;
      SubsetSize(a - {x}, b - {x});
    }
  }

  ghost function Elems<T>(s: seq<T>): set<T>
  {
    set x | x in s
  }

  ghost predicate Distinct<T>(s: seq<T>)
  {
    forall i, j | 0 <= i < j < |s| :: s[i] != s[j]
  }

  /** What `part` lists at all, it lists as often as `all` does. */
  ghost predicate Restricts<T>(part: seq<T>, all: seq<T>)
  {
    forall x | x in part :: multiset(part)[x] == multiset(all)[x]
  }

  ghost function Sum<T>(s: set<T>, f: T -> int): int
  {
    if s == {} then 0 else var x :| x in s; f(x) + Sum(s - {x}, f)
  }

  /** The sum does not depend on which element is taken out first. */
  lemma {:induction false} SumRemove<T>(s: set<T>, x: T, f: T -> int)
    requires x in s
    ensures Sum(s, f) == f(x) + Sum(s - {x}, f)
    decreases s
  {
    var y :| y in s && Sum(s, f) == f(y) + Sum(s - {y}, f);
    if y != x {
      SumRemove(s - {y}, x, f);
      SumRemove(s - {x}, y, f);
      assert s - {y} - {x} == s - {x} - {y};
    }
  }

  lemma {:induction false} SumLe<T>(s: set<T>, f: T -> int, g: T -> int)
    requires forall x | x in s :: f(x) <= g(x)
    ensures Sum(s, f) <= Sum(s, g)
    decreases s
  {
    if s != {} {
      var x :| x in s;
      SumRemove(s, x, f);
      SumRemove(s, x, g);
      SumLe(s - {x}, f, g);
    }
  }

  lemma SumSame<T>(s: set<T>, f: T -> int, g: T -> int)
    requires forall x | x in s :: f(x) == g(x)
    ensures Sum(s, f) == Sum(s, g)
  {
    SumLe(s, f, g);
    SumLe(s, g, f);
  }

  lemma {:induction false} SumZero<T>(s: set<T>, f: T -> int)
    requires forall x | x in s :: f(x) == 0
    ensures Sum(s, f) == 0
    decreases s
  {
    if s != {} {
      var x :| x in s;
      SumRemove(s, x, f);
      SumZero(s - {x}, f);
    }
  }

  lemma {:induction false} SumOnes<T>(s: set<T>, f: T -> int)
    requires forall x | x in s :: f(x) == 1
    ensures Sum(s, f) == |s|
    decreases s
  {
    if s != {} {
      var x :| x in s;
      SumRemove(s, x, f);
      SumOnes(s - {x}, f);
    }
  }

  lemma {:induction false} SumDisjoint<T>(a: set<T>, b: set<T>, f: T -> int)
    requires a !! b
    ensures Sum(a + b, f) == Sum(a, f) + Sum(b, f)
    decreases a
  {
    if a == {} {
      assert a + b == b;
    } else {
      var x :| x in a;
      SumRemove(a, x, f);
      SumRemove(a + b, x, f);
      SumDisjoint(a - {x}, b, f);
      assert a + b - {x} == (a - {x}) + b;
    }
  }

  /** Changing a function at one point changes the sum by the difference there. */
  lemma SumUpdate<T>(s: set<T>, x: T, f: T -> int, g: T -> int)
    requires x in s
    requires forall y | y in s && y != x :: f(y) == g(y)
    ensures Sum(s, g) == Sum(s, f) - f(x) + g(x)
  {
    SumRemove(s, x, f);
    SumRemove(s, x, g);
    SumSame(s - {x}, f, g);
  }

  lemma SumSubset<T>(a: set<T>, b: set<T>, f: T -> int)
    requires a <= b
    requires forall x | x in b :: f(x) >= 0
    ensures Sum(a, f) <= Sum(b, f)
  {
    SumDisjoint(a, b - a, f);
    assert a + (b - a) == b;
    SumLe(b - a, x => 0, f);
    SumZero(b - a, x => 0);
  }

  /** A sum transported along an injective renaming. */
  lemma {:induction false} SumImage<T, U>(a: set<T>, b: set<U>, m: T -> U, f: T -> int, g: U -> int)
    requires forall x | x in a :: m(x) in b && g(m(x)) == f(x)
    requires forall x, y | x in a && y in a && m(x) == m(y) :: x == y
    requires forall u | u in b :: g(u) >= 0
    ensures Sum(a, f) <= Sum(b, g)
    decreases a
  {
    if a == {} {
      SumLe(b, u => 0, g);
      SumZero(b, u => 0);
    } else {
      var x :| x in a;
      SumRemove(a, x, f);
      SumRemove(b, m(x), g);
      SumImage(a - {x}, b - {m(x)}, m, f, g);
    }
  }
}
