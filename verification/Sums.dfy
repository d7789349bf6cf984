/** Sums over finite sets of days. */
module Sums {
  ghost function Pick<T>(s: set<T>): (x: T)
    requires s != {}
    ensures x in s
  {
    var x :| x in s;
    x
  }

  ghost function Sum(s: set<int>, f: int -> int): int {
    if s == {} then 0 else
      var x := Pick(s);
      f(x) + Sum(s - {x}, f)
  }

  /** The order in which the days are added does not matter. */
  lemma {:induction false} SumTake(s: set<int>, f: int -> int, x: int)
    requires x in s
    ensures Sum(s, f) == f(x) + Sum(s - {x}, f)
  {
    var y := Pick(s);
    if y != x {
      SumTake(s - {y}, f, x);
      SumTake(s - {x}, f, y);
      assert s - {y} - {x} == s - {x} - {y};
    }
  }

  lemma {:induction false} SumAdd(s: set<int>, f: int -> int, g: int -> int, h: int -> int)
    requires forall x :: x in s ==> h(x) == f(x) + g(x)
    ensures Sum(s, h) == Sum(s, f) + Sum(s, g)
  {
    if s != {} {
      var x := Pick(s);
      SumTake(s, f, x);
      SumTake(s, g, x);
      SumTake(s, h, x);
      SumAdd(s - {x}, f, g, h);
    }
  }

  lemma {:induction false} SumCongruent(s: set<int>, f: int -> int, g: int -> int)
    requires forall x :: x in s ==> f(x) == g(x)
    ensures Sum(s, f) == Sum(s, g)
  {
    if s != {} {
      var x := Pick(s);
      SumTake(s, f, x);
      SumTake(s, g, x);
      SumCongruent(s - {x}, f, g);
    }
  }

  lemma {:induction false} SumZero(s: set<int>, f: int -> int)
    requires forall x :: x in s ==> f(x) == 0
    ensures Sum(s, f) == 0
  {
    if s != {} {
      var x := Pick(s);
      SumTake(s, f, x);
      SumZero(s - {x}, f);
    }
  }

  /** A constant on `n` days inside `s`, and zero elsewhere, adds up to constant times `n`. */
  lemma {:induction false} SumOfRun(s: set<int>, from: int, n: nat, c: int, f: int -> int)
    requires forall x :: from <= x < from + n ==> x in s
    requires forall x :: x in s ==> f(x) == if from <= x < from + n then c else 0
    ensures Sum(s, f) == c * n
    decreases n
  {
    if n == 0 {
      SumZero(s, f);
    } else {
      SumTake(s, f, from);
      SumOfRun(s - {from}, from + 1, n - 1, c, f);
      assert c * n == c * (n - 1) + c;
    }
  }
}
