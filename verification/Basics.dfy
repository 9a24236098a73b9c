/** Rounding and the order of names, as Python has them. */
module Basics {
  /** Python's `round` to an integer: halves go to the even neighbour. */
  function RoundHalfEven(x: real): int {
    var floor := x.Floor;
    var rest := x - floor as real;
    if rest < 0.5 then floor
    else if rest > 0.5 then floor + 1
    else if floor % 2 == 0 then floor
    else floor + 1
  }

  lemma {:induction false} RoundMonotone(x: real, y: real)
    requires x <= y
    ensures RoundHalfEven(x) <= RoundHalfEven(y)
  {
    if x.Floor < y.Floor {
      assert RoundHalfEven(x) <= x.Floor + 1;
    }
  }

  /** No integer is nearer, and of two equally near ones the even one is taken. */
  lemma {:induction false} RoundNearest(x: real, n: int)
    ensures var error := RoundHalfEven(x) as real - x;
            && -0.5 <= error <= 0.5 && (error == 0.5 || error == -0.5 ==> RoundHalfEven(x) % 2 == 0)
    ensures RoundHalfEven(x) != n && n as real - x <= 0.5 && x - n as real <= 0.5 ==> n % 2 == 1
  {
    var rest := x - x.Floor as real;
    if n as real - x <= 0.5 && x - n as real <= 0.5 {
      assert n == x.Floor || n == x.Floor + 1;
    }
  }

  /** Whether one string sorts before another one or is the same, character by character. */
  predicate NameAtMost(a: string, b: string) {
    a == [] || (b != [] && (a[0] < b[0] || (a[0] == b[0] && NameAtMost(a[1..], b[1..]))))
  }

  /** A prefix comes first, and otherwise the first character that differs decides. */
  lemma {:induction false} NameOrder(a: string, b: string, n: nat)
    requires n <= |a| && n <= |b| && a[..n] == b[..n]
    ensures n == |a| ==> NameAtMost(a, b)
    ensures n == |b| < |a| ==> !NameAtMost(a, b)
    ensures n < |a| && n < |b| && a[n] != b[n] ==> (NameAtMost(a, b) <==> a[n] < b[n])
  {
    if n > 0 {
      assert a[0] == a[..n][0] == b[..n][0] == b[0];
      assert a[1..][..n - 1] == a[..n][1..] == b[..n][1..] == b[1..][..n - 1];
      NameOrder(a[1..], b[1..], n - 1);
    }
  }

  lemma {:induction false} NameTotal(a: string, b: string)
    ensures NameAtMost(a, b) || NameAtMost(b, a)
  {
    if a != [] && b != [] {
      NameTotal(a[1..], b[1..]);
    }
  }

  lemma {:induction false} NameTransitive(a: string, b: string, c: string)
    requires NameAtMost(a, b) && NameAtMost(b, c)
    ensures NameAtMost(a, c)
  {
    if a != [] && a[0] == b[0] && b[0] == c[0] {
      NameTransitive(a[1..], b[1..], c[1..]);
    }
  }

  lemma {:induction false} NamesAntisymmetric(a: string, b: string)
    requires NameAtMost(a, b) && NameAtMost(b, a)
    ensures a == b
  {
    if a == [] {
    } else {
      NamesAntisymmetric(a[1..], b[1..]);
      assert a == [a[0]] + a[1..] && b == [b[0]] + b[1..];
    }
  }
}
