/** Datatypes and constants shared by every component of the model. */
module Common {

  datatype Option<+T> = None | Some(value: T)

  /** The bounds of the 64-bit integers that the program uses as sentinels ("not set", "no load yet"). */
  const I64_MIN: int := -0x8000_0000_0000_0000
  const I64_MAX: int := 0x7fff_ffff_ffff_ffff

  /** No element occurs twice. */
  ghost predicate Distinct<T(!new)>(s: seq<T>) {
    forall i, j :: 0 <= i < j < |s| ==> s[i] != s[j]
  }

  ghost function Elements<T(!new)>(s: seq<T>): set<T> {
    set x | x in s
  }

  function Min(a: int, b: int): int {
    if a <= b then a else b
  }

  function Max(a: int, b: int): int {
    if a >= b then a else b
  }

  /** Integer division as the program performs it: the quotient is cut towards zero. */
  function TruncDiv(a: int, b: int): int
    requires b != 0
  {
    if a >= 0 then a / b else -((-a) / b)
  }

  /** Dividend and quotient differ by less than one divisor, and the remainder has the sign of the dividend. */
  lemma TruncDivLaw(a: int, b: int)
    requires b != 0
    ensures var rest := a - b * TruncDiv(a, b);
            && (if a >= 0 then 0 <= rest else rest <= 0)
            && (if b > 0 then -b < rest < b else b < rest < -b)
  {
    if a < 0 {
      assert -a == b * ((-a) / b) + (-a) % b;
      assert b * TruncDiv(a, b) == -(b * ((-a) / b));
    }
  }

  lemma MulMono(a: int, x: int, y: int)
    requires a >= 0 && x <= y
    ensures a * x <= a * y
  {
  }

  /** A sequence without repetition is as long as the set of its elements is large. */
  lemma {:induction false} DistinctSize<T(!new)>(s: seq<T>)
    requires Distinct(s)
    ensures |Elements(s)| == |s|
  {
    if s != [] {
      var init, last := s[..|s| - 1], s[|s| - 1];
      DistinctSize(init);
      assert last !in init;
      assert Elements(s) == Elements(init) + {last};
    }
  }

  /** A sequence without repetition over a finite set is no longer than the set is large. */
  lemma DistinctWithin<T(!new)>(s: seq<T>, universe: set<T>)
    requires Distinct(s)
    requires forall x :: x in s ==> x in universe
    ensures |s| <= |universe|
  {
    DistinctSize(s);
    SubsetSize(Elements(s), universe);
  }

  lemma {:induction false} SubsetSize<T>(a: set<T>, b: set<T>)
    requires a <= b
    ensures |a| <= |b|
    ensures a != b ==> |a| < |b|
  {
    if a == {} {
      if a != b {
        var x :| x in b;
      }
    } else {
      var x :| x in a;
      SubsetSize(a - {x}, b - {x});
    }
  }
}
