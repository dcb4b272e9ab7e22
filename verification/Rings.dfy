/** A window of n consecutive indices kept in a ring of n places: index v is kept at place v modulo n. */
module Rings {
  import opened Common
  import opened Slots
  import opened Timeline

  lemma {:induction false} ModuloShift(x: int, q: int, n: int)
    requires n > 0
    ensures (x + q * n) % n == x % n
  {
    var a, b := x / n, (x + q * n) / n;
    var r, t := x % n, (x + q * n) % n;
    assert x == a * n + r && x + q * n == b * n + t;
    assert (a + q - b) * n == t - r by {
      assert (a + q - b) * n == a * n + q * n - b * n;
    }
    MultipleBelow(a + q - b, n, t - r);
  }

  lemma MultipleBelow(k: int, n: int, d: int)
    requires n > 0 && k * n == d && -n < d < n
    ensures k == 0 && d == 0
  {
    if k >= 1 {
      MulMono(n, 1, k);
    } else if k <= -1 {
      MulMono(n, k, -1);
    }
  }

  /** Two indices of one window never share a place. */
  lemma PlacesDiffer(u: int, v: int, n: int)
    requires n > 0 && -n < u - v < n && u % n == v % n
    ensures u == v
  {
    var a, b := u / n, v / n;
    assert u == a * n + u % n && v == b * n + v % n;
    assert (a - b) * n == u - v by {
      assert (a - b) * n == a * n - b * n;
    }
    MultipleBelow(a - b, n, u - v);
  }

  /** Every place of the ring holds some index of the window. */
  lemma PlaceTaken(start: int, n: int, place: int) returns (k: nat)
    requires n > 0 && 0 <= place < n
    ensures k < n && (start + k) % n == place
  {
    k := (place - start) % n;
    var q := (place - start) / n;
    assert place - start == q * n + k;
    ModuloShift(start + k, q, n);
    assert place % n == place;
  }

  /** The window as a sequence: the place of its first index first. */
  ghost function Window(ring: seq<Cell>, start: int): seq<Cell>
    requires ring != []
  {
    seq(|ring|, k requires 0 <= k < |ring| => ring[(start + k) % |ring|])
  }

  /** Changing one slot of the ring changes that slot of the window, wherever the window wraps around. */
  lemma WindowUpdate(ring: seq<Cell>, start: int, v: int, c: Cell)
    requires ring != [] && start <= v < start + |ring|
    ensures 0 <= v % |ring| < |ring|
    ensures Window(ring[v % |ring| := c], start) == Window(ring, start)[v - start := c]
  {
    var n := |ring|;
    var after := ring[v % n := c];
    forall k | 0 <= k < n ensures Window(after, start)[k] == Window(ring, start)[v - start := c][k] {
      if (start + k) % n == v % n {
        PlacesDiffer(start + k, v, n);
      }
    }
  }

  /** Moving the start of the window on is a rotation of the sequence. */
  lemma WindowRotates(ring: seq<Cell>, start: int, d: nat, k: nat)
    requires ring != [] && k < |ring|
    ensures 0 <= (k + d) % |ring| < |ring|
    ensures Window(ring, start + d)[k] == Window(ring, start)[(k + d) % |ring|]
  {
    var n := |ring|;
    var q := (k + d) / n;
    assert k + d == q * n + (k + d) % n;
    ModuloShift(start + (k + d) % n, q, n);
  }

  /** The slots of the window with the first m emptied. */
  ghost function FrontEmptied(cells: seq<Cell>, m: nat): seq<Cell> {
    seq(|cells|, k requires 0 <= k < |cells| => if k < m then Emptied(cells[k]) else cells[k])
  }

  /**
   The ring refines the endless timeline: emptying the places of the slots that leave the window, all of them if the
   window jumps that far, and moving the start on, exposes the remaining slots and behind them empty ones.
   */
  lemma RingAdvances(ring: seq<Cell>, after: seq<Cell>, start: int, d: nat)
    requires ring != [] && |after| == |ring|
    requires Window(after, start) == FrontEmptied(Window(ring, start), d)
    ensures Window(after, start + d) == Shifted(Window(ring, start), d)
  {
    forall k | 0 <= k < |ring| ensures Window(after, start + d)[k] == Shifted(Window(ring, start), d)[k] {
      AdvanceAt(ring, after, start, d, k);
    }
  }

  lemma AdvanceAt(ring: seq<Cell>, after: seq<Cell>, start: int, d: nat, k: nat)
    requires ring != [] && |after| == |ring| && k < |ring|
    requires Window(after, start) == FrontEmptied(Window(ring, start), d)
    ensures Window(after, start + d)[k] == Shifted(Window(ring, start), d)[k]
  {
    WindowRotates(after, start, d, k);
    RemainderIsLess(k + d, |ring|, d);
    ShiftedCell(Window(ring, start), d, k);
    hide Shifted, Window;
    var j := (k + d) % |ring|;
    assert Window(after, start)[j] == FrontEmptied(Window(ring, start), d)[j];
  }

  lemma RemainderIsLess(x: int, n: int, d: int)
    requires n > 0 && 0 <= d <= x < n + d
    ensures 0 <= x % n < n && (if x < n then x % n == x else x % n < d)
  {
    var q := x / n;
    assert x == q * n + x % n;
    if q <= 0 {
      MulMono(n, q, 0);
    } else {
      MulMono(n, 1, q);
    }
  }
}
