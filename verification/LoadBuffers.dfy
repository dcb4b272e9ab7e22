/**
 The load buffer: loads of expired slots are added up, apart from those of a warm-up phase, and the last of them
 are kept aside so that a cool-down phase can be dropped again.
 */
module LoadBuffers {
  import opened Common

  const SLOTS_TO_DROP_ON_START: int := 50
  const SLOTS_TO_DROP_ON_END: int := 50

  ghost function Sum(s: seq<int>): int {
    if s == [] then 0 else Sum(s[..|s| - 1]) + s[|s| - 1]
  }

  /** Sums add up, and a single element is its own sum. */
  lemma {:induction false} SumConcat(a: seq<int>, b: seq<int>)
    ensures Sum(a + b) == Sum(a) + Sum(b)
    ensures |a| == 1 ==> Sum(a) == a[0]
  {
    if b == [] {
      assert a + b == a;
    } else {
      assert (a + b)[..|a + b| - 1] == a + b[..|b| - 1];
      SumConcat(a, b[..|b| - 1]);
    }
  }

  lemma {:induction false} SumOfZeros(s: seq<int>)
    requires forall i :: 0 <= i < |s| ==> s[i] == 0
    ensures Sum(s) == 0
  {
    if s != [] {
      SumOfZeros(s[..|s| - 1]);
    }
  }

  ghost function Zeros(n: nat): seq<int> {
    seq(n, i => 0)
  }

  /** The last n elements, or all if there are fewer. */
  function LastOf(s: seq<int>, n: nat): seq<int> {
    if |s| <= n then s else s[|s| - n..]
  }

  ghost function AllButLast(s: seq<int>, n: nat): seq<int> {
    if |s| <= n then [] else s[..|s| - n]
  }

  lemma NoSum()
    ensures forall s: seq<int> :: |s| == 0 ==> Sum(s) == 0
  {
  }

  lemma SumStep(s: seq<int>, i: nat)
    requires i < |s|
    ensures Sum(s[..i + 1]) == Sum(s[..i]) + s[i]
  {
    assert s[..i + 1][..i] == s[..i];
  }

  lemma SumWithoutLast(s: seq<int>, n: nat)
    ensures Sum(AllButLast(s, n)) == Sum(s) - Sum(LastOf(s, n))
  {
    assert s == AllButLast(s, n) + LastOf(s, n);
    SumConcat(AllButLast(s, n), LastOf(s, n));
  }

  lemma LastOfGrows(s: seq<int>, x: int, n: nat)
    requires n > 0
    ensures LastOf(s + [x], n) == (if |LastOf(s, n)| >= n then LastOf(s, n)[1..] else LastOf(s, n)) + [x]
  {
  }

  lemma ZerosGrow(n: nat)
    ensures Zeros(n + 1) == Zeros(n) + [0]
  {
  }

  /** Zeros change no sum, and enough of them fill the end of a sequence. */
  lemma ZerosAtEnd(s: seq<int>, n: nat, m: nat)
    ensures Sum(s + Zeros(n)) == Sum(s)
    ensures m <= n ==> LastOf(s + Zeros(n), m) == Zeros(m)
    ensures s + Zeros(0) == s
  {
    SumConcat(s, Zeros(n));
    SumOfZeros(Zeros(n));
  }

  /** Where loads were observed first and last, over all buffers that share the context. */
  class GlobalLoadContext {
    var first: int
    var last: int

    constructor ()
      ensures first == I64_MAX && last == -1
    {
      first, last := I64_MAX, -1;
    }

    method UpdateFirstLoad(index: int)
      modifies this`first
      ensures first == Min(old(first), index)
    {
      if index < first {
        first := index;
      }
    }

    method UpdateLastLoad(index: int)
      modifies this`last
      ensures last == Max(old(last), index)
    {
      if index > last {
        last := index;
      }
    }
  }

  /** The buffer and its context as a value; logged is everything accepted since the warm-up phase, zeros included. */
  datatype LoadState = LoadState(first: int, last: int, lastLocal: int, sinceLast: nat, logged: seq<int>)

  const FRESH: LoadState := LoadState(I64_MAX, -1, 0, 0, [])

  /** One more load, of the slot with the index given. */
  ghost function Added(s: LoadState, load: int, index: int): LoadState {
    if load <= 0 then s.(sinceLast := s.sinceLast + 1)
    else
      var i := Max(0, index);
      var first := Min(s.first, i);
      var seen := s.(first := first, last := Max(s.last, i), lastLocal := i);
      if first == I64_MAX then seen
      else if i - first > SLOTS_TO_DROP_ON_START then
        seen.(sinceLast := 0, logged := s.logged + Zeros(s.sinceLast) + [load])
      else seen.(sinceLast := 0)
  }

  /** The number of slots the effective load is averaged over, if it is positive. */
  ghost function SlotsAveraged(s: LoadState): int {
    s.last - SLOTS_TO_DROP_ON_END - (s.first + SLOTS_TO_DROP_ON_START)
  }

  /** The average load; none if there was no load at all, or none between the phases. */
  function Mean(first: int, reserved: int, slots: int): real {
    if first == I64_MAX || slots <= 0 then 0.0 else reserved as real / slots as real
  }

  /** The average makes the reserved total when it is taken for every slot; it is zero where there is nothing to average. */
  predicate IsMean(average: real, first: int, reserved: int, slots: int) {
    if first == I64_MAX || slots <= 0 then average == 0.0 else average * slots as real == reserved as real
  }

  lemma MeanIsMean(first: int, reserved: int, slots: int)
    ensures IsMean(Mean(first, reserved, slots), first, reserved, slots)
  {
  }

  class LoadBuffer {
    const context: GlobalLoadContext
    var lastLocal: int
    var sinceLast: int
    var sum: int
    var tail: seq<int>
    ghost var logged: seq<int>

    /** The sum covers everything logged, and the tail is its end. */
    ghost predicate Valid()
      reads this
    {
      && sinceLast >= 0
      && sum == Sum(logged)
      && tail == LastOf(logged, SLOTS_TO_DROP_ON_END)
    }

    ghost function Value(): LoadState
      requires Valid()
      reads this, context
    {
      LoadState(context.first, context.last, lastLocal, sinceLast, logged)
    }

    constructor (context: GlobalLoadContext)
      ensures this.context == context && Valid()
      ensures lastLocal == 0 && sinceLast == 0 && logged == []
    {
      this.context := context;
      lastLocal, sinceLast, sum, tail := 0, 0, 0, [];
      logged := [];
    }

    method AddIntern(load: int)
      requires Valid()
      modifies this`sum, this`tail, this`logged
      ensures Valid() && logged == old(logged) + [load]
    {
      sum := sum + load;
      if |tail| >= SLOTS_TO_DROP_ON_END {
        tail := tail[1..];
      }
      tail := tail + [load];
      LastOfGrows(logged, load, SLOTS_TO_DROP_ON_END);
      assert (logged + [load])[..|logged|] == logged;
      logged := logged + [load];
    }

    /** Many zeros at once: beyond the size of the tail they simply fill it. */
    method AddZerosIntern(count: int)
      requires Valid()
      modifies this`tail, this`logged
      ensures Valid() && logged == old(logged) + Zeros(Max(0, count))
    {
      if count <= 0 {
        return;
      }
      ZerosAtEnd(logged, count, SLOTS_TO_DROP_ON_END);
      if count >= SLOTS_TO_DROP_ON_END {
        FillTail();
      } else {
        PushZeros(count, logged);
      }
      logged := logged + Zeros(count);
    }

    method FillTail()
      modifies this`tail
      ensures tail == Zeros(SLOTS_TO_DROP_ON_END)
    {
      tail := [];
      for i := 0 to SLOTS_TO_DROP_ON_END
        invariant tail == Zeros(i)
      {
        tail := tail + [0];
      }
    }

    method PushZeros(count: nat, ghost before: seq<int>)
      requires tail == LastOf(before, SLOTS_TO_DROP_ON_END)
      modifies this`tail
      ensures tail == LastOf(before + Zeros(count), SLOTS_TO_DROP_ON_END)
    {
      hide LastOf, Zeros;
      ZerosAtEnd(before, 0, 0);
      for i := 0 to count
        invariant tail == LastOf(before + Zeros(i), SLOTS_TO_DROP_ON_END)
      {
        ZerosGrow(i);
        LastOfGrows(before + Zeros(i), 0, SLOTS_TO_DROP_ON_END);
        if |tail| >= SLOTS_TO_DROP_ON_END {
          tail := tail[1..];
        }
        tail := tail + [0];
        assert before + Zeros(i + 1) == before + Zeros(i) + [0];
      }
    }

    method Add(load: int, index: int)
      requires Valid()
      modifies this, context
      ensures Valid() && Value() == Added(old(Value()), load, index)
    {
      if load <= 0 {
        sinceLast := sinceLast + 1;
        return;
      }
      var effective := if index < 0 then 0 else index;
      context.UpdateFirstLoad(effective);
      context.UpdateLastLoad(effective);
      lastLocal := effective;
      var first := context.first;
      if first == I64_MAX {
        return;
      }
      if effective - first > SLOTS_TO_DROP_ON_START {
        AddZerosIntern(sinceLast);
        AddIntern(load);
      }
      sinceLast := 0;
    }

    /**
     The load between the warm-up and the cool-down phase, and the number of slots it is to be averaged over. If a
     buffer with the same context saw load later, the slots since count as empty.
     */
    method GetEffectiveOverallLoad() returns (reserved: int, slots: int, average: real)
      requires Valid()
      modifies this
      ensures Valid() && sum == old(sum) && sinceLast == old(sinceLast)
      ensures logged == old(logged) + Zeros(Max(0, context.last - old(lastLocal)))
      ensures lastLocal == Max(old(lastLocal), context.last)
      ensures reserved == Sum(AllButLast(logged, SLOTS_TO_DROP_ON_END))
      ensures slots == SlotsAveraged(Value())
      ensures IsMean(average, context.first, reserved, slots)
    {
      var last := context.last;
      var empty := last - lastLocal;
      if empty > 0 {
        AddZerosIntern(empty);
        lastLocal := last;
      }
      assert logged == old(logged) + Zeros(Max(0, empty));
      hide Sum, LastOf, AllButLast, Mean, IsMean;
      var buffered := 0;
      NoSum();
      for i := 0 to |tail|
        invariant buffered == Sum(tail[..i])
        modifies {}
      {
        SumStep(tail, i);
        buffered := buffered + tail[i];
      }
      assert tail[..|tail|] == tail;
      SumWithoutLast(logged, SLOTS_TO_DROP_ON_END);
      reserved := sum - buffered;
      slots := last - SLOTS_TO_DROP_ON_END - (context.first + SLOTS_TO_DROP_ON_START);
      MeanIsMean(context.first, reserved, slots);
      average := Mean(context.first, reserved, slots);
    }
  }

  /** A buffer with a context of its own, after the loads of consecutive slots from index base on. */
  ghost function Recorded(loads: seq<int>, base: int): LoadState {
    if loads == [] then FRESH
    else Added(Recorded(loads[..|loads| - 1], base), loads[|loads| - 1], base + |loads| - 1)
  }

  /** Loads are never negative, and indices stay in the range of the integers the program uses. */
  ghost predicate Loads(loads: seq<int>, base: int) {
    && 0 <= base && base + |loads| <= I64_MAX
    && forall i :: 0 <= i < |loads| ==> loads[i] >= 0
  }

  ghost predicate IsFirstLoad(loads: seq<int>, f: nat) {
    f < |loads| && loads[f] > 0 && forall i :: 0 <= i < f ==> loads[i] == 0
  }

  /** The last load among the first n slots. */
  ghost predicate IsLastLoad(loads: seq<int>, n: nat, q: nat) {
    q < |loads| && q < n && loads[q] > 0 && forall i :: q < i < |loads| && i < n ==> loads[i] == 0
  }

  lemma {:induction false} LastLoadExists(loads: seq<int>, n: nat, f: nat) returns (q: nat)
    requires f < |loads| && f < n && loads[f] > 0 && forall i :: 0 <= i < |loads| ==> loads[i] >= 0
    ensures f <= q && IsLastLoad(loads, n, q)
  {
    q := Min(|loads|, n) - 1;
    while loads[q] == 0
      invariant f <= q < |loads| && q < n
      invariant forall i :: q < i < |loads| && i < n ==> loads[i] == 0
      decreases q
    {
      q := q - 1;
    }
  }

  lemma {:induction false} NoLoadRecorded(loads: seq<int>, base: int)
    requires forall i :: 0 <= i < |loads| ==> loads[i] == 0
    ensures Recorded(loads, base) == FRESH.(sinceLast := |loads|)
  {
    if loads != [] {
      NoLoadRecorded(loads[..|loads| - 1], base);
    }
  }

  /**
   What is logged is one stretch of consecutive slots: it starts behind the last load of the warm-up phase and ends
   with the latest load.
   */
  lemma {:induction false} LoggedStretch(loads: seq<int>, base: int, f: nat, p: nat, q: nat)
    requires Loads(loads, base) && IsFirstLoad(loads, f)
    requires IsLastLoad(loads, f + SLOTS_TO_DROP_ON_START + 1, p) && IsLastLoad(loads, |loads|, q)
    ensures f <= p <= q
    ensures Recorded(loads, base) ==
            LoadState(base + f, base + q, base + q, |loads| - 1 - q, loads[p + 1..q + 1])
    decreases |loads|, 1
  {
    var n := |loads| - 1;
    var init := loads[..n];
    assert Recorded(loads, base) == Added(Recorded(init, base), loads[n], base + n);
    hide Recorded;
    if loads[n] == 0 {
      LoggedStretch(init, base, f, p, q);
      assert init[p + 1..q + 1] == loads[p + 1..q + 1];
    } else if f == n {
      NoLoadRecorded(init, base);
      assert loads[p + 1..q + 1] == [];
    } else {
      LoggedStretchGrows(loads, base, f, p);
    }
  }

  /** A load that is not the first. */
  lemma {:induction false} LoggedStretchGrows(loads: seq<int>, base: int, f: nat, p: nat)
    requires Loads(loads, base) && IsFirstLoad(loads, f) && f < |loads| - 1 && loads[|loads| - 1] > 0
    requires IsLastLoad(loads, f + SLOTS_TO_DROP_ON_START + 1, p)
    ensures f <= p
    ensures Added(Recorded(loads[..|loads| - 1], base), loads[|loads| - 1], base + |loads| - 1) ==
            LoadState(base + f, base + |loads| - 1, base + |loads| - 1, 0, loads[p + 1..])
    decreases |loads|, 0
  {
    var n := |loads| - 1;
    var init := loads[..n];
    var q := LastLoadExists(init, n, f);
    hide Recorded;
    if n - f > SLOTS_TO_DROP_ON_START {
      LoggedStretch(init, base, f, p, q);
      StretchGrows(loads, p, q);
    } else {
      LoggedStretch(init, base, f, q, q);
      assert loads[p + 1..] == [];
    }
  }

  /** The zeros since the last load and the new load extend the stretch. */
  lemma StretchGrows(loads: seq<int>, p: nat, q: nat)
    requires p <= q < |loads| - 1 && forall i :: q < i < |loads| - 1 ==> loads[i] == 0
    ensures loads[p + 1..] == loads[..|loads| - 1][p + 1..q + 1] + Zeros(|loads| - 2 - q) + [loads[|loads| - 1]]
    ensures loads[p + 1..] == loads[p + 1..|loads|]
  {
  }

  /**
   Together this is what the buffer is for: the effective load is the sum over exactly those slots that lie more
   than the warm-up phase behind the first load and at least the cool-down phase before the last, and the number of
   slots it is averaged over is the number of these.
   */
  lemma EffectiveLoadIsTheMiddle(loads: seq<int>, base: int, f: nat, q: nat)
    requires Loads(loads, base) && IsFirstLoad(loads, f) && IsLastLoad(loads, |loads|, q)
    ensures var from, to := f + SLOTS_TO_DROP_ON_START + 1, q - SLOTS_TO_DROP_ON_END + 1;
            Sum(AllButLast(Recorded(loads, base).logged, SLOTS_TO_DROP_ON_END)) == if from < to then Sum(loads[from..to]) else 0
    ensures var from, to := f + SLOTS_TO_DROP_ON_START + 1, q - SLOTS_TO_DROP_ON_END + 1;
            SlotsAveraged(Recorded(loads, base)) == to - from
  {
    var from, to := f + SLOTS_TO_DROP_ON_START + 1, q - SLOTS_TO_DROP_ON_END + 1;
    var p := LastLoadExists(loads, from, f);
    LoggedStretch(loads, base, f, p, q);
    hide Recorded, Sum;
    var kept := AllButLast(Recorded(loads, base).logged, SLOTS_TO_DROP_ON_END);
    if p + 1 < to {
      assert kept == loads[p + 1..to];
      NothingUpTo(loads, from, p, to);
    } else {
      assert kept == [];
    }
  }

  /** The slots behind p carry no load up to from. */
  lemma NothingUpTo(loads: seq<int>, from: nat, p: nat, to: nat)
    requires p + 1 < to <= |loads| && p < from && forall i :: p < i < |loads| && i < from ==> loads[i] == 0
    ensures Sum(loads[p + 1..to]) == if from < to then Sum(loads[from..to]) else 0
  {
    if from < to {
      assert loads[p + 1..to] == loads[p + 1..from] + loads[from..to];
      SumConcat(loads[p + 1..from], loads[from..to]);
      SumOfZeros(loads[p + 1..from]);
    } else {
      SumOfZeros(loads[p + 1..to]);
    }
  }
}
