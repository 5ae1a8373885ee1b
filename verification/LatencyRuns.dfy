/** Runs of the concurrent latency ring that leave its samples, for a ring of any size. */
module LatencyRuns {
  import opened Common
  import opened GoInt
  import opened Latencies
  import opened LatencyRace

  function Last(run: seq<State>): State
    requires run != []
  {
    run[|run| - 1]
  }

  lemma Longer(run: seq<State>, n: nat, s: State) returns (longer: seq<State>)
    requires IsRun(run, n) && Next(Last(run), s) && TotalsFit(s)
    ensures longer == run + [s] && IsRun(longer, n)
  {
    longer := run + [s];
  }

  // ------------------------------------------------------------------------------------------
  // From any state in which a visible cell holds no sample, an Average can fall below all samples.

  /** The Average `id` starts at the end of `before` and goes on to the end of `run`. */
  ghost predicate Ongoing(before: seq<State>, run: seq<State>, id: nat) {
    && before != [] && before < run && ReadAdded(Last(before), run[|before|], id)
    && (forall j :: |before| <= j < |run| ==> id in run[j].readers)
  }

  lemma StillOngoing(before: seq<State>, run: seq<State>, n: nat, id: nat, s: State) returns (longer: seq<State>)
    requires Ongoing(before, run, id) && IsRun(run, n) && Next(Last(run), s) && TotalsFit(s) && id in s.readers
    ensures longer == run + [s] && IsRun(longer, n) && Ongoing(before, longer, id)
  {
    longer := Longer(run, n, s);
  }

  lemma {:induction false} FreshFrom(ids: set<nat>) returns (base: nat)
    ensures forall i :: i in ids ==> i < base
    decreases |ids|
  {
    base := 0;
    if ids != {} {
      var i :| i in ids;
      base := FreshFrom(ids - {i});
      assert ids == (ids - {i}) + {i};
      base := if base <= i then i + 1 else base;
    }
  }

  /** The slot of the i-th Add after index. */
  function SlotAt(index: int, i: nat, n: nat): nat
    requires index >= -1 && n > 0
  {
    (index + 1 + i) % n
  }

  /** Of the n Adds of value v begun after state s, the first j have stored, but for the one on `cell`. */
  ghost predicate Flooded(s: State, t: State, cell: nat, v: int, base: nat, j: nat) {
    && |t.values| == |s.values| > cell && t.index == s.index + j && s.index >= 0
    && t.smallest == s.smallest == v && t.largest == s.largest && t.readers == s.readers && t.added == s.added
    && t.values[cell] == s.values[cell]
    && (forall i: nat :: i < j && SlotAt(s.index, i, |s.values|) != cell ==>
          t.values[SlotAt(s.index, i, |s.values|)] == v)
    && (forall i :: i in t.adders ==> i < base + j)
  }

  lemma FloodOne(
      before: seq<State>, run: seq<State>, n: nat, id: nat, s: State, cell: nat, v: int, base: nat, j: nat)
      returns (longer: seq<State>)
    requires Ongoing(before, run, id) && IsRun(run, n) && n == |s.values| && 0 <= v <= s.largest
    requires Flooded(s, Last(run), cell, v, base, j)
    ensures Ongoing(before, longer, id) && IsRun(longer, n) && Flooded(s, Last(longer), cell, v, base, j + 1)
  {
    var t := Last(run);
    var slot := SlotAt(s.index, j, n);
    var claimed := t.(index := t.index + 1, adders := t.adders[base + j := Claimed(slot, v)]);
    assert Claim(t, claimed, base + j, v);
    longer := StillOngoing(before, run, n, id, claimed);
    if slot != cell {
      var stored := claimed.(values := claimed.values[slot := v], adders := claimed.adders[base + j := Stored]);
      assert Store(claimed, stored, base + j);
      longer := StillOngoing(before, longer, n, id, stored);
    }
  }

  lemma {:induction false} Flood(
      before: seq<State>, run: seq<State>, n: nat, id: nat, s: State, cell: nat, v: int, base: nat, j: nat)
      returns (longer: seq<State>)
    requires Ongoing(before, run, id) && IsRun(run, n) && n == |s.values| && 0 <= v <= s.largest && j <= n
    requires Flooded(s, Last(run), cell, v, base, j)
    ensures Ongoing(before, longer, id) && IsRun(longer, n) && Flooded(s, Last(longer), cell, v, base, n)
    decreases n - j
  {
    longer := run;
    if j < n {
      longer := FloodOne(before, longer, n, id, s, cell, v, base, j);
      longer := Flood(before, longer, n, id, s, cell, v, base, j + 1);
    }
  }

  /** n consecutive Adds reach every slot. */
  lemma SlotReached(start: nat, c: nat, n: nat) returns (i: nat)
    requires c < n
    ensures i < n && (start + i) % n == c
  {
    var q, r := start / n, start % n;
    assert start == q * n + r;
    if c >= r {
      i := c - r;
      UniqueRemainder(start + i, q, c, n);
    } else {
      i := c + n - r;
      assert (q + 1) * n == q * n + n;
      UniqueRemainder(start + i, q + 1, c, n);
    }
  }

  /** Every cell holds v, but for one, which holds less. */
  ghost predicate OneLow(t: State, cell: nat, v: int) {
    && cell < |t.values| && 0 <= t.values[cell] < v
    && (forall c :: 0 <= c < |t.values| && c != cell ==> t.values[c] == v)
  }

  lemma FloodedLeavesOneLow(s: State, t: State, cell: nat, v: int, base: nat)
    requires Flooded(s, t, cell, v, base, |s.values|) && 0 <= s.values[cell] < v
    ensures OneLow(t, cell, v)
  {
    forall c | 0 <= c < |t.values| && c != cell ensures t.values[c] == v {
      var i := SlotReached(s.index + 1, c, |s.values|);
      assert SlotAt(s.index, i, |s.values|) == c;
    }
  }

  /** Having read i cells the Average is at most at i times v, and below that once past the low cell. */
  ghost predicate ReadLow(t: State, id: nat, cell: nat, v: int, length: nat, i: nat) {
    && id in t.readers && t.readers[id].length == length && t.readers[id].i == i <= length <= |t.values|
    && 0 <= t.readers[id].total <= i * v - One(cell < i)
  }

  lemma ReadOne(
      before: seq<State>, run: seq<State>, n: nat, id: nat, cell: nat, v: int, length: nat, i: nat)
      returns (longer: seq<State>)
    requires Ongoing(before, run, id) && IsRun(run, n) && OneLow(Last(run), cell, v)
    requires ReadLow(Last(run), id, cell, v, length, i) && i < length && v == Last(run).smallest <= Last(run).largest
    ensures Ongoing(before, longer, id) && IsRun(longer, n) && ReadLow(Last(longer), id, cell, v, length, i + 1)
    ensures var t, t' := Last(run), Last(longer);
            t'.values == t.values && t'.smallest == t.smallest && t'.largest == t.largest && t'.results == t.results
  {
    var t := Last(run);
    var r := t.readers[id];
    var total := r.total + t.values[i];
    OneMoreCell(i, length, v);
    TotalStaysSmall(total, i + 1, |t.values|, v, t.largest);
    TotalExact(total);
    var read := t.(readers := t.readers[id := Reader(length, i + 1, total)]);
    assert ReadCell(t, read, id);
    longer := StillOngoing(before, run, n, id, read);
  }

  lemma TotalStaysSmall(total: int, i: nat, n: nat, v: nat, largest: int)
    requires i <= n && v <= largest && total <= i * v
    ensures total <= n * largest
  {
    assert i * v <= n * v && n * v <= n * largest;
  }

  lemma {:induction false} ReadAll(
      before: seq<State>, run: seq<State>, n: nat, id: nat, cell: nat, v: int, length: nat, i: nat)
      returns (longer: seq<State>)
    requires Ongoing(before, run, id) && IsRun(run, n) && OneLow(Last(run), cell, v)
    requires ReadLow(Last(run), id, cell, v, length, i) && v == Last(run).smallest <= Last(run).largest
    ensures Ongoing(before, longer, id) && IsRun(longer, n) && ReadLow(Last(longer), id, cell, v, length, length)
    ensures Last(longer).smallest == v
    decreases length - i
  {
    longer := run;
    if i < length {
      longer := ReadOne(before, longer, n, id, cell, v, length, i);
      longer := ReadAll(before, longer, n, id, cell, v, length, i + 1);
    }
  }

  lemma BelowMean(total: int, length: nat, v: int)
    requires length > 0 && total < length * v
    ensures total as real / length as real < v as real
  {
    var q := total as real / length as real;
    assert q * length as real == total as real;
    assert (length as real) * (v as real) == (length * v) as real;
  }

  /** From a state with a visible cell that holds no sample: begin an Average, then an Add of the
      smallest sample for every slot, stall the one on that cell, and let the Average read. */
  lemma CanFallBelow(before: seq<State>, n: nat, id: nat, cell: nat) returns (run: seq<State>)
    requires IsRun(before, n) && id !in Last(before).readers && cell < Visible(Last(before))
    requires Last(before).values[cell] < Last(before).smallest
    ensures before <= run && IsRun(run, n) && |run| >= 2 && Returns(run, |before| - 1, |run| - 2, id)
    ensures !ResultInRange(run, |run| - 2)
  {
    var s, v, length := Last(before), Last(before).smallest, Visible(Last(before));
    RunKeepsInv(before, n, |before| - 1);
    SizeStays(before, n, |before| - 1);
    var started := s.(readers := s.readers[id := Reader(length, 0, 0)]);
    assert ReadAdded(s, started, id);
    run := Longer(before, n, started);
    var base := FreshFrom(s.adders.Keys);
    run := Flood(before, run, n, id, started, cell, v, base, 0);
    FloodedLeavesOneLow(started, Last(run), cell, v, base);
    run := ReadAll(before, run, n, id, cell, v, length, 0);
    run := ReturnLow(before, run, n, id, cell, v, length);
  }

  lemma ReturnLow(before: seq<State>, run: seq<State>, n: nat, id: nat, cell: nat, v: int, length: nat)
      returns (longer: seq<State>)
    requires Ongoing(before, run, id) && IsRun(run, n) && ReadLow(Last(run), id, cell, v, length, length)
    requires cell < length && Last(run).smallest == v
    ensures before <= longer && IsRun(longer, n) && |longer| >= 2
    ensures Returns(longer, |before| - 1, |longer| - 2, id) && !ResultInRange(longer, |longer| - 2)
  {
    var t := Last(run);
    var total := t.readers[id].total;
    BelowMean(total, length, v);
    var done := t.(readers := t.readers - {id}, results := t.results + [total as real / length as real]);
    assert ReadDone(t, done, id);
    longer := Longer(run, n, done);
  }

  /** The Average that would start now is sure to be within the samples. */
  ghost predicate SureToBeInRange(before: seq<State>, n: nat, id: nat) {
    forall run, m ::
      IsRun(run, n) && before != [] && before <= run && Returns(run, |before| - 1, m, id) ==> ResultInRange(run, m)
  }

  /** So it is exactly when every cell it will read holds a sample already. */
  lemma InRangeIffSamples(before: seq<State>, n: nat, id: nat)
    requires IsRun(before, n) && id !in Last(before).readers && Last(before).added > 0
    ensures SureToBeInRange(before, n, id) <==> SamplesBelow(Last(before), Visible(Last(before)))
  {
    var s := Last(before);
    RunKeepsInv(before, n, |before| - 1);
    if SamplesBelow(s, Visible(s)) {
      forall run, m | IsRun(run, n) && before <= run && Returns(run, |before| - 1, m, id)
        ensures ResultInRange(run, m)
      {
        assert run[|before| - 1] == s;
        UndisturbedAverage(run, n, |before| - 1, m, id);
      }
    } else {
      var cell :| 0 <= cell < Visible(s) && cell < |s.values| && !(s.smallest <= s.values[cell] <= s.largest);
      var run := CanFallBelow(before, n, id, cell);
      assert before <= run && Returns(run, |before| - 1, |run| - 2, id);
    }
  }

  // ------------------------------------------------------------------------------------------
  // Two such runs from the start.

  function Empty(n: nat): State { State(seq(n, _ => 0), -1, 0, map[], map[], [], 0, 0) }

  lemma SlotOf(i: nat, n: nat)
    requires i < n
    ensures i % n == i
  {
    UniqueRemainder(i, 0, i, n);
  }

  /** The first Add has claimed cell 0 and stalls, the second has finished, and the one visible cell is
      still zero: the Average is 0, whatever the samples. */
  lemma StalledAddIsReadAsZero(n: nat, v: nat) returns (run: seq<State>)
    requires n >= 2 && v > 0 && n * v < TWO63
    ensures IsRun(run, n) && Last(run).smallest == v && Last(run).results == [0.0]
  {
    var s := Empty(n);
    var a := s.(index := 0, adders := map[1 := Claimed(0, v)], smallest := v, largest := v);
    var b := a.(index := 1, adders := map[1 := Claimed(0, v), 2 := Claimed(1, v)]);
    SlotOf(0, n);
    SlotOf(1, n);
    assert Claim(s, a, 1, v);
    run := Longer([s], n, a);
    assert Claim(a, b, 2, v);
    run := Longer(run, n, b);
    var d := b.(values := b.values[1 := v], added := 1, adders := map[1 := Claimed(0, v)]);
    run := SecondFinishes(run, n, v, b, d);
    run := ReadZero(run, n, d);
  }

  lemma SecondFinishes(before: seq<State>, n: nat, v: nat, b: State, d: State) returns (run: seq<State>)
    requires n >= 2 && IsRun(before, n) && b == Last(before) && |b.values| == n && b.added == 0
    requires b.adders == map[1 := Claimed(0, v), 2 := Claimed(1, v)]
    requires d == b.(values := b.values[1 := v], added := 1, adders := map[1 := Claimed(0, v)])
    ensures IsRun(run, n) && Last(run) == d
  {
    var c := b.(values := b.values[1 := v], adders := map[1 := Claimed(0, v), 2 := Stored]);
    assert Store(b, c, 2);
    run := Longer(before, n, c);
    assert Publish(c, d, 2) by { assert c.adders - {2} == d.adders; }
    run := Longer(run, n, d);
  }

  lemma ReadZero(before: seq<State>, n: nat, d: State) returns (run: seq<State>)
    requires IsRun(before, n) && d == Last(before) && |d.values| == n >= 2
    requires d.added == 1 && d.values[0] == 0 && d.readers == map[] && d.results == []
    ensures IsRun(run, n) && Last(run).smallest == d.smallest && Last(run).results == [0.0]
  {
    var e := d.(readers := map[3 := Reader(1, 0, 0)]);
    var f := e.(readers := map[3 := Reader(1, 1, 0)]);
    assert ReadAdded(d, e, 3);
    run := Longer(before, n, e);
    assert ReadCell(e, f, 3);
    run := Longer(run, n, f);
    run := ReturnZero(run, n, f);
  }

  lemma ReturnZero(before: seq<State>, n: nat, f: State) returns (run: seq<State>)
    requires IsRun(before, n) && f == Last(before) && f.readers == map[3 := Reader(1, 1, 0)] && f.results == []
    ensures IsRun(run, n) && Last(run).smallest == f.smallest && Last(run).results == [0.0]
  {
    var g := f.(readers := map[], results := [0.0]);
    assert ReadDone(f, g, 3) by { assert f.readers - {3} == map[]; }
    run := Longer(before, n, g);
  }

  /** One Add of value 1 has claimed cell 0 and stalls; j Adds of value 2 have followed and finished. */
  ghost predicate Followed(t: State, n: nat, j: nat) {
    && |t.values| == n && t.index == t.added == j <= n && t.adders == map[0 := Claimed(0, 1)]
    && t.readers == map[] && t.smallest == 1 && t.largest == (if j == 0 then 1 else 2)
    && (forall i :: 0 <= i < n ==> t.values[i] == if 1 <= i <= j || (i == 0 && j == n) then 2 else 0)
  }

  lemma FollowOne(before: seq<State>, n: nat, j: nat) returns (run: seq<State>)
    requires IsRun(before, n) && Followed(Last(before), n, j) && j < n && n * 2 < TWO63
    ensures IsRun(run, n) && Followed(Last(run), n, j + 1)
  {
    var t := Last(before);
    var slot := (j + 1) % n;
    if j + 1 < n { SlotOf(j + 1, n); } else { UniqueRemainder(n, 1, 0, n); }
    var a := t.(index := j + 1, adders := map[0 := Claimed(0, 1), 1 := Claimed(slot, 2)], largest := 2);
    assert Claim(t, a, 1, 2);
    run := Longer(before, n, a);
    run := FinishFollower(run, n, slot);
  }

  lemma FinishFollower(before: seq<State>, n: nat, slot: nat) returns (run: seq<State>)
    requires IsRun(before, n) && slot < |Last(before).values|
    requires Last(before).adders == map[0 := Claimed(0, 1), 1 := Claimed(slot, 2)]
    ensures IsRun(run, n)
    ensures var a := Last(before);
            Last(run) == a.(values := a.values[slot := 2], added := a.added + 1, adders := map[0 := Claimed(0, 1)])
  {
    var a := Last(before);
    var b := a.(values := a.values[slot := 2], adders := map[0 := Claimed(0, 1), 1 := Stored]);
    var c := b.(added := a.added + 1, adders := map[0 := Claimed(0, 1)]);
    assert Store(a, b, 1);
    run := Longer(before, n, b);
    assert Publish(b, c, 1) by { assert b.adders - {1} == c.adders; }
    run := Longer(run, n, c);
  }

  lemma {:induction false} Follow(before: seq<State>, n: nat, j: nat) returns (run: seq<State>)
    requires IsRun(before, n) && Followed(Last(before), n, j) && n * 2 < TWO63
    ensures IsRun(run, n) && Followed(Last(run), n, n)
    decreases n - j
  {
    run := before;
    if j < n {
      run := FollowOne(run, n, j);
      run := Follow(run, n, j + 1);
    }
  }

  /** A stalled Add overwrites a newer sample: n more Adds come and go, the last of them on its own cell,
      before it stores; with nothing in flight any more, the oldest sample is there and the newest gone. */
  lemma StalledAddOverwritesNewer(n: nat) returns (run: seq<State>)
    requires n > 0 && n * 2 < TWO63
    ensures IsRun(run, n)
    ensures var end := Last(run);
            && end.adders == map[] && end.added == n + 1 && |end.values| == n && end.values[0] == 1
            && end.smallest == 1 && end.largest == 2 && forall i :: 1 <= i < n ==> end.values[i] == 2
  {
    var s := Empty(n);
    var a := s.(index := 0, adders := map[0 := Claimed(0, 1)], smallest := 1, largest := 1);
    SlotOf(0, n);
    assert Claim(s, a, 0, 1);
    run := Longer([s], n, a);
    run := Follow(run, n, 0);
    run := OldestLast(run, n);
  }

  lemma OldestLast(before: seq<State>, n: nat) returns (run: seq<State>)
    requires n > 0 && IsRun(before, n) && Followed(Last(before), n, n)
    ensures IsRun(run, n)
    ensures var end := Last(run);
            && end.adders == map[] && end.added == n + 1 && |end.values| == n && end.values[0] == 1
            && end.smallest == 1 && end.largest == 2 && forall i :: 1 <= i < n ==> end.values[i] == 2
  {
    var t := Last(before);
    var e := t.(values := t.values[0 := 1], adders := map[0 := Stored]);
    var f := e.(added := n + 1, adders := map[]);
    assert Store(t, e, 0);
    run := Longer(before, n, e);
    assert Publish(e, f, 0) by { assert e.adders - {0} == f.adders; }
    run := Longer(run, n, f);
  }
}
