/** The latency ring: the last samples in a fixed buffer, and their mean. */
module Latencies {
  import opened GoInt

  function Sum(s: seq<int>): int {
    if s == [] then 0 else Sum(s[..|s| - 1]) + s[|s| - 1]
  }

  lemma {:induction false} SumOfUpdate(s: seq<int>, i: nat, x: int)
    requires i < |s|
    ensures Sum(s[i := x]) == Sum(s) - s[i] + x
    decreases |s|
  {
    var n := |s| - 1;
    if i == n {
      assert s[i := x][..n] == s[..n];
    } else {
      SumOfUpdate(s[..n], i, x);
      assert s[i := x][..n] == s[..n][i := x];
    }
  }

  lemma {:induction false} SumFromFront(s: seq<int>)
    requires s != []
    ensures Sum(s) == s[0] + Sum(s[1..])
    decreases |s|
  {
    var n := |s| - 1;
    if n > 0 {
      SumFromFront(s[..n]);
      assert s[..n][1..] == s[1..][..n - 1];
    } else {
      assert s[..0] == [] && s[1..] == [];
    }
  }

  lemma {:induction false} SumBounds(s: seq<int>, lo: int, hi: int)
    requires forall k :: 0 <= k < |s| ==> lo <= s[k] <= hi
    ensures |s| * lo <= Sum(s) <= |s| * hi
    decreases |s|
  {
    if s != [] {
      var n := |s| - 1;
      SumBounds(s[..n], lo, hi);
      assert |s| * lo == n * lo + lo && |s| * hi == n * hi + hi;
    }
  }

  /** The ring of size n after the samples of `history`. */
  ghost function RingOf(history: seq<int>, n: nat): (r: seq<int>)
    requires n > 0
    ensures |r| == n
  {
    if history == [] then seq(n, _ => 0)
    else RingOf(history[..|history| - 1], n)[(|history| - 1) % n := history[|history| - 1]]
  }

  /** The samples a reader can see: the last n, or all of them while there are fewer. */
  ghost function Window(history: seq<int>, n: nat): seq<int> {
    if |history| <= n then history else history[|history| - n..]
  }

  lemma {:induction false} RingHolds(history: seq<int>, n: nat, k: nat)
    requires n > 0 && k < |history| && |history| - n <= k
    ensures RingOf(history, n)[k % n] == history[k]
    decreases |history|
  {
    var last := |history| - 1;
    if k < last {
      RingHolds(history[..last], n, k);
      DistinctSlots(k, last, n);
    }
  }

  lemma DistinctSlots(a: nat, b: nat, n: nat)
    requires a < b < a + n
    ensures a % n != b % n
  {
    var qa, qb := a / n, b / n;
    var d := qb - qa;
    assert a == qa * n + a % n && b == qb * n + b % n;
    assert d * n == qb * n - qa * n;
    assert d >= 1 ==> d * n >= n;
    assert d <= 0 ==> d * n <= 0;
  }

  /** Until it wraps, the ring is the history followed by zeros. */
  lemma {:induction false} RingBeforeWrap(history: seq<int>, n: nat)
    requires n > 0 && |history| <= n
    ensures RingOf(history, n)[..|history|] == history
    ensures forall i :: |history| <= i < n ==> RingOf(history, n)[i] == 0
    decreases |history|
  {
    if history != [] {
      var last := |history| - 1;
      RingBeforeWrap(history[..last], n);
      UniqueRemainder(last, 0, last, n);
      var before, after := RingOf(history[..last], n), RingOf(history, n);
      assert after == before[last := history[last]];
      forall k | 0 <= k < |history| ensures after[k] == history[k] {
        assert k < last ==> before[k] == before[..last][k] == history[k];
      }
    }
  }

  /** Slot order does not matter: the visible part of the ring sums to the visible window. */
  lemma {:induction false} RingSum(history: seq<int>, n: nat)
    requires n > 0
    ensures var ring := RingOf(history, n);
            Sum(if |history| < n then ring[..|history|] else ring) == Sum(Window(history, n))
    decreases |history|
  {
    if |history| <= n {
      RingBeforeWrap(history, n);
      if |history| == n {
        assert RingOf(history, n)[..n] == RingOf(history, n);
      }
    } else {
      var last := |history| - 1;
      var init, x := history[..last], history[last];
      RingSum(init, n);
      RingHolds(init, n, last - n);
      SameSlot(last, n);
      var ring := RingOf(init, n);
      SumOfUpdate(ring, last % n, x);
      WindowSlides(history, n);
      assert RingOf(history, n) == ring[last % n := x] && ring[last % n] == history[last - n];
    }
  }

  /** Past the first n samples, each new one pushes the oldest out of the window. */
  lemma WindowSlides(history: seq<int>, n: nat)
    requires 0 < n < |history|
    ensures var last := |history| - 1;
            Sum(Window(history, n)) == Sum(Window(history[..last], n)) - history[last - n] + history[last]
  {
    var last := |history| - 1;
    var w := history[..last][last - n..];
    assert w == Window(history[..last], n);
    SumFromFront(w);
    assert Window(history, n) == w[1..] + [history[last]];
    assert (w[1..] + [history[last]])[..n - 1] == w[1..];
  }

  lemma SameSlot(a: nat, n: nat)
    requires a >= n > 0
    ensures (a - n) % n == a % n
  {
    var q := a / n;
    assert a == q * n + a % n;
    assert a - n == (q - 1) * n + a % n;
    UniqueRemainder(a - n, q - 1, a % n, n);
  }

  lemma UniqueRemainder(x: nat, q: int, r: nat, n: int)
    requires n > 0 && x == q * n + r && r < n
    ensures x % n == r
  {
    var p := x / n;
    assert x == p * n + x % n;
    var d := p - q;
    assert d * n == p * n - q * n;
    assert d >= 1 ==> d * n >= n;
    assert d <= -1 ==> d * n <= -n;
  }

  class Ring {
    var values: array<int>
    var index: int
    var added: int
    ghost var history: seq<int>

    ghost predicate Valid()
      reads this, values
    {
      && values.Length > 0
      && index == |history| - 1 && added == |history|
      && values[..] == RingOf(history, values.Length)
    }

    constructor (l: nat)
      requires l > 0
      ensures Valid() && history == [] && values.Length == l && fresh(values)
    {
      values := new int[l](_ => 0);
      index, added := -1, 0;
      history := [];
      new;
      assert values[..] == RingOf([], l);
    }

    method Add(value: int)
      requires Valid()
      modifies this, values
      ensures Valid() && history == old(history) + [value] && values == old(values)
    {
      index := index + 1;
      var i := index % values.Length;
      values[i] := value;
      added := added + 1;
      history := history + [value];
      assert history[..|history| - 1] == old(history);
    }

    /** The mean of the visible window, with the total kept in 64 bits. */
    method Average() returns (avg: real)
      requires Valid()
      ensures history == [] ==> avg == 0.0
      ensures history != [] ==>
                var w := Window(history, values.Length);
                avg == Wrap64(Sum(w)) as real / |w| as real
    {
      var total := 0;
      var length := if added < values.Length then added else values.Length;
      if length <= 0 { return 0.0; }
      for i := 0 to length
        invariant total == Wrap64(Sum(values[..i]))
      {
        WrapStep(Sum(values[..i]), values[i]);
        assert values[..i + 1][..i] == values[..i];
        total := Wrap64(total + values[i]);
      }
      RingSum(history, values.Length);
      assert values[..values.Length] == values[..];
      avg := total as real / length as real;
    }
  }

  /** The total is exact whenever the ring size times the largest sample fits in 64 bits. */
  lemma BoundedSamplesAverageExactly(history: seq<int>, n: nat, largest: int)
    requires n > 0 && largest >= 0 && n * largest < TWO63
    requires forall k :: 0 <= k < |history| ==> -largest <= history[k] <= largest
    ensures Wrap64(Sum(Window(history, n))) == Sum(Window(history, n))
  {
    var w := Window(history, n);
    SumBounds(w, -largest, largest);
    assert |w| * largest <= n * largest;
    assert |w| * -largest == -(|w| * largest);
    TotalExact(Sum(w));
  }
}

/** The same ring under concurrent callers: each atomic operation of Add and Average is a step. */
module LatencyRace {
  import opened GoInt
  import opened Latencies

  /** An Add between its first and its last atomic operation. */
  datatype Adder = Claimed(slot: nat, value: int) | Stored

  /** An Average that has read `added` and the first i of `length` cells. */
  datatype Reader = Reader(length: nat, i: nat, total: int)

  /** `smallest` and `largest` range over the samples of every Add begun so far. */
  datatype State = State(
    values: seq<int>, index: int, added: int,
    adders: map<nat, Adder>, readers: map<nat, Reader>, results: seq<real>,
    smallest: int, largest: int)

  ghost predicate Init(s: State, n: nat) {
    n > 0 && s == State(seq(n, _ => 0), -1, 0, map[], map[], [], 0, 0)
  }

  function Min(a: int, b: int): int { if a < b then a else b }
  function Max(a: int, b: int): int { if a < b then b else a }

  ghost predicate Claim(s: State, s': State, id: nat, value: int) {
    && id !in s.adders && value >= 0 && |s.values| > 0 && s.index >= -1
    && s' == s.(index := s.index + 1,
                adders := s.adders[id := Claimed((s.index + 1) % |s.values|, value)],
                smallest := if s.index < 0 then value else Min(s.smallest, value),
                largest := if s.index < 0 then value else Max(s.largest, value))
  }

  ghost predicate Store(s: State, s': State, id: nat) {
    && id in s.adders && s.adders[id].Claimed? && s.adders[id].slot < |s.values|
    && s' == s.(values := s.values[s.adders[id].slot := s.adders[id].value], adders := s.adders[id := Stored])
  }

  ghost predicate Publish(s: State, s': State, id: nat) {
    && id in s.adders && s.adders[id].Stored?
    && s' == s.(added := s.added + 1, adders := s.adders - {id})
  }

  ghost predicate ReadAdded(s: State, s': State, id: nat) {
    && id !in s.readers && s.added >= 0
    && s' == s.(readers := s.readers[id := Reader(if s.added < |s.values| then s.added else |s.values|, 0, 0)])
  }

  ghost predicate ReadCell(s: State, s': State, id: nat) {
    && id in s.readers
    && var r := s.readers[id];
       && r.i < r.length && r.i < |s.values|
       && s' == s.(readers := s.readers[id := Reader(r.length, r.i + 1, Wrap64(r.total + s.values[r.i]))])
  }

  ghost predicate ReadDone(s: State, s': State, id: nat) {
    && id in s.readers
    && var r := s.readers[id];
       && r.i == r.length
       && s' == s.(readers := s.readers - {id},
                   results := s.results + [if r.length == 0 then 0.0 else r.total as real / r.length as real])
  }

  ghost predicate Next(s: State, s': State) {
    || (exists id, value :: Claim(s, s', id, value))
    || (exists id :: Store(s, s', id))
    || (exists id :: Publish(s, s', id))
    || (exists id :: ReadAdded(s, s', id))
    || (exists id :: ReadCell(s, s', id))
    || (exists id :: ReadDone(s, s', id))
  }

  /** A slot that was claimed holds a sample, or its Add has not stored yet. */
  ghost predicate Covered(s: State, k: nat)
    requires k < |s.values|
  {
    || s.smallest <= s.values[k] <= s.largest
    || exists id :: id in s.adders && s.adders[id].Claimed? && s.adders[id].slot == k
  }

  ghost predicate CountsOk(s: State) {
    && |s.values| > 0 && s.index + 1 - s.added == |s.adders|
    && 0 <= s.added && 0 <= s.smallest <= s.largest
    && -1 <= s.index && (s.index == -1 ==> s.largest == 0)
  }

  ghost predicate AdderOk(s: State, a: Adder) {
    a.Claimed? ==> a.slot < |s.values| && s.smallest <= a.value <= s.largest
  }

  ghost predicate AddersOk(s: State) {
    forall id :: id in s.adders ==> AdderOk(s, s.adders[id])
  }

  ghost predicate ValuesOk(s: State) {
    && (forall k :: 0 <= k < |s.values| ==> 0 <= s.values[k] <= s.largest)
    && (forall k :: 0 <= k < |s.values| && k <= s.index ==> Covered(s, k))
  }

  ghost predicate ReaderOk(s: State, r: Reader) {
    r.i <= r.length <= |s.values| && 0 <= r.total <= r.i * s.largest
  }

  ghost predicate ReadersOk(s: State) {
    && (forall id :: id in s.readers ==> ReaderOk(s, s.readers[id]))
    && (forall k :: 0 <= k < |s.results| ==> 0.0 <= s.results[k] <= s.largest as real)
  }

  ghost predicate Inv(s: State) {
    CountsOk(s) && AddersOk(s) && ValuesOk(s) && ReadersOk(s)
  }

  /** The largest total an Average can reach fits in 64 bits. */
  ghost predicate TotalsFit(s: State) {
    |s.values| * s.largest < TWO63
  }

  lemma ClaimKeepsAdders(s: State, s': State, id: nat, value: int)
    requires CountsOk(s) && AddersOk(s) && Claim(s, s', id, value)
    ensures CountsOk(s') && AddersOk(s')
  {
    forall o | o in s'.adders ensures AdderOk(s', s'.adders[o]) {
      if o != id {
        assert AdderOk(s, s.adders[o]);
        assert s.index == -1 ==> s.adders == map[] by { assert s.index == -1 ==> |s.adders| == 0; }
      }
    }
  }

  lemma ClaimKeepsCover(s: State, s': State, id: nat, value: int, k: nat)
    requires CountsOk(s) && Claim(s, s', id, value) && k < |s.values| && k <= s'.index
    requires k <= s.index ==> Covered(s, k)
    ensures Covered(s', k)
  {
    if k <= s.index {
      if o :| o in s.adders && s.adders[o].Claimed? && s.adders[o].slot == k {
        assert s'.adders[o] == s.adders[o];
      }
    } else {
      assert k % |s.values| == k;
      assert s'.adders[id].Claimed? && s'.adders[id].slot == k;
    }
  }

  lemma ClaimKeepsValues(s: State, s': State, id: nat, value: int)
    requires CountsOk(s) && ValuesOk(s) && Claim(s, s', id, value)
    ensures ValuesOk(s') && s.largest <= s'.largest
  {
    forall k | 0 <= k < |s.values| && k <= s'.index ensures Covered(s', k) {
      ClaimKeepsCover(s, s', id, value, k);
    }
  }

  lemma WiderBounds(i: nat, lo: int, hi: int, lo': int, hi': int)
    requires lo' <= lo && hi <= hi'
    ensures i * lo' <= i * lo && i * hi <= i * hi'
  {
  }

  lemma LargerKeepsReaders(s: State, s': State)
    requires ReadersOk(s) && s'.readers == s.readers && s'.results == s.results
    requires |s'.values| == |s.values| && s.largest <= s'.largest
    ensures ReadersOk(s')
  {
    forall id | id in s.readers ensures ReaderOk(s', s'.readers[id]) {
      assert ReaderOk(s, s.readers[id]);
      WiderBounds(s.readers[id].i, 0, s.largest, 0, s'.largest);
    }
  }

  lemma StoreKeepsInv(s: State, s': State, id: nat)
    requires Inv(s) && Store(s, s', id)
    ensures CountsOk(s') && AddersOk(s') && ValuesOk(s') && ReadersOk(s')
  {
    assert AdderOk(s, s.adders[id]);
    assert s'.adders.Keys == s.adders.Keys;
    forall o | o in s'.adders ensures AdderOk(s', s'.adders[o]) {
      assert AdderOk(s, s.adders[o]);
    }
    forall k | 0 <= k < |s.values| && k <= s'.index ensures Covered(s', k) {
      assert Covered(s, k);
      if k != s.adders[id].slot {
        if o :| o in s.adders && s.adders[o].Claimed? && s.adders[o].slot == k {
          assert s'.adders[o] == s.adders[o];
        }
      }
    }
    LargerKeepsReaders(s, s');
  }

  lemma PublishKeepsInv(s: State, s': State, id: nat)
    requires Inv(s) && Publish(s, s', id)
    ensures CountsOk(s') && AddersOk(s') && ValuesOk(s') && ReadersOk(s')
  {
    assert s'.adders.Keys == s.adders.Keys - {id};
    assert |s.adders| == |s.adders.Keys| && |s'.adders| == |s'.adders.Keys|;
    forall k | 0 <= k < |s.values| && k <= s'.index ensures Covered(s', k) {
      assert Covered(s, k);
      if o :| o in s.adders && s.adders[o].Claimed? && s.adders[o].slot == k {
        assert s'.adders[o] == s.adders[o];
      }
    }
    forall o | o in s'.adders ensures AdderOk(s', s'.adders[o]) {
      assert AdderOk(s, s.adders[o]);
    }
    LargerKeepsReaders(s, s');
  }

  lemma OneMoreCell(i: nat, n: nat, largest: nat)
    requires i < n
    ensures (i + 1) * largest == i * largest + largest
    ensures (i + 1) * largest <= n * largest
  {
  }

  lemma ReadCellKeepsReader(s: State, r: Reader)
    requires CountsOk(s) && ValuesOk(s) && TotalsFit(s) && ReaderOk(s, r) && r.i < r.length
    ensures ReaderOk(s, Reader(r.length, r.i + 1, Wrap64(r.total + s.values[r.i])))
  {
    assert 0 <= s.values[r.i] <= s.largest;
    OneMoreCell(r.i, |s.values|, s.largest);
    TotalExact(r.total + s.values[r.i]);
  }

  lemma MeanInRange(total: int, length: nat, lo: int, hi: int)
    requires length > 0 && length * lo <= total <= length * hi
    ensures lo as real <= total as real / length as real <= hi as real
  {
    assert (length as real) * (lo as real) == (length * lo) as real;
    assert (length as real) * (hi as real) == (length * hi) as real;
    var q := total as real / length as real;
    assert q * length as real == total as real;
  }

  lemma ReadsKeepInv(s: State, s': State, id: nat)
    requires Inv(s) && TotalsFit(s)
    requires ReadAdded(s, s', id) || ReadCell(s, s', id) || ReadDone(s, s', id)
    ensures Inv(s')
  {
    forall k | 0 <= k < |s.values| && k <= s.index ensures Covered(s', k) {
      assert Covered(s, k);
    }
    forall o | o in s'.adders ensures AdderOk(s', s'.adders[o]) {
      assert AdderOk(s, s.adders[o]);
    }
    forall o | o in s'.readers && o != id ensures ReaderOk(s', s'.readers[o]) {
      assert ReaderOk(s, s.readers[o]);
    }
    if !ReadAdded(s, s', id) {
      var r := s.readers[id];
      assert ReaderOk(s, r);
      if ReadCell(s, s', id) {
        ReadCellKeepsReader(s, r);
      } else if r.length > 0 {
        MeanInRange(r.total, r.length, 0, s.largest);
      }
    }
  }

  lemma NextKeepsInv(s: State, s': State)
    requires Inv(s) && Next(s, s') && TotalsFit(s)
    ensures Inv(s')
  {
    if id, value :| Claim(s, s', id, value) {
      ClaimKeepsAdders(s, s', id, value);
      ClaimKeepsValues(s, s', id, value);
      LargerKeepsReaders(s, s');
    } else if id :| Store(s, s', id) {
      StoreKeepsInv(s, s', id);
    } else if id :| Publish(s, s', id) {
      PublishKeepsInv(s, s', id);
    } else if id :| ReadAdded(s, s', id) {
      ReadsKeepInv(s, s', id);
    } else if id :| ReadCell(s, s', id) {
      ReadsKeepInv(s, s', id);
    } else {
      var id :| ReadDone(s, s', id);
      ReadsKeepInv(s, s', id);
    }
  }

  ghost predicate IsRun(run: seq<State>, n: nat) {
    && |run| > 0 && Init(run[0], n)
    && (forall k :: 0 <= k < |run| - 1 ==> Next(run[k], run[k + 1]))
    && (forall k :: 0 <= k < |run| ==> TotalsFit(run[k]))
  }

  lemma {:induction false} RunKeepsInv(run: seq<State>, n: nat, k: nat)
    requires IsRun(run, n) && k < |run|
    ensures Inv(run[k])
  {
    if k > 0 {
      RunKeepsInv(run, n, k - 1);
      assert Next(run[k - 1], run[k - 1 + 1]);
      NextKeepsInv(run[k - 1], run[k]);
    }
  }

  // ------------------------------------------------------------------------------------------
  // An Average that no Add in flight can disturb when it starts.

  /** How many cells an Average that starts now reads. */
  function Visible(s: State): int { Min(s.added, |s.values|) }

  /** The cells below `length` hold samples, or what cannot be told from samples. */
  ghost predicate SamplesBelow(s: State, length: int) {
    forall k :: 0 <= k < length && k < |s.values| ==> s.smallest <= s.values[k] <= s.largest
  }

  /** It is enough that every Add that has claimed a cell there has stored its sample, so that there
      is no Add in flight at all. */
  lemma NoneClaimedMeansSamples(s: State)
    requires Inv(s)
    requires forall id :: id in s.adders && s.adders[id].Claimed? ==> s.adders[id].slot >= Visible(s)
    ensures SamplesBelow(s, Visible(s))
  {
    forall k | 0 <= k < Visible(s) ensures s.smallest <= s.values[k] <= s.largest {
      assert s.added <= s.index + 1 && Covered(s, k);
    }
  }

  /** The cells this Average reads hold samples, and its total so far is one of samples. */
  ghost predicate SolidReader(s: State, r: Reader) {
    && 0 < r.length <= |s.values| && r.i <= r.length && s.index >= 0
    && (forall k :: 0 <= k < r.length ==> s.smallest <= s.values[k] <= s.largest)
    && r.i * s.smallest <= r.total <= r.i * s.largest
  }

  lemma StartsSolid(s: State, s': State, id: nat)
    requires Inv(s) && ReadAdded(s, s', id) && s.added > 0 && SamplesBelow(s, Visible(s))
    ensures SolidReader(s', s'.readers[id]) && s'.readers[id].length == Visible(s)
  {
    assert s.added <= s.index + 1;
  }

  lemma SolidCellRead(s: State, r: Reader)
    requires Inv(s) && TotalsFit(s) && SolidReader(s, r) && r.i < r.length
    ensures SolidReader(s, Reader(r.length, r.i + 1, Wrap64(r.total + s.values[r.i])))
  {
    OneMoreCell(r.i, |s.values|, s.largest);
    OneMoreCell(r.i, |s.values|, s.smallest);
    WiderBounds(r.i, 0, 0, 0, s.smallest);
    TotalExact(r.total + s.values[r.i]);
  }

  lemma ClaimKeepsSolid(s: State, s': State, a: nat, value: int, r: Reader)
    requires Claim(s, s', a, value) && SolidReader(s, r) && r.i >= 0
    ensures SolidReader(s', r)
  {
    WiderBounds(r.i, s.smallest, s.largest, s'.smallest, s'.largest);
  }

  lemma StoreKeepsSolid(s: State, s': State, a: nat, r: Reader)
    requires Inv(s) && Store(s, s', a) && SolidReader(s, r)
    ensures SolidReader(s', r)
  {
    assert AdderOk(s, s.adders[a]);
  }

  lemma ReadKeepsSolid(s: State, s': State, a: nat, id: nat)
    requires Inv(s) && TotalsFit(s) && id in s.readers && id in s'.readers && SolidReader(s, s.readers[id])
    requires ReadAdded(s, s', a) || ReadCell(s, s', a) || ReadDone(s, s', a)
    ensures SolidReader(s', s'.readers[id]) && s'.readers[id].length == s.readers[id].length
  {
    if ReadCell(s, s', a) && a == id { SolidCellRead(s, s.readers[id]); }
  }

  lemma StepKeepsSolid(s: State, s': State, id: nat)
    requires Inv(s) && Next(s, s') && TotalsFit(s) && id in s.readers && id in s'.readers
    requires SolidReader(s, s.readers[id])
    ensures SolidReader(s', s'.readers[id]) && s'.readers[id].length == s.readers[id].length
  {
    if a, value :| Claim(s, s', a, value) {
      ClaimKeepsSolid(s, s', a, value, s.readers[id]);
    } else if a :| Store(s, s', a) {
      StoreKeepsSolid(s, s', a, s.readers[id]);
    } else if a :| Publish(s, s', a) {
    } else if a :| ReadAdded(s, s', a) {
      ReadKeepsSolid(s, s', a, id);
    } else if a :| ReadCell(s, s', a) {
      ReadKeepsSolid(s, s', a, id);
    } else {
      var a :| ReadDone(s, s', a);
      ReadKeepsSolid(s, s', a, id);
    }
  }

  /** The Average that started at step k is still going at step m. */
  ghost predicate Reading(run: seq<State>, k: nat, m: nat, id: nat) {
    && k < m < |run| && ReadAdded(run[k], run[k + 1], id)
    && (forall j :: k < j <= m ==> id in run[j].readers)
  }

  ghost predicate SolidAt(run: seq<State>, m: nat, id: nat, length: int)
    requires m < |run|
  {
    id in run[m].readers && run[m].readers[id].length == length && SolidReader(run[m], run[m].readers[id])
  }

  ghost predicate KeptAt(run: seq<State>, m: nat, id: nat, length: int)
    requires m + 1 < |run|
  {
    SolidAt(run, m, id, length) && id in run[m + 1].readers ==> SolidAt(run, m + 1, id, length)
  }

  lemma KeptInRun(run: seq<State>, n: nat, m: nat, id: nat, length: int)
    requires IsRun(run, n) && m + 1 < |run|
    ensures KeptAt(run, m, id, length)
  {
    var s, s' := run[m], run[m + 1];
    RunKeepsInv(run, n, m);
    assert Next(s, s');
    if SolidAt(run, m, id, length) && id in s'.readers {
      StepKeepsSolid(s, s', id);
    }
  }

  lemma {:induction false} SolidAlong(run: seq<State>, k: nat, m: nat, id: nat, length: int)
    requires k <= m < |run| && SolidAt(run, k, id, length)
    requires forall j :: k <= j <= m ==> id in run[j].readers
    requires forall j :: k <= j < m ==> KeptAt(run, j, id, length)
    ensures SolidAt(run, m, id, length)
    decreases m
  {
    if k < m {
      SolidAlong(run, k, m - 1, id, length);
      assert KeptAt(run, m - 1, id, length);
    }
  }

  /** An Average that starts with samples in all the cells it will read reads nothing but samples,
      whatever Adds begin meanwhile. */
  lemma StaysSolid(run: seq<State>, n: nat, k: nat, m: nat, id: nat)
    requires IsRun(run, n) && Reading(run, k, m, id)
    requires run[k].added > 0 && SamplesBelow(run[k], Visible(run[k]))
    ensures SolidAt(run, m, id, Visible(run[k]))
  {
    RunKeepsInv(run, n, k);
    StartsSolid(run[k], run[k + 1], id);
    forall j | k + 1 <= j < m ensures KeptAt(run, j, id, Visible(run[k])) {
      KeptInRun(run, n, j, id, Visible(run[k]));
    }
    SolidAlong(run, k + 1, m, id, Visible(run[k]));
  }

  /** The Average that started at step k returns at step m. */
  ghost predicate Returns(run: seq<State>, k: nat, m: nat, id: nat) {
    Reading(run, k, m, id) && m + 1 < |run| && ReadDone(run[m], run[m + 1], id)
  }

  /** The result that step m appends is between the samples of the Adds begun by then. */
  ghost predicate ResultInRange(run: seq<State>, m: nat)
    requires m + 1 < |run|
  {
    var results := run[m + 1].results;
    |results| > 0 && run[m].smallest as real <= results[|results| - 1] <= run[m].largest as real
  }

  lemma UndisturbedAverage(run: seq<State>, n: nat, k: nat, m: nat, id: nat)
    requires IsRun(run, n) && Returns(run, k, m, id)
    requires run[k].added > 0 && SamplesBelow(run[k], Visible(run[k]))
    ensures ResultInRange(run, m)
  {
    StaysSolid(run, n, k, m, id);
    var r := run[m].readers[id];
    MeanInRange(r.total, r.length, run[m].smallest, run[m].largest);
  }

  ghost predicate SampleAt(run: seq<State>, k: nat, cell: nat)
    requires k < |run|
  {
    run[k].index >= 0 && cell < |run[k].values| && run[k].smallest <= run[k].values[cell] <= run[k].largest
  }

  lemma StepKeepsSample(s: State, s': State, cell: nat)
    requires Inv(s) && Next(s, s') && s.index >= 0 && cell < |s.values|
    requires s.smallest <= s.values[cell] <= s.largest
    ensures s'.index >= 0 && cell < |s'.values| && s'.smallest <= s'.values[cell] <= s'.largest
  {
    if a :| Store(s, s', a) {
      assert AdderOk(s, s.adders[a]);
    }
  }

  lemma SampleInNext(run: seq<State>, n: nat, k: nat, cell: nat)
    requires IsRun(run, n) && k + 1 < |run|
    ensures SampleAt(run, k, cell) ==> SampleAt(run, k + 1, cell)
  {
    var s, s' := run[k], run[k + 1];
    RunKeepsInv(run, n, k);
    assert Next(s, s');
    if SampleAt(run, k, cell) { StepKeepsSample(s, s', cell); }
  }

  lemma {:induction false} SampleAlong(run: seq<State>, k: nat, m: nat, cell: nat)
    requires k <= m < |run| && SampleAt(run, k, cell)
    requires forall j :: k <= j < m ==> SampleAt(run, j, cell) ==> SampleAt(run, j + 1, cell)
    ensures SampleAt(run, m, cell)
    decreases m
  {
    if k < m {
      SampleAlong(run, k, m - 1, cell);
      assert SampleAt(run, m - 1, cell) ==> SampleAt(run, m - 1 + 1, cell);
    }
  }

  /** A cell that holds a sample holds one ever after. */
  lemma CellStaysSample(run: seq<State>, n: nat, k: nat, m: nat, cell: nat)
    requires IsRun(run, n) && k <= m < |run| && SampleAt(run, k, cell)
    ensures SampleAt(run, m, cell)
  {
    forall j | k <= j < m ensures SampleAt(run, j, cell) ==> SampleAt(run, j + 1, cell) {
      SampleInNext(run, n, j, cell);
    }
    SampleAlong(run, k, m, cell);
  }

  /** Once every cell has been stored, every later Average is within the samples, whatever is in flight. */
  lemma FullRingAverages(run: seq<State>, n: nat, j: nat, k: nat, m: nat, id: nat)
    requires IsRun(run, n) && j <= k && Returns(run, k, m, id) && run[k].added > 0
    requires forall cell :: 0 <= cell < n ==> SampleAt(run, j, cell)
    ensures ResultInRange(run, m)
  {
    SizeStays(run, n, k);
    forall cell | 0 <= cell < n ensures run[k].smallest <= run[k].values[cell] <= run[k].largest {
      CellStaysSample(run, n, j, k, cell);
      assert SampleAt(run, k, cell);
    }
    UndisturbedAverage(run, n, k, m, id);
  }

  lemma {:induction false} SizeStays(run: seq<State>, n: nat, k: nat)
    requires IsRun(run, n) && k < |run|
    ensures |run[k].values| == n
    decreases k
  {
    if k > 0 {
      SizeStays(run, n, k - 1);
      assert Next(run[k - 1], run[k - 1 + 1]);
    }
  }

  /** In every run the two counters differ by the Adds in flight, and every Average returned so far is
      between zero and the largest sample. */
  lemma ConcurrentAverages(run: seq<State>, n: nat, k: nat)
    requires IsRun(run, n) && k < |run|
    ensures run[k].index + 1 - run[k].added == |run[k].adders|
    ensures forall j :: 0 <= j < |run[k].results| ==> 0.0 <= run[k].results[j] <= run[k].largest as real
  {
    RunKeepsInv(run, n, k);
  }
}
