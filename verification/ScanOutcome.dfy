/** What ScanStruct does with a flat reply, told pair by pair: which pairs are written, where it stops,
    and what every field holds then. */
module ScanOutcome {
  import opened GoTypes
  import opened StructSpec
  import opened GoValues
  import opened Convert
  import opened StructCodec

  /** Pair i is a value for a field the struct has. */
  predicate Writes(m: map<string, FieldSpec>, src: seq<Reply>, i: nat)
    requires 2 * i + 1 < |src|
  {
    !src[2 * i + 1].Nil? && src[2 * i].Bulk? && src[2 * i].bytes in m
  }

  predicate WritesName(m: map<string, FieldSpec>, src: seq<Reply>, i: nat, n: string)
    requires 2 * i + 1 < |src|
  {
    Writes(m, src, i) && src[2 * i].bytes == n
  }

  /** Pair i has a value, but its key is not a bulk string. */
  predicate BadKey(src: seq<Reply>, i: nat)
    requires 2 * i + 1 < |src|
  {
    !src[2 * i + 1].Nil? && !src[2 * i].Bulk?
  }

  /** What a reply becomes in a field; when it converts, the value before does not matter. */
  ghost function Converted(t: Type, fs: FieldSpec, s: Reply): Conversion
    requires HasField(t, fs.index) && !s.Nil?
  {
    ConvertValue(FieldType(t, fs.index), Zero(FieldType(t, fs.index)), s)
  }

  lemma ConvertedWhateverBefore(t: Type, fs: FieldSpec, s: Reply, d: Value)
    requires HasField(t, fs.index) && !s.Nil? && HasType(d, FieldType(t, fs.index))
    ensures ConvertValue(FieldType(t, fs.index), d, s).ok == Converted(t, fs, s).ok
    ensures Converted(t, fs, s).ok ==> ConvertValue(FieldType(t, fs.index), d, s) == Converted(t, fs, s)
  {
  }

  ghost predicate BadValue(t: Type, m: map<string, FieldSpec>, src: seq<Reply>, i: nat)
    requires InTable(t, m) && 2 * i + 1 < |src|
  {
    Writes(m, src, i) && !Converted(t, m[src[2 * i].bytes], src[2 * i + 1]).ok
  }

  ghost predicate Trouble(t: Type, m: map<string, FieldSpec>, src: seq<Reply>, i: nat)
    requires InTable(t, m) && 2 * i + 1 < |src|
  {
    BadKey(src, i) || BadValue(t, m, src, i)
  }

  ghost predicate NoTrouble(t: Type, m: map<string, FieldSpec>, src: seq<Reply>, k: nat)
    requires InTable(t, m) && 2 * k <= |src|
  {
    forall i :: 0 <= i < k ==> !Trouble(t, m, src, i)
  }

  /** Of the first k pairs, pair i is the last one with a value for this name. */
  ghost predicate LastWriter(m: map<string, FieldSpec>, src: seq<Reply>, n: string, k: nat, i: nat)
    requires 2 * k <= |src|
  {
    && i < k && WritesName(m, src, i, n)
    && (forall j :: i < j < k ==> !WritesName(m, src, j, n))
  }

  ghost predicate NoWriter(m: map<string, FieldSpec>, src: seq<Reply>, n: string, k: nat)
    requires 2 * k <= |src|
  {
    forall i :: 0 <= i < k ==> !WritesName(m, src, i, n)
  }

  /** After the first k pairs the field of this name holds what its last value converts to, or still
      what it held before, when there was none. */
  ghost predicate FieldFollows(
      t: Type, m: map<string, FieldSpec>, src: seq<Reply>, d: Value, v: Value, k: nat, n: string)
    requires InTable(t, m) && HasType(d, t) && HasType(v, t) && n in m && 2 * k <= |src|
  {
    var p := m[n].index;
    && (forall i :: LastWriter(m, src, n, k, i) ==> Get(t, v, p) == Converted(t, m[n], src[2 * i + 1]).value)
    && (NoWriter(m, src, n, k) ==> Get(t, v, p) == Get(t, d, p))
  }

  ghost predicate AllFollow(t: Type, m: map<string, FieldSpec>, src: seq<Reply>, d: Value, v: Value, k: nat)
    requires InTable(t, m) && HasType(d, t) && HasType(v, t) && 2 * k <= |src|
  {
    forall n :: n in m ==> FieldFollows(t, m, src, d, v, k, n)
  }

  /** Some pair is the last to write a name, or none writes it. */
  lemma {:induction false} WriterOrNone(m: map<string, FieldSpec>, src: seq<Reply>, n: string, k: nat)
    requires 2 * k <= |src|
    ensures NoWriter(m, src, n, k) || exists i :: LastWriter(m, src, n, k, i)
    decreases k
  {
    if k > 0 {
      var last := k - 1;
      WriterOrNone(m, src, n, last);
      if WritesName(m, src, last, n) {
        assert LastWriter(m, src, n, k, last);
      } else if i :| LastWriter(m, src, n, last, i) {
        assert LastWriter(m, src, n, k, i);
      }
    }
  }

  // ------------------------------------------------------------------------------------------
  // The scan, one pair at a time.

  /** The value after pair i, which is no trouble. */
  ghost function PairStep(t: Type, m: map<string, FieldSpec>, src: seq<Reply>, i: nat, v: Value): (r: Value)
    requires InTable(t, m) && HasType(v, t) && 2 * i + 1 < |src|
    ensures HasType(r, t)
  {
    if Writes(m, src, i) then
      var fs := m[src[2 * i].bytes];
      Set(t, v, fs.index, Converted(t, fs, src[2 * i + 1]).value)
    else v
  }

  ghost function AfterPairs(t: Type, m: map<string, FieldSpec>, src: seq<Reply>, k: nat, d: Value): (r: Value)
    requires InTable(t, m) && HasType(d, t) && 2 * k <= |src|
    ensures HasType(r, t)
  {
    if k == 0 then d else PairStep(t, m, src, k - 1, AfterPairs(t, m, src, k - 1, d))
  }

  lemma ScanOnePairMore(t: Type, m: map<string, FieldSpec>, src: seq<Reply>, i: nat, v: Value)
    requires InTable(t, m) && HasType(v, t) && 2 * i + 1 < |src| && !Trouble(t, m, src, i)
    ensures ScanPairs(t, m, src[2 * i..], 2 * i, v)
         == ScanPairs(t, m, src[2 * i + 2..], 2 * i + 2, PairStep(t, m, src, i, v))
  {
    var rest := src[2 * i..];
    assert rest[0] == src[2 * i] && rest[1] == src[2 * i + 1] && rest[2..] == src[2 * i + 2..];
    if Writes(m, src, i) {
      var fs := m[src[2 * i].bytes];
      ConvertedWhateverBefore(t, fs, src[2 * i + 1], Get(t, v, fs.index));
    }
  }

  lemma {:induction false} ScanPastPairs(t: Type, m: map<string, FieldSpec>, src: seq<Reply>, k: nat, d: Value)
    requires InTable(t, m) && HasType(d, t) && 2 * k <= |src| && NoTrouble(t, m, src, k)
    ensures ScanPairs(t, m, src, 0, d) == ScanPairs(t, m, src[2 * k..], 2 * k, AfterPairs(t, m, src, k, d))
    decreases k
  {
    if k == 0 {
      assert src[0..] == src;
    } else {
      ScanPastPairs(t, m, src, k - 1, d);
      ScanOnePairMore(t, m, src, k - 1, AfterPairs(t, m, src, k - 1, d));
    }
  }

  /** Fields of different names do not overlap. */
  lemma NamesApart(t: Type, m: map<string, FieldSpec>, l: seq<FieldSpec>, a: string, b: string)
    requires GoodTables(t, m, l) && a in m && b in m && a != b
    ensures !IsPrefix(m[a].index, m[b].index) && !IsPrefix(m[b].index, m[a].index)
  {
    var i :| 0 <= i < |l| && l[i] == m[a];
    var j :| 0 <= j < |l| && l[j] == m[b];
    assert i != j;
  }

  lemma WritersStep(m: map<string, FieldSpec>, src: seq<Reply>, n: string, k: nat, next: nat)
    requires 2 * k + 1 < |src| && next == k + 1
    ensures WritesName(m, src, k, n) ==>
              !NoWriter(m, src, n, next) && forall i :: LastWriter(m, src, n, next, i) ==> i == k
    ensures !WritesName(m, src, k, n) ==>
              && (NoWriter(m, src, n, next) ==> NoWriter(m, src, n, k))
              && (forall i :: LastWriter(m, src, n, next, i) ==> LastWriter(m, src, n, k, i))
  {
  }

  lemma WrittenFollows(t: Type, m: map<string, FieldSpec>, src: seq<Reply>, v: Value, k: nat, n: string)
    requires InTable(t, m) && HasType(v, t) && n in m && 2 * k + 1 < |src| && WritesName(m, src, k, n)
    ensures Get(t, PairStep(t, m, src, k, v), m[n].index) == Converted(t, m[n], src[2 * k + 1]).value
  {
    GetAfterSet(t, v, m[n].index, Converted(t, m[n], src[2 * k + 1]).value);
  }

  lemma StepFollows(
      t: Type, m: map<string, FieldSpec>, l: seq<FieldSpec>, src: seq<Reply>, d: Value, v: Value, r: Value, k: nat,
      next: nat, n: string)
    requires GoodTables(t, m, l) && HasType(d, t) && HasType(v, t) && n in m && 2 * k + 1 < |src| && next == k + 1
    requires FieldFollows(t, m, src, d, v, k, n) && r == PairStep(t, m, src, k, v)
    ensures FieldFollows(t, m, src, d, r, next, n)
  {
    WritersStep(m, src, n, k, next);
    if WritesName(m, src, k, n) {
      WrittenFollows(t, m, src, v, k, n);
    } else {
      OtherPairKeeps(t, m, l, src, v, k, n);
    }
  }

  lemma OtherPairKeeps(
      t: Type, m: map<string, FieldSpec>, l: seq<FieldSpec>, src: seq<Reply>, v: Value, k: nat, n: string)
    requires GoodTables(t, m, l) && HasType(v, t) && n in m && 2 * k + 1 < |src| && !WritesName(m, src, k, n)
    ensures Get(t, PairStep(t, m, src, k, v), m[n].index) == Get(t, v, m[n].index)
  {
    if Writes(m, src, k) {
      var b := src[2 * k].bytes;
      NamesApart(t, m, l, b, n);
      GetAfterOtherSet(t, v, m[b].index, Converted(t, m[b], src[2 * k + 1]).value, m[n].index);
    }
  }

  /** The field whose value does not convert is left with what the conversion leaves there, starting
      from a struct whose fields follow the pairs before. */
  ghost predicate LeftBy(t: Type, m: map<string, FieldSpec>, src: seq<Reply>, d: Value, r: Value, k: nat)
    requires InTable(t, m) && HasType(d, t) && 2 * k + 1 < |src| && BadValue(t, m, src, k)
  {
    var p := m[src[2 * k].bytes].index;
    exists v :: HasType(v, t) && AllFollow(t, m, src, d, v, k)
                && r == Set(t, v, p, ConvertValue(FieldType(t, p), Get(t, v, p), src[2 * k + 1]).value)
  }

  lemma {:induction false} PairsFollow(
      t: Type, m: map<string, FieldSpec>, l: seq<FieldSpec>, src: seq<Reply>, d: Value, k: nat, n: string)
    requires GoodTables(t, m, l) && HasType(d, t) && n in m && 2 * k <= |src|
    ensures FieldFollows(t, m, src, d, AfterPairs(t, m, src, k, d), k, n)
    decreases k
  {
    if k > 0 {
      PairsFollow(t, m, l, src, d, k - 1, n);
      StepFollows(t, m, l, src, d, AfterPairs(t, m, src, k - 1, d), AfterPairs(t, m, src, k, d), k - 1, k, n);
    }
  }

  // ------------------------------------------------------------------------------------------
  // The outcome.

  /** A reply of whole pairs none of which is trouble is scanned to the end, past names the struct does
      not have and past nils, and every field follows the reply. */
  lemma ScanSucceeds(t: Type, m: map<string, FieldSpec>, l: seq<FieldSpec>, src: seq<Reply>, d: Value)
    requires GoodTables(t, m, l) && HasType(d, t) && |src| % 2 == 0 && NoTrouble(t, m, src, |src| / 2)
    ensures ScanPairs(t, m, src, 0, d).err == ScanOk
    ensures AllFollow(t, m, src, d, ScanPairs(t, m, src, 0, d).value, |src| / 2)
  {
    var k := |src| / 2;
    ScanPastPairs(t, m, src, k, d);
    assert src[2 * k..] == [];
    forall n | n in m ensures FieldFollows(t, m, src, d, AfterPairs(t, m, src, k, d), k, n) {
      PairsFollow(t, m, l, src, d, k, n);
    }
  }

  /** Otherwise the first pair that is trouble is reported, by its position or by the name of its field;
      every other field follows the pairs before it, and no later pair has been written. */
  lemma ScanStopsAtFirst(t: Type, m: map<string, FieldSpec>, l: seq<FieldSpec>, src: seq<Reply>, d: Value, k: nat)
    requires GoodTables(t, m, l) && HasType(d, t) && |src| % 2 == 0 && 2 * k + 1 < |src|
    requires NoTrouble(t, m, src, k) && Trouble(t, m, src, k)
    ensures var r := ScanPairs(t, m, src, 0, d);
            if BadKey(src, k) then r.err == KeyNotBulk(2 * k) && AllFollow(t, m, src, d, r.value, k)
            else
              && r.err == CannotAssign(src[2 * k].bytes) && LeftBy(t, m, src, d, r.value, k)
              && (forall n :: n in m && n != src[2 * k].bytes ==> FieldFollows(t, m, src, d, r.value, k, n))
  {
    var v, rest := AfterPairs(t, m, src, k, d), src[2 * k..];
    ScanPastPairs(t, m, src, k, d);
    assert rest[0] == src[2 * k] && rest[1] == src[2 * k + 1];
    forall n | n in m ensures FieldFollows(t, m, src, d, v, k, n) {
      PairsFollow(t, m, l, src, d, k, n);
    }
    if !BadKey(src, k) {
      FailedFieldAlone(t, m, l, src, d, v, k);
    }
  }

  lemma FailedFieldAlone(
      t: Type, m: map<string, FieldSpec>, l: seq<FieldSpec>, src: seq<Reply>, d: Value, v: Value, k: nat)
    requires GoodTables(t, m, l) && HasType(d, t) && HasType(v, t) && 2 * k + 1 < |src| && BadValue(t, m, src, k)
    requires AllFollow(t, m, src, d, v, k)
    ensures var fs := m[src[2 * k].bytes];
            var c := ConvertValue(FieldType(t, fs.index), Get(t, v, fs.index), src[2 * k + 1]);
            && ScanPairs(t, m, src[2 * k..], 2 * k, v) == Scanned(Set(t, v, fs.index, c.value), CannotAssign(fs.name))
            && fs.name == src[2 * k].bytes
            && Get(t, Set(t, v, fs.index, c.value), fs.index) == c.value
            && (forall n :: n in m && n != fs.name ==>
                  FieldFollows(t, m, src, d, Set(t, v, fs.index, c.value), k, n))
  {
    var b := src[2 * k].bytes;
    var fs, rest := m[b], src[2 * k..];
    assert rest[0] == src[2 * k] && rest[1] == src[2 * k + 1];
    ConvertedWhateverBefore(t, fs, src[2 * k + 1], Get(t, v, fs.index));
    var c := ConvertValue(FieldType(t, fs.index), Get(t, v, fs.index), src[2 * k + 1]);
    GetAfterSet(t, v, fs.index, c.value);
    forall n | n in m && n != b ensures FieldFollows(t, m, src, d, Set(t, v, fs.index, c.value), k, n) {
      NamesApart(t, m, l, b, n);
      GetAfterOtherSet(t, v, fs.index, c.value, m[n].index);
    }
  }
}
