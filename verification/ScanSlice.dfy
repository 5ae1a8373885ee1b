/** ScanSlice: a flat reply as a row-major grid of struct fields. */
module ScanSlice {
  import opened GoTypes
  import opened StructSpec
  import opened GoValues
  import opened Convert
  import opened StructCodec

  datatype SliceError =
    | SliceOk
    | BadFieldName(name: string)
    | NoFields
    | BadLength
    | CannotAssignAt(at: nat)

  /** A struct element after one reply has been stored in a field, or skipped when it is nil. */
  ghost function CellStep(t: Type, p: seq<nat>, s: Reply, d: Value): (r: Value)
    requires HasType(d, t) && HasField(t, p)
    ensures HasType(r, t)
  {
    if s.Nil? then d else Set(t, d, p, ConvertValue(FieldType(t, p), Get(t, d, p), s).value)
  }

  /** A struct element after the first j cells of the row that starts at src[base]. */
  ghost function RowAfter(t: Type, fss: seq<FieldSpec>, src: seq<Reply>, base: nat, d: Value, j: nat): (r: Value)
    requires HasType(d, t) && Listed(t, fss) && j <= |fss| && base + |fss| <= |src|
    ensures HasType(r, t)
  {
    if j == 0 then d
    else CellStep(t, fss[j - 1].index, src[base + j - 1], RowAfter(t, fss, src, base, d, j - 1))
  }

  /** What one cell of the grid becomes, from the value the field had before. */
  ghost function CellAfter(t: Type, prior: Value, s: Reply): Conversion
    requires HasType(prior, t)
  {
    if s.Nil? then Conversion(prior, true) else ConvertValue(t, prior, s)
  }

  /** Two columns never write fields of which one lies inside the other. */
  ghost predicate DistinctColumns(fss: seq<FieldSpec>) {
    forall a, b :: 0 <= a < |fss| && 0 <= b < |fss| && a != b ==> !IsPrefix(fss[a].index, fss[b].index)
  }

  lemma CellStepHere(t: Type, p: seq<nat>, s: Reply, d: Value)
    requires HasType(d, t) && HasField(t, p)
    ensures Get(t, CellStep(t, p, s, d), p) == CellAfter(FieldType(t, p), Get(t, d, p), s).value
  {
    if !s.Nil? {
      GetAfterSet(t, d, p, ConvertValue(FieldType(t, p), Get(t, d, p), s).value);
    }
  }

  lemma CellStepElsewhere(t: Type, p: seq<nat>, s: Reply, d: Value, q: seq<nat>)
    requires HasType(d, t) && HasField(t, p) && HasField(t, q) && !IsPrefix(p, q) && !IsPrefix(q, p)
    ensures Get(t, CellStep(t, p, s, d), q) == Get(t, d, q)
  {
    if !s.Nil? {
      GetAfterOtherSet(t, d, p, ConvertValue(FieldType(t, p), Get(t, d, p), s).value, q);
    }
  }

  /** A sequence that does not change from i to j. */
  lemma {:induction false} Unchanged<V>(f: seq<V>, i: nat, j: nat)
    requires i <= j < |f| && forall k :: i <= k < j ==> f[k + 1] == f[k]
    ensures f[j] == f[i]
    decreases j
  {
    if i < j {
      Unchanged(f, i, j - 1);
      assert f[j - 1 + 1] == f[j - 1];
    }
  }

  /** What column c holds while the first j cells of the row are stored. */
  ghost function Column(t: Type, fss: seq<FieldSpec>, src: seq<Reply>, base: nat, d: Value, j: nat, c: nat)
    : (f: seq<Value>)
    requires HasType(d, t) && Listed(t, fss) && j <= |fss| && base + |fss| <= |src| && c < |fss|
    ensures |f| == j + 1
    ensures forall i :: 0 <= i <= j ==> f[i] == Get(t, RowAfter(t, fss, src, base, d, i), fss[c].index)
  {
    seq(j + 1, i requires 0 <= i <= j => Get(t, RowAfter(t, fss, src, base, d, i), fss[c].index))
  }

  lemma ColumnStays(
      t: Type, fss: seq<FieldSpec>, src: seq<Reply>, base: nat, d: Value, k: nat, c: nat)
    requires HasType(d, t) && Listed(t, fss) && k < |fss| && base + |fss| <= |src|
    requires DistinctColumns(fss) && c < |fss| && k != c
    ensures Get(t, RowAfter(t, fss, src, base, d, k + 1), fss[c].index)
         == Get(t, RowAfter(t, fss, src, base, d, k), fss[c].index)
  {
    var before := RowAfter(t, fss, src, base, d, k);
    CellStepElsewhere(t, fss[k].index, src[base + k], before, fss[c].index);
    assert RowAfter(t, fss, src, base, d, k + 1) == CellStep(t, fss[k].index, src[base + k], before);
  }

  lemma ColumnSteps(
      t: Type, fss: seq<FieldSpec>, src: seq<Reply>, base: nat, d: Value, j: nat, c: nat, f: seq<Value>)
    requires HasType(d, t) && Listed(t, fss) && j <= |fss| && base + |fss| <= |src|
    requires DistinctColumns(fss) && c < |fss| && f == Column(t, fss, src, base, d, j, c)
    ensures forall k :: 0 <= k < j && k != c ==> f[k + 1] == f[k]
  {
    forall k | 0 <= k < j && k != c ensures f[k + 1] == f[k] {
      ColumnStays(t, fss, src, base, d, k, c);
    }
  }

  lemma ChangesOnce<V>(f: seq<V>, j: nat, c: nat)
    requires |f| == j + 1 && forall k :: 0 <= k < j && k != c ==> f[k + 1] == f[k]
    ensures f[j] == (if c < j then f[c + 1] else f[0]) && (c < j ==> f[c] == f[0])
  {
    Unchanged(f, 0, if c < j then c else j);
    if c < j { Unchanged(f, c + 1, j); }
  }

  lemma ColumnChangesOnce(
      t: Type, fss: seq<FieldSpec>, src: seq<Reply>, base: nat, d: Value, j: nat, c: nat)
    requires HasType(d, t) && Listed(t, fss) && j <= |fss| && base + |fss| <= |src|
    requires DistinctColumns(fss) && c < |fss|
    ensures var f := Column(t, fss, src, base, d, j, c);
            f[j] == (if c < j then f[c + 1] else f[0]) && (c < j ==> f[c] == f[0])
  {
    var f := Column(t, fss, src, base, d, j, c);
    ColumnSteps(t, fss, src, base, d, j, c, f);
    ChangesOnce(f, j, c);
  }

  lemma RowCell(t: Type, fss: seq<FieldSpec>, src: seq<Reply>, base: nat, d: Value, j: nat, c: nat)
    requires HasType(d, t) && Listed(t, fss) && j <= |fss| && base + |fss| <= |src|
    requires DistinctColumns(fss) && c < |fss|
    ensures var p := fss[c].index;
            Get(t, RowAfter(t, fss, src, base, d, j), p) ==
            if c < j then CellAfter(FieldType(t, p), Get(t, d, p), src[base + c]).value else Get(t, d, p)
  {
    ColumnChangesOnce(t, fss, src, base, d, j, c);
    if c < j {
      CellStepHere(t, fss[c].index, src[base + c], RowAfter(t, fss, src, base, d, c));
    }
  }

  lemma {:induction false} RowLeavesOtherFields(
      t: Type, fss: seq<FieldSpec>, src: seq<Reply>, base: nat, d: Value, j: nat, q: seq<nat>)
    requires HasType(d, t) && Listed(t, fss) && j <= |fss| && base + |fss| <= |src| && HasField(t, q)
    requires forall c :: 0 <= c < |fss| ==> !IsPrefix(fss[c].index, q) && !IsPrefix(q, fss[c].index)
    ensures Get(t, RowAfter(t, fss, src, base, d, j), q) == Get(t, d, q)
    decreases j
  {
    if j > 0 {
      RowLeavesOtherFields(t, fss, src, base, d, j - 1, q);
      CellStepElsewhere(t, fss[j - 1].index, src[base + j - 1], RowAfter(t, fss, src, base, d, j - 1), q);
    }
  }

  lemma RowInGrid(i: nat, k: nat, n: nat)
    requires i < n
    ensures i * k + k <= n * k
  {
    assert (i + 1) * k <= n * k;
  }

  /** Whether a cell converts depends on the field's type and the reply, not on the value before. */
  lemma CellOkWhateverBefore(t: Type, a: Value, b: Value, s: Reply)
    requires HasType(a, t) && HasType(b, t)
    ensures CellAfter(t, a, s).ok == CellAfter(t, b, s).ok
  {
  }

  ghost predicate CellOk(t: Type, p: seq<nat>, s: Reply)
    requires HasField(t, p)
  {
    CellAfter(FieldType(t, p), Zero(FieldType(t, p)), s).ok
  }

  /** The first j replies of the row that starts at src[base] convert into their columns. */
  ghost predicate RowOk(t: Type, fss: seq<FieldSpec>, src: seq<Reply>, base: nat, j: nat)
    requires Listed(t, fss) && j <= |fss| && base + |fss| <= |src|
  {
    j == 0 || (RowOk(t, fss, src, base, j - 1) && CellOk(t, fss[j - 1].index, src[base + j - 1]))
  }

  ghost predicate RowsOk(t: Type, fss: seq<FieldSpec>, src: seq<Reply>, n: nat, i: nat)
    requires Listed(t, fss) && i <= n && n * |fss| <= |src|
  {
    i == 0 || (RowInGrid(i - 1, |fss|, n); RowsOk(t, fss, src, n, i - 1) && RowOk(t, fss, src, (i - 1) * |fss|, |fss|))
  }

  /** Rows before `i` are full, row `i` has its first `j` cells, and later rows are as they were. */
  ghost predicate Filled(
      t: Type, fss: seq<FieldSpec>, src: seq<Reply>, rows: seq<Value>, prior: seq<Value>, i: nat, j: nat)
    requires Listed(t, fss) && j <= |fss| && |prior| * |fss| <= |src|
    requires forall e :: 0 <= e < |prior| ==> HasType(prior[e], t)
  {
    && |rows| == |prior|
    && forall e :: 0 <= e < |rows| ==>
         (RowInGrid(e, |fss|, |prior|);
          rows[e] == RowAfter(t, fss, src, e * |fss|, prior[e], if e < i then |fss| else if e == i then j else 0))
  }

  /** All cells up to row i, column j convert, that one does not, and nothing is filled after it. */
  ghost predicate StoppedAt(
      t: Type, fss: seq<FieldSpec>, src: seq<Reply>, rows: seq<Value>, prior: seq<Value>, i: nat, j: nat)
    requires Listed(t, fss) && |prior| * |fss| <= |src|
    requires forall e :: 0 <= e < |prior| ==> HasType(prior[e], t)
  {
    && i < |prior| && j < |fss| && RowsOk(t, fss, src, |prior|, i)
    && (RowInGrid(i, |fss|, |prior|);
        RowOk(t, fss, src, i * |fss|, j) && !CellOk(t, fss[j].index, src[i * |fss| + j]))
    && Filled(t, fss, src, rows, prior, i, j + 1)
  }

  lemma FillRow(
      t: Type, fss: seq<FieldSpec>, src: seq<Reply>, rows: seq<Value>, after: seq<Value>, prior: seq<Value>,
      i: nat, j: nat)
    requires Listed(t, fss) && j <= |fss| && |prior| * |fss| <= |src| && i < |prior|
    requires forall e :: 0 <= e < |prior| ==> HasType(prior[e], t)
    requires Filled(t, fss, src, rows, prior, i, 0) && |after| == |rows|
    requires forall e :: 0 <= e < |rows| && e != i ==> after[e] == rows[e]
    requires (RowInGrid(i, |fss|, |prior|); after[i] == RowAfter(t, fss, src, i * |fss|, prior[i], j))
    ensures rows[i] == prior[i] && Filled(t, fss, src, after, prior, i, j)
    ensures j == |fss| ==> Filled(t, fss, src, after, prior, i + 1, 0)
  {
    RowInGrid(i, |fss|, |prior|);
  }

  /** Where the grid stands once row i has been scanned up to column j. */
  lemma AfterRow(
      t: Type, fss: seq<FieldSpec>, src: seq<Reply>, rows: seq<Value>, after: seq<Value>, prior: seq<Value>,
      i: nat, j: nat)
    requires Listed(t, fss) && j <= |fss| && |prior| * |fss| <= |src| && i < |prior|
    requires forall e :: 0 <= e < |prior| ==> HasType(prior[e], t)
    requires RowsOk(t, fss, src, |prior|, i) && Filled(t, fss, src, rows, prior, i, 0) && |after| == |rows|
    requires forall e :: 0 <= e < |rows| && e != i ==> after[e] == rows[e]
    requires (RowInGrid(i, |fss|, |prior|);
              && RowOk(t, fss, src, i * |fss|, j)
              && (j < |fss| ==> !CellOk(t, fss[j].index, src[i * |fss| + j]))
              && after[i] == RowAfter(t, fss, src, i * |fss|, prior[i], if j < |fss| then j + 1 else j))
    ensures if j < |fss| then StoppedAt(t, fss, src, after, prior, i, j)
            else RowsOk(t, fss, src, |prior|, i + 1) && Filled(t, fss, src, after, prior, i + 1, 0)
  {
    RowInGrid(i, |fss|, |prior|);
    FillRow(t, fss, src, rows, after, prior, i, if j < |fss| then j + 1 else j);
  }

  lemma CellPosition(i: nat, k: nat, j: nat)
    requires j < k
    ensures (i * k + j) / k == i && (i * k + j) % k == j
  {
    var x := i * k + j;
    var q := x / k;
    assert x == q * k + x % k;
    assert q < i ==> (q + 1) * k <= i * k;
    assert q > i ==> (i + 1) * k <= q * k;
  }

  /** Which columns to fill: the compiled list, or the fields asked for by name. */
  method SelectFields(m: map<string, FieldSpec>, l: seq<FieldSpec>, names: seq<string>)
      returns (fss: seq<FieldSpec>, err: SliceError)
    ensures err.SliceOk? || err.BadFieldName? || err.NoFields?
    ensures err.BadFieldName? <==> exists a :: 0 <= a < |names| && names[a] !in m
    ensures err.BadFieldName? ==> err.name in names && err.name !in m
    ensures err.NoFields? <==> names == [] && l == []
    ensures err.SliceOk? && names == [] ==> fss == l
    ensures err.SliceOk? && names != [] ==>
              |fss| == |names| && forall a :: 0 <= a < |fss| ==> names[a] in m && fss[a] == m[names[a]]
    ensures err.SliceOk? ==> |fss| > 0
  {
    fss := l;
    if |names| > 0 {
      fss := [];
      for a := 0 to |names|
        invariant |fss| == a
        invariant forall b :: 0 <= b < a ==> names[b] in m && fss[b] == m[names[b]]
      {
        if names[a] !in m { return fss, BadFieldName(names[a]); }
        fss := fss + [m[names[a]]];
      }
    }
    if |fss| == 0 { return fss, NoFields; }
    return fss, SliceOk;
  }

  /** One row: the inner loop over the columns, which stops at the first reply that does not
      convert. `d` is the element before, `r` the element after. */
  method ScanRow(t: Type, fss: seq<FieldSpec>, src: seq<Reply>, base: nat, d: Value) returns (r: Value, j: nat)
    requires HasType(d, t) && Listed(t, fss) && base + |fss| <= |src|
    ensures j <= |fss| && RowOk(t, fss, src, base, j)
    ensures j < |fss| ==> !CellOk(t, fss[j].index, src[base + j])
    ensures r == RowAfter(t, fss, src, base, d, if j < |fss| then j + 1 else j)
  {
    r, j := d, 0;
    while j < |fss|
      invariant 0 <= j <= |fss| && RowOk(t, fss, src, base, j)
      invariant r == RowAfter(t, fss, src, base, d, j)
    {
      var ok;
      r, ok := ScanCell(t, fss, src, base, d, r, j);
      if !ok { return; }
      j := j + 1;
    }
  }

  /** One cell of the row that started as `d` and is `r` by now. */
  method ScanCell(t: Type, fss: seq<FieldSpec>, src: seq<Reply>, base: nat, ghost d: Value, r: Value, j: nat)
      returns (r': Value, ok: bool)
    requires HasType(d, t) && Listed(t, fss) && j < |fss| && base + |fss| <= |src|
    requires r == RowAfter(t, fss, src, base, d, j)
    ensures r' == RowAfter(t, fss, src, base, d, j + 1)
    ensures ok <==> CellOk(t, fss[j].index, src[base + j])
  {
    var p := fss[j].index;
    var s := src[base + j];
    r', ok := r, true;
    if !s.Nil? {
      var c := ConvertValue(FieldType(t, p), Get(t, r, p), s);
      CellOkWhateverBefore(FieldType(t, p), Get(t, r, p), Zero(FieldType(t, p)), s);
      r', ok := Set(t, r, p, c.value), c.ok;
    }
  }

  /** A slice of structs: its length, and a backing array whose length is the capacity. */
  class StructSlice {
    const t: Type
    var data: array<Value>
    var len: nat

    ghost predicate Valid()
      reads this, data
    {
      len <= data.Length && forall i :: 0 <= i < data.Length ==> HasType(data[i], t)
    }

    constructor (t: Type)
      ensures this.t == t && Valid() && len == 0 && fresh(data)
    {
      this.t := t;
      data := new Value[0];
      len := 0;
    }

    /** Elements already there are kept, even stale ones beyond the old length. */
    method EnsureLen(n: nat)
      requires Valid()
      modifies this
      ensures Valid() && len == n
      ensures if n > old(data.Length)
              then fresh(data) && data.Length == n && forall i :: 0 <= i < n ==> data[i] == Zero(t)
              else data == old(data)
    {
      if n > data.Length {
        data := new Value[n](_ => Zero(t));
      }
      len := n;
    }

    /** The elements the n rows start from. */
    ghost function Priors(n: nat): (ps: seq<Value>)
      requires Valid()
      reads this, data
      ensures |ps| == n && forall i :: 0 <= i < n ==> HasType(ps[i], t)
    {
      if n > data.Length then seq(n, _ => Zero(t)) else data[..n]
    }

    /** One element: row i, up to the first column that stops it. */
    method FillOne(fss: seq<FieldSpec>, src: seq<Reply>, n: nat, i: nat, ghost prior: seq<Value>) returns (j: nat)
      requires Valid() && Listed(t, fss) && len == n && n * |fss| <= |src| && i < n == |prior|
      requires forall e :: 0 <= e < n ==> HasType(prior[e], t)
      requires RowsOk(t, fss, src, n, i) && Filled(t, fss, src, data[..n], prior, i, 0)
      modifies data
      ensures Valid() && j <= |fss| && data[n..] == old(data[n..])
      ensures if j < |fss| then StoppedAt(t, fss, src, data[..n], prior, i, j)
              else RowsOk(t, fss, src, n, i + 1) && Filled(t, fss, src, data[..n], prior, i + 1, 0)
    {
      RowInGrid(i, |fss|, n);
      ghost var rows := data[..n];
      assert data[i] == rows[i] == prior[i];
      var r;
      r, j := ScanRow(t, fss, src, i * |fss|, data[i]);
      data[i] := r;
      AfterRow(t, fss, src, rows, data[..n], prior, i, j);
    }

    /** The outer loop: rows until the first that stops early, at column j. */
    method FillRows(fss: seq<FieldSpec>, src: seq<Reply>, n: nat) returns (i: nat, j: nat)
      requires Valid() && Listed(t, fss) && len == n && n * |fss| <= |src|
      modifies data
      ensures Valid() && i <= n && RowsOk(t, fss, src, n, i)
      ensures data[n..] == old(data[n..])
      ensures i == n ==> Filled(t, fss, src, data[..n], old(data[..n]), n, 0)
      ensures i < n ==> StoppedAt(t, fss, src, data[..n], old(data[..n]), i, j)
    {
      ghost var prior := data[..n];
      i, j := 0, 0;
      while i < n
        invariant 0 <= i <= n && RowsOk(t, fss, src, n, i)
        invariant Valid() && Filled(t, fss, src, data[..n], prior, i, 0)
        invariant data[n..] == old(data[n..])
      {
        j := FillOne(fss, src, n, i, prior);
        if j < |fss| { return; }
        i := i + 1;
      }
    }

    /** Making room for n rows, and filling them. */
    method Fill(fss: seq<FieldSpec>, src: seq<Reply>, n: nat) returns (i: nat, j: nat)
      requires Valid() && Listed(t, fss) && n * |fss| == |src|
      modifies this, data
      ensures Valid() && len == n && i <= n
      ensures if n > old(data.Length) then fresh(data) else data == old(data) && data[n..] == old(data[n..])
      ensures i == n ==> RowsOk(t, fss, src, n, n) && Filled(t, fss, src, data[..n], old(Priors(n)), n, 0)
      ensures i < n ==> StoppedAt(t, fss, src, data[..n], old(Priors(n)), i, j)
    {
      ghost var priors := Priors(n);
      EnsureLen(n);
      assert data[..n] == priors;
      i, j := FillRows(fss, src, n);
    }

    method Scan(fss: seq<FieldSpec>, src: seq<Reply>) returns (err: SliceError)
      requires Valid() && Listed(t, fss) && |fss| > 0
      modifies this, data
      ensures Valid() && (err.SliceOk? || err.BadLength? || err.CannotAssignAt?)
      ensures err.BadLength? <==> |src| / |fss| * |fss| != |src|
      ensures err.BadLength? ==> data == old(data) && len == old(len) && data[..] == old(data[..])
      ensures var n := |src| / |fss|;
              !err.BadLength? ==>
                && len == n
                && (if n > old(data.Length) then fresh(data) else data == old(data) && data[n..] == old(data[n..]))
      ensures var n := |src| / |fss|;
              err.SliceOk? ==>
                && RowsOk(t, fss, src, n, n)
                && Filled(t, fss, src, data[..n], old(Priors(n)), n, 0)
      ensures var n := |src| / |fss|;
              err.CannotAssignAt? ==>
                var i, j := err.at / |fss|, err.at % |fss|;
                err.at == i * |fss| + j && StoppedAt(t, fss, src, data[..n], old(Priors(n)), i, j)
    {
      var k := |fss|;
      var n := |src| / k;
      if n * k != |src| { return BadLength; }
      var i, j := Fill(fss, src, n);
      if i < n {
        CellPosition(i, k, j);
        err := CannotAssignAt(i * k + j);
      } else {
        err := SliceOk;
      }
    }
  }

  /** The grid, cell by cell: filled cells hold the conversion of their reply, or the value before
      when the reply is nil, and every later cell still holds the value before. */
  lemma GridCell(
      t: Type, fss: seq<FieldSpec>, src: seq<Reply>, rows: seq<Value>, prior: seq<Value>,
      i: nat, j: nat, e: nat, c: nat)
    requires Listed(t, fss) && j <= |fss| && |prior| * |fss| <= |src| && DistinctColumns(fss)
    requires forall x :: 0 <= x < |prior| ==> HasType(prior[x], t)
    requires Filled(t, fss, src, rows, prior, i, j) && e < |rows| && c < |fss|
    ensures var p := fss[c].index;
            && HasType(rows[e], t) && e * |fss| + c < |src|
            && Get(t, rows[e], p) ==
               if (e < i || (e == i && c < j)) && !src[e * |fss| + c].Nil?
               then ConvertValue(FieldType(t, p), Get(t, prior[e], p), src[e * |fss| + c]).value
               else Get(t, prior[e], p)
  {
    RowInGrid(e, |fss|, |prior|);
    RowCell(t, fss, src, e * |fss|, prior[e], if e < i then |fss| else if e == i then j else 0, c);
  }

  /** A cell is in order when its reply is nil or converts, whatever the field holds. */
  lemma CellOkMeans(t: Type, p: seq<nat>, s: Reply, d: Value)
    requires HasField(t, p) && HasType(d, FieldType(t, p))
    ensures CellOk(t, p, s) <==> s.Nil? || ConvertValue(FieldType(t, p), d, s).ok
  {
    CellOkWhateverBefore(FieldType(t, p), d, Zero(FieldType(t, p)), s);
  }

  lemma {:induction false} RowOkMeans(t: Type, fss: seq<FieldSpec>, src: seq<Reply>, base: nat, j: nat)
    requires Listed(t, fss) && j <= |fss| && base + |fss| <= |src|
    ensures RowOk(t, fss, src, base, j) <==> forall c :: 0 <= c < j ==> CellOk(t, fss[c].index, src[base + c])
    decreases j
  {
    if j > 0 {
      RowOkMeans(t, fss, src, base, j - 1);
    }
  }

  /** Cell (e, c) of the grid is in order. */
  ghost predicate InOrder(t: Type, fss: seq<FieldSpec>, src: seq<Reply>, e: nat, c: nat) {
    && c < |fss| && HasField(t, fss[c].index) && e * |fss| + c < |src|
    && CellOk(t, fss[c].index, src[e * |fss| + c])
  }

  /** Rows are in order exactly when all their cells are. */
  lemma {:induction false} RowsOkMeans(t: Type, fss: seq<FieldSpec>, src: seq<Reply>, n: nat, i: nat)
    requires Listed(t, fss) && i <= n && n * |fss| <= |src|
    ensures RowsOk(t, fss, src, n, i) <==> forall e, c :: 0 <= e < i && 0 <= c < |fss| ==> InOrder(t, fss, src, e, c)
    decreases i
  {
    if i > 0 {
      RowInGrid(i - 1, |fss|, n);
      RowsOkMeans(t, fss, src, n, i - 1);
      RowOkMeans(t, fss, src, (i - 1) * |fss|, |fss|);
      assert forall c :: 0 <= c < |fss| ==>
               (InOrder(t, fss, src, i - 1, c) <==> CellOk(t, fss[c].index, src[(i - 1) * |fss| + c]));
    }
  }

  /** The columns never overlap for the compiled list, nor for distinct names asked for. */
  lemma ColumnsDistinct(t: Type, names: seq<string>, fss: seq<FieldSpec>)
    requires t.Struct?
    requires forall a :: 0 <= a < |names| ==> names[a] in Compiled(t).m
    requires forall a, b :: 0 <= a < b < |names| ==> names[a] != names[b]
    requires if names == [] then fss == Compiled(t).l
             else fss == seq(|names|, a requires 0 <= a < |names| => Compiled(t).m[names[a]])
    ensures Listed(t, fss) && DistinctColumns(fss)
  {
    CompiledTablesAreGood(t);
    var m, l := Compiled(t).m, Compiled(t).l;
    if names != [] {
      forall a, b | 0 <= a < |fss| && 0 <= b < |fss| && a != b ensures !IsPrefix(fss[a].index, fss[b].index) {
        var x :| 0 <= x < |l| && l[x] == m[names[a]];
        var y :| 0 <= y < |l| && l[y] == m[names[b]];
        assert names[a] != names[b];
        assert x != y;
      }
    }
  }

  /** A slice of pointers to structs; nil elements are filled with new structs. */
  class PointerSlice {
    const t: Type
    var data: array<StructCell?>
    var len: nat

    ghost predicate Valid()
      reads this, data, Cells()
    {
      && len <= data.Length
      && (forall e :: 0 <= e < data.Length && data[e] != null ==> data[e].t == t && data[e].Valid())
    }

    /** No two elements are the same pointer. */
    ghost predicate NoAliases()
      reads this, data
    {
      forall e, f :: 0 <= e < f < data.Length && data[e] != null ==> data[e] != data[f]
    }

    ghost function Cells(): set<StructCell>
      reads this, data
    {
      set c: StructCell | c in data[..]
    }

    /** The struct that row e starts from. */
    ghost function Start(e: nat): (v: Value)
      requires Valid() && e < data.Length
      reads this, data, Cells()
      ensures HasType(v, t)
    {
      if data[e] == null then Zero(t) else (assert data[e] in Cells(); data[e].value)
    }

    ghost function Starts(): (vs: seq<Value>)
      requires Valid()
      reads this, data, Cells()
      ensures |vs| == data.Length && forall e :: 0 <= e < |vs| ==> vs[e] == Start(e)
    {
      seq(data.Length, e requires 0 <= e < data.Length && Valid() reads this, data, Cells() => Start(e))
    }

    /** The body of the outer loop: one element, created when it is nil. */
    method FillElement(fss: seq<FieldSpec>, src: seq<Reply>, base: nat, e: nat) returns (j: nat)
      requires Valid() && NoAliases() && e < data.Length && Listed(t, fss) && base + |fss| <= |src|
      modifies data, Cells()
      ensures Valid() && NoAliases() && data[e] != null && Cells() <= old(Cells()) + {data[e]}
      ensures if old(data[e]) == null then fresh(data[e]) else data[e] == old(data[e])
      ensures data[..] == old(data[..])[e := data[e]]
      ensures j <= |fss| && RowOk(t, fss, src, base, j)
      ensures j < |fss| ==> !CellOk(t, fss[j].index, src[base + j])
      ensures Starts() ==
              old(Starts())[e := RowAfter(t, fss, src, base, old(Start(e)), if j < |fss| then j + 1 else j)]
    {
      if data[e] == null {
        data[e] := new StructCell(t);
      }
      var cell := data[e];
      assert cell in Cells();
      var r;
      r, j := ScanRow(t, fss, src, base, cell.value);
      cell.value := r;
    }

    /** That body at row i of the grid. */
    method FillNext(fss: seq<FieldSpec>, src: seq<Reply>, n: nat, i: nat, ghost prior: seq<Value>) returns (j: nat)
      requires Valid() && NoAliases() && Listed(t, fss) && i < n <= data.Length && n * |fss| <= |src|
      requires |prior| == n && forall e :: 0 <= e < n ==> HasType(prior[e], t)
      requires Filled(t, fss, src, Starts()[..n], prior, i, 0) && RowsOk(t, fss, src, n, i)
      modifies data, Cells()
      ensures Valid() && NoAliases() && data[i] != null && Cells() <= old(Cells()) + {data[i]}
      ensures if old(data[i]) == null then fresh(data[i]) else data[i] == old(data[i])
      ensures data[..] == old(data[..])[i := data[i]] && Starts()[n..] == old(Starts())[n..]
      ensures j <= |fss|
      ensures j == |fss| ==> RowsOk(t, fss, src, n, i + 1) && Filled(t, fss, src, Starts()[..n], prior, i + 1, 0)
      ensures j < |fss| ==> StoppedAt(t, fss, src, Starts()[..n], prior, i, j)
    {
      RowInGrid(i, |fss|, n);
      ghost var rows := Starts()[..n];
      assert rows[i] == prior[i] == Start(i);
      j := FillElement(fss, src, i * |fss|, i);
      FillRow(t, fss, src, rows, Starts()[..n], prior, i, if j < |fss| then j + 1 else j);
    }

    /** The grid over pointers: each element's struct is filled as in a slice of structs, pointers
        that were there are kept, and later elements are not touched. */
    method FillRows(fss: seq<FieldSpec>, src: seq<Reply>, n: nat) returns (i: nat, j: nat)
      requires Valid() && NoAliases() && Listed(t, fss) && n <= data.Length && n * |fss| <= |src|
      modifies data, Cells()
      ensures Valid() && NoAliases() && i <= n && j <= |fss| && RowsOk(t, fss, src, n, i)
      ensures forall f :: 0 <= f < n && f <= i ==> data[f] != null
      ensures forall f :: 0 <= f < data.Length && (i < f || n <= f || old(data[f]) != null) ==> data[f] == old(data[f])
      ensures Starts()[n..] == old(Starts())[n..]
      ensures i == n ==> Filled(t, fss, src, Starts()[..n], old(Starts())[..n], n, 0)
      ensures i < n ==> StoppedAt(t, fss, src, Starts()[..n], old(Starts())[..n], i, j)
    {
      ghost var prior := Starts()[..n];
      i, j := 0, 0;
      while i < n
        invariant 0 <= i <= n && 0 <= j <= |fss| && Valid() && NoAliases() && RowsOk(t, fss, src, n, i)
        invariant forall c :: c in Cells() ==> c in old(Cells()) || fresh(c)
        invariant forall f :: 0 <= f < i ==> data[f] != null
        invariant forall f :: 0 <= f < data.Length && (i <= f || old(data[f]) != null) ==> data[f] == old(data[f])
        invariant Starts()[n..] == old(Starts())[n..]
        invariant Filled(t, fss, src, Starts()[..n], prior, i, 0)
      {
        j := FillNext(fss, src, n, i, prior);
        if j < |fss| { return; }
        i := i + 1;
      }
    }
  }
}
