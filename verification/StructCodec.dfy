/** flattenStruct and ScanStruct, the two halves of the hash round trip. */
module StructCodec {
  import opened GoTypes
  import opened StructSpec
  import opened ShadowedNames
  import opened GoValues
  import opened Decimal
  import opened Numerals
  import opened Convert

  datatype Arg = NameArg(name: string) | ValueArg(v: Value)

  predicate IsEmpty(v: Value) {
    match v
    case StructV(_) => false
    case IntV(i) => i == 0
    case UintV(u) => u == 0
    case BoolV(b) => !b
    case StringV(s) => |s| == 0
    case BytesV(_, data) => |data| == 0
    case FloatV(isZero, _) => isZero
    case OtherV(empty, _) => empty
  }

  ghost predicate Listed(t: Type, l: seq<FieldSpec>) {
    forall a :: 0 <= a < |l| ==> HasField(t, l[a].index)
  }

  ghost predicate InTable(t: Type, m: map<string, FieldSpec>) {
    forall n :: n in m ==> HasField(t, m[n].index)
  }

  predicate Omitted(t: Type, v: Value, fs: FieldSpec)
    requires HasType(v, t) && HasField(t, fs.index)
  {
    fs.omitEmpty && IsEmpty(Get(t, v, fs.index))
  }

  ghost function Flattened(t: Type, v: Value, l: seq<FieldSpec>): seq<Arg>
    requires HasType(v, t) && Listed(t, l)
  {
    if l == [] then []
    else
      (if Omitted(t, v, l[0]) then [] else [NameArg(l[0].name), ValueArg(Get(t, v, l[0].index))])
      + Flattened(t, v, l[1..])
  }

  lemma FlattenStep(t: Type, v: Value, l: seq<FieldSpec>, a: nat)
    requires HasType(v, t) && Listed(t, l) && a < |l|
    ensures Flattened(t, v, l[a..]) ==
            if Omitted(t, v, l[a]) then Flattened(t, v, l[a + 1..])
            else [NameArg(l[a].name), ValueArg(Get(t, v, l[a].index))] + Flattened(t, v, l[a + 1..])
  {
    assert l[a..][0] == l[a] && l[a..][1..] == l[a + 1..];
    assert [] + Flattened(t, v, l[a + 1..]) == Flattened(t, v, l[a + 1..]);
  }

  lemma Regroup(a: seq<Arg>, b: seq<Arg>, c: seq<Arg>)
    ensures a + (b + c) == (a + b) + c
  {
  }

  method FlattenStruct(args: seq<Arg>, t: Type, v: Value, l: seq<FieldSpec>) returns (r: seq<Arg>)
    requires HasType(v, t) && Listed(t, l)
    ensures r == args + Flattened(t, v, l)
  {
    r := args;
    for a := 0 to |l|
      invariant r + Flattened(t, v, l[a..]) == args + Flattened(t, v, l)
    {
      var fs := l[a];
      var fv := Get(t, v, fs.index);
      FlattenStep(t, v, l, a);
      if fs.omitEmpty {
        if IsEmpty(fv) { continue; }
      }
      Regroup(r, [NameArg(fs.name), ValueArg(fv)], Flattened(t, v, l[a + 1..]));
      r := r + [NameArg(fs.name), ValueArg(fv)];
    }
    assert r + [] == r;
  }

  // ------------------------------------------------------------------------------------------
  // The text a value travels as, and that the converters read it back.

  predicate Encodable(v: Value) {
    v.IntV? || v.UintV? || v.BoolV? || v.StringV? || v.BytesV?
  }

  function ValueText(v: Value): string
    requires Encodable(v)
  {
    match v
    case IntV(i) => PrintInt(i)
    case UintV(u) => PrintNat(u)
    case BoolV(b) => if b then "1" else "0"
    case StringV(s) => s
    case BytesV(_, data) => data
  }

  ghost predicate Encodables(args: seq<Arg>) {
    forall k :: 0 <= k < |args| && args[k].ValueArg? ==> Encodable(args[k].v)
  }

  /** A text as a bulk string; no number of a float kind is sent. */
  function Sent(text: string): Reply { Bulk(text, NO_FLOAT) }

  ghost function Encoded(args: seq<Arg>): (r: seq<Reply>)
    requires Encodables(args)
    ensures |r| == |args|
  {
    seq(|args|, k requires 0 <= k < |args| =>
      match args[k] case NameArg(name) => Sent(name) case ValueArg(v) => Sent(ValueText(v)))
  }

  /** Equal but for what a hash cannot carry: a nil slice against an empty one, the sign of a zero. */
  predicate SameContent(a: Value, b: Value) {
    || a == b || (a.BytesV? && b.BytesV? && a.data == b.data)
    || (a.FloatV? && b.FloatV? && a.isZero && b.isZero) || (a.OtherV? && b.OtherV? && a.empty && b.empty)
  }

  /** What travels: the shortest numeral, 1 or 0, or the bytes themselves. */
  lemma TextSent(v: Value)
    requires Encodable(v)
    ensures var s := ValueText(v);
            match v {
              case IntV(i) => IsShortestFor(s, i)
              case UintV(u) => IsShortestFor(s, u)
              case BoolV(b) => s == if b then "1" else "0"
              case StringV(text) => s == text
              case BytesV(_, data) => s == data
              case _ => false
            }
  {
    match v {
      case IntV(i) => PrintedIsShortest(i);
      case UintV(u) => PrintedIsShortest(u);
      case _ =>
    }
  }

  lemma IntReadsBack(bits: Width, i: int)
    requires FitsSigned(i, bits)
    ensures TextToInt(bits, PrintInt(i)) == Conversion(IntV(i), true)
  {
    ParsePrintedInt(i, Pow2(bits as nat - 1));
  }

  lemma UintReadsBack(bits: Width, u: nat)
    requires FitsUnsigned(u, bits)
    ensures TextToUint(bits, PrintNat(u)) == Conversion(UintV(u), true)
  {
    ParsePrintedUint(u, Pow2(bits as nat) - 1);
  }

  lemma TextReadsBack(t: Type, v: Value, d: Value)
    requires HasType(v, t) && HasType(d, t) && Encodable(v)
    ensures var c := ConvertText(t, d, ValueText(v), NO_FLOAT); c.ok && SameContent(c.value, v)
  {
    match v {
      case IntV(i) => IntReadsBack(t.kind.bits, i);
      case UintV(u) => UintReadsBack(t.kind.bits, u);
      case BoolV(b) => assert ParseBool("1").value && !ParseBool("0").value;
      case _ =>
    }
  }

  /** What omitempty calls empty has exactly the content of the zero value, which for bytes is a nil
      slice; a struct is never empty. */
  lemma EmptyMeansZero(t: Type, v: Value)
    requires HasType(v, t)
    ensures t.Basic? ==> (IsEmpty(v) <==> SameContent(Zero(t), v))
    ensures t == Basic(BytesKind) ==> Zero(t).isNil
    ensures t.Struct? ==> !IsEmpty(v)
  {
  }

  /** How many of the first a listed fields are sent. */
  ghost function SentBefore(t: Type, v: Value, l: seq<FieldSpec>, a: nat): nat
    requires HasType(v, t) && Listed(t, l) && a <= |l|
  {
    if a == 0 then 0
    else
      SentBefore(t, v, l, a - 1)
      + if l[a - 1].omitEmpty && IsEmpty(Get(t, v, l[a - 1].index)) then 0 else 1
  }

  lemma {:induction false} SentBeforeTail(t: Type, v: Value, l: seq<FieldSpec>, a: nat)
    requires HasType(v, t) && Listed(t, l) && 0 < a <= |l|
    ensures SentBefore(t, v, l, a) == SentBefore(t, v, l, 1) + SentBefore(t, v, l[1..], a - 1)
    decreases a
  {
    if a > 1 {
      SentBeforeTail(t, v, l, a - 1);
      assert l[1..][a - 2] == l[a - 1];
    }
  }

  ghost predicate PairAt(f: seq<Arg>, at: nat, name: string, v: Value) {
    at + 1 < |f| && f[at] == NameArg(name) && f[at + 1] == ValueArg(v)
  }

  lemma PairAfter(f: seq<Arg>, more: seq<Arg>, at: nat, name: string, v: Value)
    requires PairAt(more, at, name, v)
    ensures PairAt(f + more, |f| + at, name, v)
  {
  }

  /** The first field gives two arguments or none. */
  lemma FlattenedFront(t: Type, v: Value, l: seq<FieldSpec>)
    requires HasType(v, t) && Listed(t, l) && |l| > 0
    ensures Listed(t, l[1..])
    ensures var rest := Flattened(t, v, l[1..]);
            Flattened(t, v, l)
            == if Omitted(t, v, l[0]) then rest
               else [NameArg(l[0].name), ValueArg(Get(t, v, l[0].index))] + rest
  {
  }

  lemma {:induction false} FlattenedLength(t: Type, v: Value, l: seq<FieldSpec>)
    requires HasType(v, t) && Listed(t, l)
    ensures |Flattened(t, v, l)| == 2 * SentBefore(t, v, l, |l|)
    decreases |l|
  {
    if |l| > 0 {
      SentBeforeTail(t, v, l, |l|);
      FlattenedFront(t, v, l);
      FlattenedLength(t, v, l[1..]);
      OneSent(t, v, l);
    }
  }

  lemma OneSent(t: Type, v: Value, l: seq<FieldSpec>)
    requires HasType(v, t) && Listed(t, l) && |l| > 0
    ensures SentBefore(t, v, l, 1) == if Omitted(t, v, l[0]) then 0 else 1
  {
    assert SentBefore(t, v, l, 0) == 0;
  }

  /** What the rest of the list gives comes after what the first field gives. */
  lemma PairAfterFront(t: Type, v: Value, l: seq<FieldSpec>, at: nat, name: string, x: Value)
    requires HasType(v, t) && Listed(t, l) && |l| > 0
    requires PairAt(Flattened(t, v, l[1..]), at, name, x)
    ensures PairAt(Flattened(t, v, l), 2 * SentBefore(t, v, l, 1) + at, name, x)
  {
    FlattenedFront(t, v, l);
    OneSent(t, v, l);
    if !Omitted(t, v, l[0]) {
      PairAfter([NameArg(l[0].name), ValueArg(Get(t, v, l[0].index))], Flattened(t, v, l[1..]), at, name, x);
    }
  }

  /** The arguments are a name and a value for each listed field in order, without those that are
      marked omitempty and empty; by FlattenedLength there is nothing else. */
  lemma {:induction false} FlattenedAt(t: Type, v: Value, l: seq<FieldSpec>, a: nat)
    requires HasType(v, t) && Listed(t, l) && a < |l|
    requires !(l[a].omitEmpty && IsEmpty(Get(t, v, l[a].index)))
    ensures PairAt(Flattened(t, v, l), 2 * SentBefore(t, v, l, a), l[a].name, Get(t, v, l[a].index))
    decreases |l|
  {
    if a == 0 {
      FlattenedFront(t, v, l);
    } else {
      var rest := l[1..];
      assert rest[a - 1] == l[a];
      FlattenedAt(t, v, rest, a - 1);
      SentBeforeTail(t, v, l, a);
      PairAfterFront(t, v, l, 2 * SentBefore(t, v, rest, a - 1), l[a].name, Get(t, v, l[a].index));
    }
  }

  // ------------------------------------------------------------------------------------------
  // Scanning.

  datatype ScanError = ScanOk | OddLength | KeyNotBulk(at: nat) | CannotAssign(name: string)
  datatype Scanned = Scanned(value: Value, err: ScanError)

  /** The loop of ScanStruct over the pairs that remain; `at` is the position of the first. */
  function ScanPairs(t: Type, m: map<string, FieldSpec>, src: seq<Reply>, at: nat, d: Value): (r: Scanned)
    requires HasType(d, t) && InTable(t, m)
    ensures HasType(r.value, t)
    decreases |src|
  {
    if |src| < 2 then Scanned(d, ScanOk)
    else if src[1].Nil? then ScanPairs(t, m, src[2..], at + 2, d)
    else if !src[0].Bulk? then Scanned(d, KeyNotBulk(at))
    else if src[0].bytes !in m then ScanPairs(t, m, src[2..], at + 2, d)
    else
      var fs := m[src[0].bytes];
      var c := ConvertValue(FieldType(t, fs.index), Get(t, d, fs.index), src[1]);
      var d' := Set(t, d, fs.index, c.value);
      if c.ok then ScanPairs(t, m, src[2..], at + 2, d') else Scanned(d', CannotAssign(fs.name))
  }

  /** The struct a ScanStruct destination points to. */
  class StructCell {
    const t: Type
    var value: Value

    ghost predicate Valid()
      reads this
    {
      HasType(value, t)
    }

    constructor (t: Type)
      ensures this.t == t && value == Zero(t) && Valid()
    {
      this.t := t;
      value := Zero(t);
    }

    method Scan(m: map<string, FieldSpec>, src: seq<Reply>) returns (err: ScanError)
      requires Valid() && InTable(t, m)
      modifies `value
      ensures Valid()
      ensures |src| % 2 != 0 ==> err == OddLength && value == old(value)
      ensures |src| % 2 == 0 ==> Scanned(value, err) == ScanPairs(t, m, src, 0, old(value))
    {
      if |src| % 2 != 0 { return OddLength; }
      var i := 0;
      while i < |src|
        invariant 0 <= i <= |src| && i % 2 == 0 && Valid()
        invariant ScanPairs(t, m, src[i..], i, value) == ScanPairs(t, m, src, 0, old(value))
      {
        var key, s := src[i], src[i + 1];
        assert src[i..][0] == key && src[i..][1] == s && src[i..][2..] == src[i + 2..];
        i := i + 2;
        if s.Nil? { continue; }
        if !key.Bulk? { return KeyNotBulk(i - 2); }
        if key.bytes !in m { continue; }
        var fs := m[key.bytes];
        var c := ConvertValue(FieldType(t, fs.index), Get(t, value, fs.index), s);
        value := Set(t, value, fs.index, c.value);
        if !c.ok { return CannotAssign(fs.name); }
      }
      return ScanOk;
    }
  }

  /** Whatever is scanned, only fields in the name table are written. */
  lemma {:induction false} ScanWritesOnlyTableFields(
      t: Type, m: map<string, FieldSpec>, src: seq<Reply>, at: nat, d: Value, q: seq<nat>)
    requires HasType(d, t) && InTable(t, m) && HasField(t, q)
    requires forall n :: n in m ==> !IsPrefix(m[n].index, q) && !IsPrefix(q, m[n].index)
    ensures Get(t, ScanPairs(t, m, src, at, d).value, q) == Get(t, d, q)
    decreases |src|
  {
    if |src| >= 2 {
      if src[1].Nil? || (src[0].Bulk? && src[0].bytes !in m) {
        ScanWritesOnlyTableFields(t, m, src[2..], at + 2, d, q);
      } else if src[0].Bulk? {
        var fs := m[src[0].bytes];
        var c := ConvertValue(FieldType(t, fs.index), Get(t, d, fs.index), src[1]);
        GetAfterOtherSet(t, d, fs.index, c.value, q);
        if c.ok {
          ScanWritesOnlyTableFields(t, m, src[2..], at + 2, Set(t, d, fs.index, c.value), q);
        }
      }
    }
  }

  // ------------------------------------------------------------------------------------------
  // The round trip.

  /** Every listed field that is not omitted has a text. */
  ghost predicate Sendable(t: Type, v: Value, l: seq<FieldSpec>)
    requires HasType(v, t) && Listed(t, l)
  {
    forall a :: 0 <= a < |l| ==> Omitted(t, v, l[a]) || Encodable(Get(t, v, l[a].index))
  }

  lemma {:induction false} FlattenedIsEncodable(t: Type, v: Value, l: seq<FieldSpec>)
    requires HasType(v, t) && Listed(t, l) && Sendable(t, v, l)
    ensures Encodables(Flattened(t, v, l))
  {
    if l != [] {
      FlattenedIsEncodable(t, v, l[1..]);
    }
  }

  /** What the compiled tables promise the two loops. */
  ghost predicate GoodTables(t: Type, m: map<string, FieldSpec>, l: seq<FieldSpec>) {
    && Listed(t, l) && InTable(t, m)
    && (forall a, b :: 0 <= a < |l| && 0 <= b < |l| && a != b ==> !IsPrefix(l[a].index, l[b].index))
    && (forall a :: 0 <= a < |l| ==> l[a].name in m)
    && (forall n :: n in m ==> m[n] in l && m[n].name == n)
  }

  lemma CompiledTablesAreGood(t: Type)
    requires t.Struct?
    ensures GoodTables(t, Compiled(t).m, Compiled(t).l)
  {
    var m, l := Compiled(t).m, Compiled(t).l;
    LeavesIndexed(t, [], 0);
    ListAgainstTable(Leaves(t, [], 0));
    forall a | 0 <= a < |l| ensures HasField(t, l[a].index) && l[a].name in m {
      ListedEntryIsLeaf(t, a);
      LeafPathIsField(t, l[a].index);
    }
    forall a, b | 0 <= a < |l| && 0 <= b < |l| && a != b ensures !IsPrefix(l[a].index, l[b].index) {
      ListedPathsReachTheirLeaves(t, if a < b then a else b, if a < b then b else a);
    }
  }

  /** The destination agrees with v on the first k listed fields and is still zero on the others. */
  ghost predicate ScannedSoFar(t: Type, l: seq<FieldSpec>, v: Value, d: Value, k: nat)
    requires HasType(v, t) && HasType(d, t) && Listed(t, l)
  {
    && (forall a :: 0 <= a < k && a < |l| ==> SameContent(Get(t, d, l[a].index), Get(t, v, l[a].index)))
    && (forall a :: k <= a < |l| ==> Get(t, d, l[a].index) == Zero(FieldType(t, l[a].index)))
  }

  lemma ScanOneField(t: Type, l: seq<FieldSpec>, v: Value, d: Value, k: nat)
    requires Listed(t, l) && HasType(v, t) && HasType(d, t) && k < |l|
    requires forall a, b :: 0 <= a < |l| && 0 <= b < |l| && a != b ==> !IsPrefix(l[a].index, l[b].index)
    requires ScannedSoFar(t, l, v, d, k) && Encodable(Get(t, v, l[k].index))
    ensures var p := l[k].index;
            var c := ConvertText(FieldType(t, p), Get(t, d, p), ValueText(Get(t, v, p)), NO_FLOAT);
            c.ok && ScannedSoFar(t, l, v, Set(t, d, p, c.value), k + 1)
  {
    var p := l[k].index;
    var x := Get(t, v, p);
    TextReadsBack(FieldType(t, p), x, Get(t, d, p));
    var c := ConvertText(FieldType(t, p), Get(t, d, p), ValueText(x), NO_FLOAT);
    GetAfterSet(t, d, p, c.value);
    forall a | 0 <= a < |l| && a != k ensures Get(t, Set(t, d, p, c.value), l[a].index) == Get(t, d, l[a].index) {
      GetAfterOtherSet(t, d, p, c.value, l[a].index);
    }
  }

  lemma SkipOneField(t: Type, l: seq<FieldSpec>, v: Value, d: Value, k: nat)
    requires Listed(t, l) && HasType(v, t) && HasType(d, t) && k < |l|
    requires ScannedSoFar(t, l, v, d, k) && IsEmpty(Get(t, v, l[k].index))
    ensures ScannedSoFar(t, l, v, d, k + 1)
  {
    EmptyMeansZero(FieldType(t, l[k].index), Get(t, v, l[k].index));
  }

  /** The replies themselves, field by field. */
  ghost function Wire(t: Type, v: Value, l: seq<FieldSpec>): seq<Reply>
    requires HasType(v, t) && Listed(t, l) && Sendable(t, v, l)
  {
    if l == [] then []
    else if Omitted(t, v, l[0]) then Wire(t, v, l[1..])
    else [Sent(l[0].name), Sent(ValueText(Get(t, v, l[0].index)))] + Wire(t, v, l[1..])
  }

  lemma {:induction false} WireIsEncoded(t: Type, v: Value, l: seq<FieldSpec>)
    requires HasType(v, t) && Listed(t, l) && Sendable(t, v, l)
    ensures Encodables(Flattened(t, v, l)) && Encoded(Flattened(t, v, l)) == Wire(t, v, l)
    decreases |l|
  {
    FlattenedIsEncodable(t, v, l);
    if l != [] {
      WireIsEncoded(t, v, l[1..]);
      var rest := Flattened(t, v, l[1..]);
      if Omitted(t, v, l[0]) {
        assert [] + rest == rest;
      } else {
        var x := Get(t, v, l[0].index);
        EncodedPair(l[0].name, x, rest);
      }
    }
  }

  lemma EncodedPair(name: string, x: Value, rest: seq<Arg>)
    requires Encodable(x) && Encodables(rest)
    ensures Encodables([NameArg(name), ValueArg(x)] + rest)
    ensures Encoded([NameArg(name), ValueArg(x)] + rest) == [Sent(name), Sent(ValueText(x))] + Encoded(rest)
  {
  }

  /** One pair off the wire. */
  lemma ScanPairStep(
      t: Type, m: map<string, FieldSpec>, fs: FieldSpec, text: string, rest: seq<Reply>, at: nat, d: Value)
    requires HasType(d, t) && InTable(t, m) && fs.name in m && m[fs.name] == fs
    requires ConvertText(FieldType(t, fs.index), Get(t, d, fs.index), text, NO_FLOAT).ok
    ensures ScanPairs(t, m, [Sent(fs.name), Sent(text)] + rest, at, d)
         == ScanPairs(t, m, rest, at + 2,
              Set(t, d, fs.index, ConvertText(FieldType(t, fs.index), Get(t, d, fs.index), text, NO_FLOAT).value))
  {
    var src := [Sent(fs.name), Sent(text)] + rest;
    assert src[2..] == rest;
  }

  lemma {:induction false} ScanRestoresSuffix(
      t: Type, m: map<string, FieldSpec>, l: seq<FieldSpec>, v: Value, d: Value, k: nat, at: nat)
    requires GoodTables(t, m, l) && UniqueNames(l) && HasType(v, t) && HasType(d, t) && k <= |l|
    requires Sendable(t, v, l) && ScannedSoFar(t, l, v, d, k)
    ensures var r := ScanPairs(t, m, Wire(t, v, l[k..]), at, d);
            r.err == ScanOk && ScannedSoFar(t, l, v, r.value, |l|)
    decreases |l| - k
  {
    if k < |l| {
      var d', at' := ScanRestoresOne(t, m, l, v, d, k, at);
      ScanRestoresSuffix(t, m, l, v, d', k + 1, at');
    }
  }

  lemma ScanOnePair(
      t: Type, m: map<string, FieldSpec>, l: seq<FieldSpec>, v: Value, d: Value, k: nat, at: nat, rest: seq<Reply>)
      returns (d': Value)
    requires GoodTables(t, m, l) && UniqueNames(l) && HasType(v, t) && HasType(d, t) && k < |l|
    requires ScannedSoFar(t, l, v, d, k) && Encodable(Get(t, v, l[k].index))
    ensures HasType(d', t) && ScannedSoFar(t, l, v, d', k + 1)
    ensures ScanPairs(t, m, [Sent(l[k].name), Sent(ValueText(Get(t, v, l[k].index)))] + rest, at, d)
         == ScanPairs(t, m, rest, at + 2, d')
  {
    var p := l[k].index;
    var text := ValueText(Get(t, v, p));
    NameStandsFor(t, m, l, k);
    ScanOneField(t, l, v, d, k);
    ScanPairStep(t, m, l[k], text, rest, at, d);
    d' := Set(t, d, p, ConvertText(FieldType(t, p), Get(t, d, p), text, NO_FLOAT).value);
  }

  lemma WireStep(t: Type, v: Value, l: seq<FieldSpec>, k: nat)
    requires HasType(v, t) && Listed(t, l) && Sendable(t, v, l) && k < |l|
    ensures Wire(t, v, l[k..]) ==
            if Omitted(t, v, l[k]) then Wire(t, v, l[k + 1..])
            else [Sent(l[k].name), Sent(ValueText(Get(t, v, l[k].index)))] + Wire(t, v, l[k + 1..])
  {
    assert l[k..][1..] == l[k + 1..] && l[k..][0] == l[k];
  }

  lemma ScanRestoresOne(t: Type, m: map<string, FieldSpec>, l: seq<FieldSpec>, v: Value, d: Value, k: nat, at: nat)
      returns (d': Value, at': nat)
    requires GoodTables(t, m, l) && UniqueNames(l) && HasType(v, t) && HasType(d, t) && k < |l|
    requires Sendable(t, v, l) && ScannedSoFar(t, l, v, d, k)
    ensures HasType(d', t) && ScannedSoFar(t, l, v, d', k + 1)
    ensures ScanPairs(t, m, Wire(t, v, l[k..]), at, d) == ScanPairs(t, m, Wire(t, v, l[k + 1..]), at', d')
  {
    WireStep(t, v, l, k);
    if Omitted(t, v, l[k]) {
      SkipOneField(t, l, v, d, k);
      d', at' := d, at;
    } else {
      d' := ScanOnePair(t, m, l, v, d, k, at, Wire(t, v, l[k + 1..]));
      at' := at + 2;
    }
  }

  lemma NameStandsFor(t: Type, m: map<string, FieldSpec>, l: seq<FieldSpec>, k: nat)
    requires GoodTables(t, m, l) && UniqueNames(l) && k < |l|
    ensures l[k].name in m && m[l[k].name] == l[k]
  {
    var j :| 0 <= j < |l| && l[j] == m[l[k].name];
  }

  /** Every listed field of v can be sent. */
  ghost predicate CanTravel(t: Type, v: Value)
    requires t.Struct? && HasType(v, t)
  {
    CompiledTablesAreGood(t);
    Sendable(t, v, Compiled(t).l)
  }

  /** The struct that comes back when v is flattened, sent, and scanned into a zero struct. */
  ghost function RoundTripped(t: Type, v: Value): Scanned
    requires t.Struct? && HasType(v, t) && CanTravel(t, v)
  {
    CompiledTablesAreGood(t);
    FlattenedIsEncodable(t, v, Compiled(t).l);
    ScanPairs(t, Compiled(t).m, Encoded(Flattened(t, v, Compiled(t).l)), 0, Zero(t))
  }

  /** The field of v that entry `a` of the compiled list names. */
  ghost function ListedField(t: Type, v: Value, a: nat): Value
    requires t.Struct? && HasType(v, t) && a < |Compiled(t).l|
  {
    CompiledTablesAreGood(t);
    Get(t, v, Compiled(t).l[a].index)
  }

  ghost function ListedType(t: Type, a: nat): Type
    requires t.Struct? && a < |Compiled(t).l|
  {
    CompiledTablesAreGood(t);
    FieldType(t, Compiled(t).l[a].index)
  }

  ghost predicate Restored(t: Type, v: Value)
    requires t.Struct? && HasType(v, t) && CanTravel(t, v)
  {
    CompiledTablesAreGood(t);
    && RoundTripped(t, v).err == ScanOk
    && forall a :: 0 <= a < |Compiled(t).l| ==>
         SameContent(ListedField(t, RoundTripped(t, v).value, a), ListedField(t, v, a))
  }

  /** No field in the name table lies at q, above it, or below it. */
  ghost predicate Untabled(t: Type, q: seq<nat>)
    requires t.Struct?
  {
    forall n :: n in Compiled(t).m ==> !IsPrefix(Compiled(t).m[n].index, q) && !IsPrefix(q, Compiled(t).m[n].index)
  }

  lemma {:induction false} GetOfZero(t: Type, p: seq<nat>)
    requires HasField(t, p)
    ensures Get(t, Zero(t), p) == Zero(FieldType(t, p))
    decreases |p|
  {
    if p != [] {
      GetOfZero(t.fields[p[0]].typ, p[1..]);
    }
  }

  /** When the compiled list names no field twice, a value comes back as it was sent, including
      what omitempty dropped, and no other field is touched. */
  lemma RoundTripRestores(t: Type, v: Value)
    requires t.Struct? && HasType(v, t) && CanTravel(t, v) && UniqueNames(Compiled(t).l)
    ensures Restored(t, v)
    ensures forall q :: HasField(t, q) && Untabled(t, q) ==>
              Get(t, RoundTripped(t, v).value, q) == Zero(FieldType(t, q))
  {
    CompiledTablesAreGood(t);
    var m, l := Compiled(t).m, Compiled(t).l;
    forall a | 0 <= a < |l| ensures Get(t, Zero(t), l[a].index) == Zero(FieldType(t, l[a].index)) {
      GetOfZero(t, l[a].index);
    }
    assert l[0..] == l;
    ScanRestoresSuffix(t, m, l, v, Zero(t), 0, 0);
    WireIsEncoded(t, v, l);
    forall q | HasField(t, q) && Untabled(t, q)
      ensures Get(t, RoundTripped(t, v).value, q) == Zero(FieldType(t, q))
    {
      ScanWritesOnlyTableFields(t, m, Encoded(Flattened(t, v, l)), 0, Zero(t), q);
      GetOfZero(t, q);
    }
  }

  lemma ShadowedIsUntabled(t: Type, a: nat, b: nat)
    requires t.Struct? && a < b < |Compiled(t).l| && Compiled(t).l[a].name == Compiled(t).l[b].name
    ensures Untabled(t, Compiled(t).l[a].index)
  {
    CompiledTablesAreGood(t);
    var m, l := Compiled(t).m, Compiled(t).l;
    LeavesIndexed(t, [], 0);
    ListAgainstTable(Leaves(t, [], 0));
    forall n | n in m ensures !IsPrefix(m[n].index, l[a].index) && !IsPrefix(l[a].index, m[n].index) {
      var j :| 0 <= j < |l| && l[j] == m[n];
      assert j != a;
    }
  }

  /** A listed field that its name no longer stands for comes back zero, whatever was sent. */
  lemma ShadowedFieldIsLost(t: Type, v: Value, a: nat, b: nat)
    requires t.Struct? && HasType(v, t) && CanTravel(t, v)
    requires a < b < |Compiled(t).l| && Compiled(t).l[a].name == Compiled(t).l[b].name
    ensures ListedField(t, RoundTripped(t, v).value, a) == Zero(ListedType(t, a))
  {
    CompiledTablesAreGood(t);
    var m, l := Compiled(t).m, Compiled(t).l;
    var q := l[a].index;
    FlattenedIsEncodable(t, v, l);
    ShadowedIsUntabled(t, a, b);
    ScanWritesOnlyTableFields(t, m, Encoded(Flattened(t, v, l)), 0, Zero(t), q);
    GetOfZero(t, q);
  }

  /** A kind whose values have a text here. */
  predicate Scalar(k: Kind) { k != FloatKind && k != OtherKind }

  lemma OneFits(bits: Width)
    ensures FitsSigned(1, bits) && FitsUnsigned(1, bits)
  {
    assert Pow2(bits as nat - 1) == 2 * Pow2(bits as nat - 2);
  }

  function NonEmpty(k: Kind): (v: Value)
    requires Scalar(k)
    ensures HasType(v, Basic(k)) && Encodable(v) && !SameContent(Zero(Basic(k)), v)
  {
    match k
    case IntKind(bits) => OneFits(bits); IntV(1)
    case UintKind(bits) => OneFits(bits); UintV(1)
    case BoolKind => BoolV(true)
    case StringKind => StringV("x")
    case BytesKind => BytesV(false, "x")
  }

  /** Every listed field has a kind with a text. */
  ghost predicate ScalarFields(t: Type)
    requires t.Struct?
  {
    forall a :: 0 <= a < |Compiled(t).l| ==> ListedType(t, a).Basic? && Scalar(ListedType(t, a).kind)
  }

  lemma ScalarIsEncodable(t: Type, v: Value)
    requires HasType(v, t) && t.Basic? && Scalar(t.kind)
    ensures Encodable(v)
  {
  }

  lemma ShadowedPaths(v: Value)
    requires v == StructV([StructV([BoolV(true)]), BoolV(true)])
    ensures HasType(v, SHADOWED) && HasField(SHADOWED, [0, 0]) && HasField(SHADOWED, [1])
    ensures Get(SHADOWED, v, [0, 0]) == Get(SHADOWED, v, [1]) == BoolV(true)
    ensures FieldType(SHADOWED, [0, 0]) == Basic(BoolKind)
  {
    assert [0, 0][1..] == [0] && [0][1..] == [] && [1][1..] == [];
  }

  /** With both flags set, the embedded one is sent and comes back false. */
  lemma ShadowedFlagIsLost(v: Value)
    requires v == StructV([StructV([BoolV(true)]), BoolV(true)])
    ensures HasType(v, SHADOWED) && HasField(SHADOWED, [0, 0]) && CanTravel(SHADOWED, v)
    ensures Get(SHADOWED, v, [0, 0]) == BoolV(true)
    ensures Get(SHADOWED, RoundTripped(SHADOWED, v).value, [0, 0]) == BoolV(false)
  {
    ShadowedPaths(v);
    ShadowedIsListedTwice();
    CompiledTablesAreGood(SHADOWED);
    ShadowedFieldIsLost(SHADOWED, v, 0, 1);
  }

  /** For a type of scalar fields, every value survives the round trip exactly when no field shadows
      one declared before it. */
  lemma RoundTripIffNoShadowing(t: Type)
    requires t.Struct? && ScalarFields(t)
    ensures NoShadowing(t) <==> forall v :: HasType(v, t) ==> CanTravel(t, v) && Restored(t, v)
  {
    CompiledTablesAreGood(t);
    UniqueIffNoShadowing(t);
    var l := Compiled(t).l;
    forall v | HasType(v, t) ensures CanTravel(t, v) {
      forall a | 0 <= a < |l| ensures Encodable(Get(t, v, l[a].index)) {
        assert ListedType(t, a) == FieldType(t, l[a].index);
        ScalarIsEncodable(FieldType(t, l[a].index), Get(t, v, l[a].index));
      }
    }
    if UniqueNames(l) {
      forall v | HasType(v, t) ensures Restored(t, v) {
        RoundTripRestores(t, v);
      }
    } else {
      var a, b :| 0 <= a < b < |l| && l[a].name == l[b].name;
      var p := l[a].index;
      assert ListedType(t, a) == FieldType(t, p);
      var x := NonEmpty(FieldType(t, p).kind);
      var v := Set(t, Zero(t), p, x);
      GetAfterSet(t, Zero(t), p, x);
      ShadowedFieldIsLost(t, v, a, b);
      assert !Restored(t, v);
    }
  }
}
