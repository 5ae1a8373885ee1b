/** Struct values as trees, read and written through field-number paths. */
module GoValues {
  import opened GoTypes

  /** Byte strings are Dafny strings, one char a byte. */
  datatype Value =
    | StructV(fields: seq<Value>)
    | IntV(i: int)
    | UintV(u: nat)
    | BoolV(b: bool)
    | StringV(s: string)
    | BytesV(isNil: bool, data: string)
    | FloatV(isZero: bool, payload: int)   // which number it is does not matter
    | OtherV(empty: bool, payload: int)

  function Pow2(n: nat): (p: int)
    ensures p >= 1
  {
    if n == 0 then 1 else 2 * Pow2(n - 1)
  }

  predicate FitsSigned(x: int, bits: Width) {
    -Pow2(bits as nat - 1) <= x < Pow2(bits as nat - 1)
  }

  predicate FitsUnsigned(x: int, bits: Width) {
    0 <= x < Pow2(bits as nat)
  }

  lemma {:induction false} Pow2Doubled(n: nat, twice: nat)
    requires twice == 2 * n
    ensures Pow2(twice) == Pow2(n) * Pow2(n)
    decreases n
  {
    if n > 0 {
      var q := Pow2(n - 1);
      Pow2Doubled(n - 1, twice - 2);
      assert Pow2(twice) == 2 * Pow2(twice - 1) && Pow2(twice - 1) == 2 * Pow2(twice - 2);
      assert (2 * q) * (2 * q) == 4 * (q * q);
    }
  }

  /** The widths there are, with half of what fits. */
  predicate IsHalf(bits: nat, half: int) {
    || (bits == 8 && half == 0x80) || (bits == 16 && half == 0x8000)
    || (bits == 32 && half == 0x8000_0000) || (bits == 64 && half == 0x8000_0000_0000_0000)
  }

  lemma {:induction false} HalfIsPower(bits: nat, half: int)
    requires IsHalf(bits, half)
    ensures Pow2(bits) == 2 * half && Pow2(bits - 1) == half
    decreases bits
  {
    Pow2Doubled(bits / 2, bits);
    if bits == 8 {
      assert Pow2(1) == 2 && Pow2(2) == 4 && Pow2(3) == 8 && Pow2(4) == 0x10;
    } else {
      HalfIsPower(bits / 2, if bits == 16 then 0x80 else if bits == 32 then 0x8000 else 0x8000_0000);
    }
  }

  lemma WidthRange(x: int, bits: Width, half: int)
    requires IsHalf(bits as nat, half)
    ensures FitsSigned(x, bits) <==> -half <= x < half
    ensures FitsUnsigned(x, bits) <==> 0 <= x < 2 * half
  {
    HalfIsPower(bits as nat, half);
  }

  predicate HasType(v: Value, t: Type)
    decreases t
  {
    match t
    case Struct(fs) => v.StructV? && |v.fields| == |fs| && forall k :: 0 <= k < |fs| ==> HasType(v.fields[k], fs[k].typ)
    case Basic(IntKind(bits)) => v.IntV? && FitsSigned(v.i, bits)
    case Basic(UintKind(bits)) => v.UintV? && FitsUnsigned(v.u, bits)
    case Basic(BoolKind) => v.BoolV?
    case Basic(StringKind) => v.StringV?
    case Basic(BytesKind) => v.BytesV? && (v.isNil ==> v.data == "")
    case Basic(FloatKind) => v.FloatV?
    case Basic(OtherKind) => v.OtherV?
  }

  function Zero(t: Type): (v: Value)
    ensures HasType(v, t)
    decreases t
  {
    match t
    case Struct(fs) => StructV(seq(|fs|, k requires 0 <= k < |fs| => Zero(fs[k].typ)))
    case Basic(IntKind(_)) => IntV(0)
    case Basic(UintKind(_)) => UintV(0)
    case Basic(BoolKind) => BoolV(false)
    case Basic(StringKind) => StringV("")
    case Basic(BytesKind) => BytesV(true, "")
    case Basic(FloatKind) => FloatV(true, 0)
    case Basic(OtherKind) => OtherV(true, 0)
  }

  predicate HasField(t: Type, p: seq<nat>) {
    p == [] || (t.Struct? && p[0] < |t.fields| && HasField(t.fields[p[0]].typ, p[1..]))
  }

  function FieldType(t: Type, p: seq<nat>): Type
    requires HasField(t, p)
  {
    if p == [] then t else FieldType(t.fields[p[0]].typ, p[1..])
  }

  /** reflect.Value.FieldByIndex, for reading. */
  function Get(t: Type, v: Value, p: seq<nat>): (x: Value)
    requires HasField(t, p) && HasType(v, t)
    ensures HasType(x, FieldType(t, p))
    decreases |p|
  {
    if p == [] then v else Get(t.fields[p[0]].typ, v.fields[p[0]], p[1..])
  }

  /** The struct after a write through reflect.Value.FieldByIndex. */
  function Set(t: Type, v: Value, p: seq<nat>, x: Value): (r: Value)
    requires HasField(t, p) && HasType(v, t) && HasType(x, FieldType(t, p))
    ensures HasType(r, t)
    decreases |p|
  {
    if p == [] then x
    else StructV(v.fields[p[0] := Set(t.fields[p[0]].typ, v.fields[p[0]], p[1..], x)])
  }

  lemma {:induction false} GetAfterSet(t: Type, v: Value, p: seq<nat>, x: Value)
    requires HasField(t, p) && HasType(v, t) && HasType(x, FieldType(t, p))
    ensures Get(t, Set(t, v, p, x), p) == x
    decreases |p|
  {
    if p != [] {
      GetAfterSet(t.fields[p[0]].typ, v.fields[p[0]], p[1..], x);
    }
  }

  lemma PrefixOfTails(p: seq<nat>, q: seq<nat>)
    requires |p| > 0 && |q| > 0 && p[0] == q[0]
    ensures IsPrefix(p, q) <==> IsPrefix(p[1..], q[1..])
  {
    assert p == [p[0]] + p[1..];
    if |p| <= |q| {
      assert q[..|p|] == [q[0]] + q[1..][..|p| - 1];
    }
  }

  /** Writes through paths of which none is a prefix of the other do not interfere. */
  lemma {:induction false} GetAfterOtherSet(t: Type, v: Value, p: seq<nat>, x: Value, q: seq<nat>)
    requires HasField(t, p) && HasField(t, q) && HasType(v, t) && HasType(x, FieldType(t, p))
    requires !IsPrefix(p, q) && !IsPrefix(q, p)
    ensures Get(t, Set(t, v, p, x), q) == Get(t, v, q)
    decreases |p|
  {
    assert IsPrefix([], q) && IsPrefix([], p);
    if p[0] == q[0] {
      PrefixOfTails(p, q);
      PrefixOfTails(q, p);
      GetAfterOtherSet(t.fields[p[0]].typ, v.fields[p[0]], p[1..], x, q[1..]);
    }
  }

  lemma {:induction false} LeafPathIsField(t: Type, p: seq<nat>)
    requires RoleAt(t, p).Leaf?
    ensures HasField(t, p)
    decreases |p|
  {
    if |p| > 1 {
      LeafPathIsField(t.fields[p[0]].typ, p[1..]);
    } else {
      assert p[1..] == [];
    }
  }
}

/** The decimal and boolean text that strconv reads, as far as the converters use it. */
module Decimal {
  datatype ParseError = NoError | Syntax | Range
  datatype Parsed<T> = Parsed(value: T, err: ParseError)

  predicate IsDigit(c: char) { '0' <= c <= '9' }

  function DigitValue(c: char): nat
    requires IsDigit(c)
  {
    c as int - '0' as int
  }

  function DigitChar(d: nat): (c: char)
    requires d < 10
    ensures IsDigit(c) && DigitValue(c) == d
  {
    ('0' as int + d) as char
  }

  /** The digit loop of ParseUint: stops at the first bad character or at the first overflow. */
  function ParseDigits(s: string, acc: nat, max: nat): Parsed<int> {
    if s == "" then Parsed(acc, NoError)
    else if !IsDigit(s[0]) then Parsed(0, Syntax)
    else if acc * 10 + DigitValue(s[0]) > max then Parsed(max, Range)
    else ParseDigits(s[1..], acc * 10 + DigitValue(s[0]), max)
  }

  /** Whatever the text, the number stored is in range, and an error says which end it was cut to. */
  lemma {:induction false} ParseDigitsInRange(s: string, acc: nat, max: nat)
    requires acc <= max
    ensures 0 <= ParseDigits(s, acc, max).value <= max
    ensures ParseDigits(s, acc, max).err == Range ==> ParseDigits(s, acc, max).value == max
    decreases |s|
  {
    if s != "" && IsDigit(s[0]) && acc * 10 + DigitValue(s[0]) <= max {
      ParseDigitsInRange(s[1..], acc * 10 + DigitValue(s[0]), max);
    }
  }

  function ParseUint(s: string, max: nat): (r: Parsed<int>)
    ensures 0 <= r.value <= max
  {
    ParseDigitsInRange(s, 0, max);
    if s == "" then Parsed(0, Syntax) else ParseDigits(s, 0, max)
  }

  /** ParseInt for the signed range [-half, half). */
  function ParseInt(s: string, half: int): (r: Parsed<int>)
    requires half > 0
    ensures -half <= r.value < half
  {
    if s == "" then Parsed(0, Syntax)
    else
      var neg := s[0] == '-';
      var un := ParseUint(if s[0] == '+' || s[0] == '-' then s[1..] else s, 2 * half - 1);
      if un.err == Syntax then Parsed(0, Syntax)
      else if !neg && un.value >= half then Parsed(half - 1, Range)
      else if neg && un.value > half then Parsed(-half, Range)
      else Parsed(if neg then -un.value else un.value, NoError)
  }

  function ParseBool(s: string): Parsed<bool> {
    if s in ["1", "t", "T", "true", "TRUE", "True"] then Parsed(true, NoError)
    else if s in ["0", "f", "F", "false", "FALSE", "False"] then Parsed(false, NoError)
    else Parsed(false, Syntax)
  }

  function PrintNat(n: nat): (s: string)
    ensures s != "" && IsDigit(s[0])
  {
    if n < 10 then [DigitChar(n)] else PrintNat(n / 10) + [DigitChar(n % 10)]
  }

  function PrintInt(n: int): string {
    if n < 0 then "-" + PrintNat(-n) else PrintNat(n)
  }

  lemma {:induction false} ParsePrinted(n: nat, rest: string, max: nat)
    requires n <= max
    ensures ParseDigits(PrintNat(n) + rest, 0, max) == ParseDigits(rest, n, max)
    decreases n
  {
    if n < 10 {
      assert ([DigitChar(n)] + rest)[1..] == rest;
    } else {
      ParsePrinted(n / 10, [DigitChar(n % 10)] + rest, max);
      assert PrintNat(n) + rest == PrintNat(n / 10) + ([DigitChar(n % 10)] + rest);
      assert ([DigitChar(n % 10)] + rest)[1..] == rest;
    }
  }

  lemma ParsePrintedUint(n: nat, max: nat)
    requires n <= max
    ensures ParseUint(PrintNat(n), max) == Parsed(n, NoError)
  {
    ParsePrinted(n, "", max);
    assert PrintNat(n) + "" == PrintNat(n);
  }

  lemma ParsePrintedInt(n: int, half: int)
    requires half > 0 && -half <= n < half
    ensures ParseInt(PrintInt(n), half) == Parsed(n, NoError)
  {
    if n < 0 {
      ParsePrintedUint(-n, 2 * half - 1);
      assert PrintInt(n)[1..] == PrintNat(-n);
    } else {
      ParsePrintedUint(n, 2 * half - 1);
    }
  }
}

/** convertAssign and its helpers: one reply into one destination. */
module Convert {
  import opened GoTypes
  import opened GoValues
  import opened Decimal
  import opened Numerals

  /** What ParseFloat makes of a text: the number it leaves, which it does on an error too. */
  datatype FloatReading = FloatReading(isZero: bool, payload: int, ok: bool)

  const NO_FLOAT := FloatReading(true, 0, false)

  datatype Reply =
    | Nil
    | Bulk(bytes: string, float: FloatReading)
    | Simple(text: string, float: FloatReading)
    | Integer(n: int)
    | Array(items: seq<Reply>)

  /** What the destination holds afterwards, which a failed conversion may have changed too. */
  datatype Conversion = Conversion(value: Value, ok: bool)

  /** reflect's SetInt followed by Int: the low `bits` bits of x, read as a signed number. */
  function TruncateSigned(x: int, bits: Width): int {
    var half := Pow2(bits as nat - 1);
    (x + half) % (2 * half) - half
  }

  function TruncateUnsigned(x: nat, bits: Width): nat {
    x % Pow2(bits as nat)
  }

  function TextToInt(bits: Width, s: string): (c: Conversion)
    ensures c.value.IntV? && FitsSigned(c.value.i, bits)
  {
    var x := ParseInt(s, Pow2(bits as nat - 1));
    Conversion(IntV(x.value), x.err.NoError?)
  }

  function TextToUint(bits: Width, s: string): (c: Conversion)
    ensures c.value.UintV? && FitsUnsigned(c.value.u, bits)
  {
    var x := ParseUint(s, Pow2(bits as nat) - 1);
    Conversion(UintV(x.value), x.err.NoError?)
  }

  function ConvertText(t: Type, d: Value, s: string, float: FloatReading): (c: Conversion)
    requires HasType(d, t)
    ensures HasType(c.value, t)
  {
    match t
    case Basic(IntKind(bits)) => TextToInt(bits, s)
    case Basic(UintKind(bits)) => TextToUint(bits, s)
    case Basic(BoolKind) => Conversion(BoolV(ParseBool(s).value), ParseBool(s).err.NoError?)
    case Basic(StringKind) => Conversion(StringV(s), true)
    case Basic(BytesKind) => Conversion(BytesV(false, s), true)
    case Basic(FloatKind) => Conversion(FloatV(float.isZero, float.payload), float.ok)
    case _ => Conversion(d, false)
  }

  function ConvertInt(t: Type, d: Value, n: int): (c: Conversion)
    requires HasType(d, t)
    ensures HasType(c.value, t)
  {
    match t
    case Basic(IntKind(bits)) =>
      if TruncateSigned(n, bits) != n then Conversion(IntV(0), false)
      else Conversion(IntV(TruncateSigned(n, bits)), true)
    case Basic(UintKind(bits)) =>
      if n < 0 then Conversion(d, false)
      else if TruncateUnsigned(n, bits) != n then Conversion(UintV(0), false)
      else Conversion(UintV(TruncateUnsigned(n, bits)), true)
    case Basic(BoolKind) => Conversion(BoolV(n != 0), true)
    case _ => Conversion(d, false)
  }

  /** convertAssignValue; a nil source never gets here. */
  function ConvertValue(t: Type, d: Value, s: Reply): (c: Conversion)
    requires HasType(d, t) && !s.Nil?
    ensures HasType(c.value, t)
  {
    match s
    case Bulk(bytes, float) => ConvertText(t, d, bytes, float)
    case Simple(text, float) => ConvertText(t, d, text, float)
    case Integer(n) => ConvertInt(t, d, n)
    case Array(_) => Conversion(d, false)
  }

  lemma TruncateSignedExact(n: int, bits: Width)
    ensures TruncateSigned(n, bits) == n <==> FitsSigned(n, bits)
    ensures FitsSigned(TruncateSigned(n, bits), bits)
  {
    var half := Pow2(bits as nat - 1);
    assert 0 <= (n + half) % (2 * half) < 2 * half;
    if FitsSigned(n, bits) {
      SmallMod(n + half, 2 * half);
    }
  }

  lemma SmallMod(x: int, m: int)
    requires 0 <= x < m
    ensures x % m == x
  {
  }

  lemma TruncateUnsignedExact(n: nat, bits: Width)
    ensures TruncateUnsigned(n, bits) == n <==> FitsUnsigned(n, bits)
  {
    if FitsUnsigned(n, bits) {
      SmallMod(n, Pow2(bits as nat));
    }
  }

  /** Truncating and reading back detects exactly the numbers that do not fit. */
  lemma ConvertIntExact(kind: Kind, d: Value, n: int)
    requires HasType(d, Basic(kind))
    ensures var c := ConvertInt(Basic(kind), d, n);
            match kind {
              case IntKind(bits) =>
                && (c.ok <==> FitsSigned(n, bits))
                && c.value == if FitsSigned(n, bits) then IntV(n) else IntV(0)
              case UintKind(bits) =>
                && (c.ok <==> FitsUnsigned(n, bits))
                && c.value == (if FitsUnsigned(n, bits) then UintV(n) else if n < 0 then d else UintV(0))
              case BoolKind => c == Conversion(BoolV(n != 0), true)
              case _ => c == Conversion(d, false)
            }
  {
    match kind {
      case IntKind(bits) => TruncateSignedExact(n, bits);
      case UintKind(bits) => if n >= 0 { TruncateUnsignedExact(n, bits); }
      case _ =>
    }
  }

  lemma WideEnough(bits: Width)
    ensures Pow2(bits as nat - 1) > 1 && Pow2(bits as nat) == 2 * Pow2(bits as nat - 1)
  {
    assert Pow2(bits as nat - 1) == 2 * Pow2(bits as nat - 2);
  }

  /** A signed field accepts the numerals that fit and holds their number. One that does not fit leaves
      the nearest number, and a text that is none leaves zero, unless its digits are too many already. */
  lemma IntTextAccepted(bits: Width, s: string)
    ensures var c := TextToInt(bits, s);
            && (c.ok <==> IsNumeral(s) && FitsSigned(NumeralValue(s), bits))
            && (c.ok ==> c.value == IntV(NumeralValue(s)))
            && (IsNumeral(s) && NumeralValue(s) >= Pow2(bits as nat - 1) ==> c.value.i == Pow2(bits as nat - 1) - 1)
            && (IsNumeral(s) && NumeralValue(s) < -Pow2(bits as nat - 1) ==> c.value.i == -Pow2(bits as nat - 1))
            && (!IsNumeral(s) && ValueOf(Unsigned(s)[..Leading(Unsigned(s))]) < Pow2(bits as nat) ==> c.value.i == 0)
  {
    WideEnough(bits);
    IntTexts(s, Pow2(bits as nat - 1));
  }

  /** An unsigned field accepts digits only, and is left with the largest number or zero likewise. */
  lemma UintTextAccepted(bits: Width, s: string)
    ensures var c := TextToUint(bits, s);
            && (c.ok <==> s != "" && AllDigits(s) && FitsUnsigned(ValueOf(s), bits))
            && (c.ok ==> c.value == UintV(ValueOf(s)))
            && (s != "" && AllDigits(s) && ValueOf(s) >= Pow2(bits as nat) ==> c.value.u == Pow2(bits as nat) - 1)
            && ((s == "" || !AllDigits(s)) && ValueOf(s[..Leading(s)]) < Pow2(bits as nat) ==> c.value.u == 0)
  {
    UintTexts(s, Pow2(bits as nat) - 1);
    if AllDigits(s) { assert s[..Leading(s)] == s; }
  }

  /** Which texts the fields of the other kinds accept, and what they hold then. */
  lemma OtherTextAccepted(kind: Kind, d: Value, s: string, float: FloatReading)
    requires HasType(d, Basic(kind))
    ensures var c := ConvertText(Basic(kind), d, s, float);
            match kind {
              case IntKind(bits) => c == TextToInt(bits, s)
              case UintKind(bits) => c == TextToUint(bits, s)
              case BoolKind =>
                && (c.ok <==> s in ["1", "t", "T", "TRUE", "true", "True", "0", "f", "F", "FALSE", "false", "False"])
                && c.value == BoolV(s in ["1", "t", "T", "TRUE", "true", "True"])
              case StringKind => c == Conversion(StringV(s), true)
              case BytesKind => c == Conversion(BytesV(false, s), true)
              case FloatKind => c == Conversion(FloatV(float.isZero, float.payload), float.ok)
              case OtherKind => c == Conversion(d, false)
            }
  {
    BoolTexts(s);
  }

  /** A bulk string and a simple string convert alike, by their text. */
  lemma StringsConvert(t: Type, d: Value, s: string, float: FloatReading)
    requires HasType(d, t)
    ensures ConvertValue(t, d, Bulk(s, float)) == ConvertValue(t, d, Simple(s, float))
    ensures ConvertValue(t, d, Bulk(s, float)) == ConvertText(t, d, s, float)
  {
  }

  /** An array never converts, and neither does anything into a struct; the field stays as it was. */
  lemma NeverConverts(t: Type, d: Value, s: Reply)
    requires HasType(d, t) && !s.Nil? && (s.Array? || t.Struct?)
    ensures ConvertValue(t, d, s) == Conversion(d, false)
  {
  }

  /** convertAssign's own cases for the most common destinations; an int has `bits` bits. */
  datatype FastPath = ToInt | ToBool | ToText | ToBytes

  function Destination(p: FastPath, bits: Width): Type {
    match p
    case ToInt => Basic(IntKind(bits))
    case ToBool => Basic(BoolKind)
    case ToText => Basic(StringKind)
    case ToBytes => Basic(BytesKind)
  }

  /** Atoi; on an overflow it too returns the nearest int. */
  function Atoi(s: string, bits: Width): Parsed<int> { ParseInt(s, Pow2(bits as nat - 1)) }

  /** convertAssign for a non-nil pointer, with a string or an integer to store. */
  function ConvertFast(p: FastPath, bits: Width, d: Value, s: Reply): Conversion
    requires HasType(d, Destination(p, bits)) && (s.Bulk? || s.Simple? || s.Integer?)
  {
    if s.Bulk? then
      match p {
        case ToText => Conversion(StringV(s.bytes), true)
        case ToInt => Conversion(IntV(Atoi(s.bytes, bits).value), Atoi(s.bytes, bits).err.NoError?)
        case ToBool => Conversion(BoolV(ParseBool(s.bytes).value), ParseBool(s.bytes).err.NoError?)
        case ToBytes => Conversion(BytesV(false, s.bytes), true)
      }
    else if s.Simple? then
      if p.ToText? then Conversion(StringV(s.text), true) else ConvertValue(Destination(p, bits), d, s)
    else
      match p {
        case ToInt =>
          if TruncateSigned(s.n, bits) != s.n then Conversion(IntV(0), false) else Conversion(IntV(s.n), true)
        case ToBool => Conversion(BoolV(s.n != 0), true)
        case _ => ConvertValue(Destination(p, bits), d, s)
      }
  }

  /** The shortcuts convert just as the reflective path does: an integer is stored exactly when an int
      can hold it. */
  lemma FastPathsAgree(p: FastPath, bits: Width, d: Value, s: Reply)
    requires HasType(d, Destination(p, bits)) && (s.Bulk? || s.Simple? || s.Integer?)
    ensures ConvertFast(p, bits, d, s) == ConvertValue(Destination(p, bits), d, s)
    ensures p.ToInt? && s.Integer? ==> (ConvertFast(p, bits, d, s).ok <==> FitsSigned(s.n, bits))
  {
    match p {
      case ToInt =>
        if s.Integer? {
          TruncateSignedExact(s.n, bits);
        } else if s.Bulk? {
          assert ConvertValue(Destination(p, bits), d, s) == TextToInt(bits, s.bytes);
        }
      case _ =>
    }
  }
}
