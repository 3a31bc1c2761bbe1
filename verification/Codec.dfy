/** The binary layout of UDP packets: typed little-endian fields and strings with a 16-bit length. */
module Codec {
  import opened Bytes

  /** The types that are streamed; an `f32` is carried as its bit pattern. */
  datatype Kind = KU8 | KU16 | KU32 | KU64 | KI32 | KI64 | KF32 | KText

  datatype Field =
    | U8(u8: nat)
    | U16(u16: nat)
    | U32(u32: nat)
    | U64(u64: nat)
    | I32(i32: int)
    | I64(i64: int)
    | F32(bits: nat)
    | Text(text: seq<Byte>)

  function KindOf(f: Field): Kind {
    match f
    case U8(_) => KU8
    case U16(_) => KU16
    case U32(_) => KU32
    case U64(_) => KU64
    case I32(_) => KI32
    case I64(_) => KI64
    case F32(_) => KF32
    case Text(_) => KText
  }

  /** `sizeof` of a streamed value; for a text, of its length. */
  function Width(k: Kind): nat {
    match k
    case KU8 => 1
    case KU16 => 2
    case KU32 => 4
    case KU64 => 8
    case KI32 => 4
    case KI64 => 8
    case KF32 => 4
    case KText => 2
  }

  /** The value is one of its C++ type; a text is short enough for its length field. */
  predicate InRange(f: Field) {
    match f
    case U8(v) => v < Span(1)
    case U16(v) => v < Span(2)
    case U32(v) => v < Span(4)
    case U64(v) => v < Span(8)
    case I32(v) => FitsSigned(v, 4)
    case I64(v) => FitsSigned(v, 8)
    case F32(v) => v < Span(4)
    case Text(t) => |t| < Span(2)
  }

  function EncodeField(f: Field): seq<Byte> {
    match f
    case U8(v) => ToLe(v, 1)
    case U16(v) => ToLe(v, 2)
    case U32(v) => ToLe(v, 4)
    case U64(v) => ToLe(v, 8)
    case I32(v) => ToLe(Wrap(v, 4), 4)
    case I64(v) => ToLe(Wrap(v, 8), 8)
    case F32(v) => ToLe(v, 4)
    case Text(t) => ToLe(|t|, 2) + t
  }

  function EncodeAll(fs: seq<Field>): seq<Byte> {
    if fs == [] then [] else EncodeAll(fs[..|fs|-1]) + EncodeField(fs[|fs|-1])
  }

  /** The value of a fixed-size kind in `Width(k)` bytes. */
  function Value(k: Kind, s: seq<Byte>): Field
    requires !k.KText?
  {
    var n := FromLe(s);
    match k
    case KU8 => U8(n)
    case KU16 => U16(n)
    case KU32 => U32(n)
    case KU64 => U64(n)
    case KI32 => I32(Unwrap(n, 4))
    case KI64 => I64(Unwrap(n, 8))
    case KF32 => F32(n)
  }

  datatype Decoded = TooShort | Decoded(fields: seq<Field>, rest: seq<Byte>)

  function DecodeField(k: Kind, s: seq<Byte>): Decoded {
    var w := Width(k);
    if |s| < w then TooShort
    else if !k.KText? then Decoded([Value(k, s[..w])], s[w..])
    else
      var n := FromLe(s[..w]);
      if |s| - w < n then TooShort else Decoded([Text(s[w..w + n])], s[w + n..])
  }

  function DecodeAll(ks: seq<Kind>, s: seq<Byte>): Decoded
    decreases |ks|
  {
    if ks == [] then Decoded([], s)
    else
      var d := DecodeField(ks[0], s);
      if d.TooShort? then TooShort
      else
        var ds := DecodeAll(ks[1..], d.rest);
        if ds.TooShort? then TooShort else Decoded(d.fields + ds.fields, ds.rest)
  }

  function Kinds(fs: seq<Field>): (ks: seq<Kind>)
    ensures |ks| == |fs| && forall i :: 0 <= i < |fs| ==> ks[i] == KindOf(fs[i])
  {
    seq(|fs|, i requires 0 <= i < |fs| => KindOf(fs[i]))
  }

  // ------------------------------------------------------------------ the bytes themselves

  /** A text is its length, low byte first, and its bytes. */
  lemma TextBytes(t: seq<Byte>)
    requires |t| < 0x10000
    ensures var s := EncodeField(Text(t));
            |s| == 2 + |t| && s[0] == |t| % 0x100 && s[1] == |t| / 0x100 && s[2..] == t
  {
    LeByteAt(|t|, 2, 0);
    LeByteAt(|t|, 2, 1);
    assert Shift(|t|, 1) == Shift(|t| / 0x100, 0);
  }

  /** The number that the bytes of a field carry: itself, or for a negative one itself plus the span. */
  function Carried(f: Field): int
    requires !f.Text?
  {
    match f
    case U8(v) => v
    case U16(v) => v
    case U32(v) => v
    case U64(v) => v
    case I32(v) => if v < 0 then v + 0x1_0000_0000 else v
    case I64(v) => if v < 0 then v + 0x1_0000_0000_0000_0000 else v
    case F32(v) => v
  }

  lemma Spans()
    ensures Span(1) == 0x100 && Span(2) == 0x10000 && Span(4) == 0x1_0000_0000 && Span(8) == 0x1_0000_0000_0000_0000
  {
    assert Span(1) == 0x100 * Span(0);
    assert Span(4) == 0x100 * Span(3) && Span(3) == 0x100 * Span(2);
    assert Span(6) == 0x100 * Span(5) && Span(5) == 0x100 * Span(4);
    assert Span(8) == 0x100 * Span(7) && Span(7) == 0x100 * Span(6);
  }

  /** Byte `i` of a number in its field: one, two, four or eight bytes, least significant first. */
  lemma NumberBytes(f: Field, i: nat)
    requires InRange(f) && !f.Text?
    requires i < match f case U8(_) => 1 case U16(_) => 2 case U32(_) => 4 case I32(_) => 4 case F32(_) => 4 case _ => 8
    ensures Carried(f) >= 0
    ensures |EncodeField(f)| == match f
            case U8(_) => 1 case U16(_) => 2 case U32(_) => 4 case I32(_) => 4 case F32(_) => 4 case _ => 8
    ensures EncodeField(f)[i] == Shift(Carried(f), i) % 0x100
  {
    Spans();
    hide Span, ToLe, Shift;
    match f
    case U8(v) => LeByteAt(v, 1, i);
    case U16(v) => LeByteAt(v, 2, i);
    case U32(v) => LeByteAt(v, 4, i);
    case U64(v) => LeByteAt(v, 8, i);
    case I32(v) => LeByteAt(Wrap(v, 4), 4, i);
    case I64(v) => LeByteAt(Wrap(v, 8), 8, i);
    case F32(v) => LeByteAt(v, 4, i);
  }

  // ------------------------------------------------------------------ round trips

  lemma EncodeAllSnoc(fs: seq<Field>, f: Field)
    ensures EncodeAll(fs + [f]) == EncodeAll(fs) + EncodeField(f)
  {
    hide EncodeField;
    assert (fs + [f])[..|fs|] == fs;
  }

  lemma {:induction false} EncodeAllAppend(a: seq<Field>, b: seq<Field>)
    ensures EncodeAll(a + b) == EncodeAll(a) + EncodeAll(b)
    decreases |b|
  {
    hide EncodeField;
    if b == [] {
      assert a + b == a;
      assert EncodeAll(a) + [] == EncodeAll(a);
    } else {
      var front, f := b[..|b| - 1], b[|b| - 1];
      assert b == front + [f] && a + b == (a + front) + [f];
      EncodeAllAppend(a, front);
      EncodeAllSnoc(a + front, f);
      EncodeAllSnoc(front, f);
      hide EncodeAll;
      assert EncodeAll(a) + EncodeAll(front) + EncodeField(f) == EncodeAll(a) + (EncodeAll(front) + EncodeField(f));
    }
  }

  lemma EncodeAllCons(f: Field, fs: seq<Field>)
    ensures EncodeAll([f] + fs) == EncodeField(f) + EncodeAll(fs)
  {
    hide EncodeField;
    EncodeAllAppend([f], fs);
    EncodeAllSnoc([], f);
    assert [] + [f] == [f];
    assert [] + EncodeField(f) == EncodeField(f);
  }

  lemma NumberComesBack(f: Field, rest: seq<Byte>)
    requires InRange(f) && !f.Text?
    ensures DecodeField(KindOf(f), EncodeField(f) + rest) == Decoded([f], rest)
  {
    var w := Width(KindOf(f));
    var s := EncodeField(f) + rest;
    assert s[..w] == EncodeField(f) && s[w..] == rest;
    match f
    case U8(v) => FromToLe(v, 1);
    case U16(v) => FromToLe(v, 2);
    case U32(v) => FromToLe(v, 4);
    case U64(v) => FromToLe(v, 8);
    case I32(v) =>
      FromToLe(Wrap(v, 4), 4);
      UnwrapWrap(v, 4);
    case I64(v) =>
      FromToLe(Wrap(v, 8), 8);
      UnwrapWrap(v, 8);
    case F32(v) => FromToLe(v, 4);
  }

  lemma TextComesBack(t: seq<Byte>, rest: seq<Byte>)
    requires |t| < Span(2)
    ensures DecodeField(KText, EncodeField(Text(t)) + rest) == Decoded([Text(t)], rest)
  {
    var s := EncodeField(Text(t)) + rest;
    FromToLe(|t|, 2);
    assert s[..2] == ToLe(|t|, 2) && s[2..2 + |t|] == t && s[2 + |t|..] == rest;
  }

  /** Reading back in order what was written returns every value and stops at the same cursor. */
  lemma {:induction false} DecodeEncode(fs: seq<Field>, rest: seq<Byte>)
    requires forall i :: 0 <= i < |fs| ==> InRange(fs[i])
    ensures DecodeAll(Kinds(fs), EncodeAll(fs) + rest) == Decoded(fs, rest)
    decreases |fs|
  {
    hide EncodeField, DecodeField;
    if fs == [] {
      assert [] + rest == rest;
    } else {
      var f, more := fs[0], fs[1..];
      assert fs == [f] + more;
      EncodeAllCons(f, more);
      var tail := EncodeAll(more) + rest;
      assert EncodeAll(fs) + rest == EncodeField(f) + tail;
      if f.Text? { TextComesBack(f.text, tail); } else { NumberComesBack(f, tail); }
      DecodeEncode(more, rest);
      assert Kinds(fs)[1..] == Kinds(more);
    }
  }

  /** So two different lists of values of the same kinds never encode alike. */
  lemma EncodingInjective(a: seq<Field>, b: seq<Field>)
    requires forall i :: 0 <= i < |a| ==> InRange(a[i])
    requires forall i :: 0 <= i < |b| ==> InRange(b[i])
    requires Kinds(a) == Kinds(b) && EncodeAll(a) == EncodeAll(b)
    ensures a == b
  {
    DecodeEncode(a, []);
    DecodeEncode(b, []);
  }

  lemma ValueKeepsBytes(k: Kind, s: seq<Byte>)
    requires !k.KText? && |s| == Width(k)
    ensures InRange(Value(k, s)) && EncodeField(Value(k, s)) == s && KindOf(Value(k, s)) == k
  {
    ToFromLe(s);
    match k
    case KI32 => WrapUnwrap(FromLe(s), 4);
    case KI64 => WrapUnwrap(FromLe(s), 8);
    case _ =>
  }

  /** Conversely, what was read, written again, gives the bytes that were read. */
  lemma {:induction false} EncodeDecode(ks: seq<Kind>, s: seq<Byte>)
    requires DecodeAll(ks, s).Decoded?
    ensures EncodeAll(DecodeAll(ks, s).fields) + DecodeAll(ks, s).rest == s
    decreases |ks|
  {
    hide EncodeField, DecodeField;
    if ks == [] {
      assert [] + s == s;
    } else {
      var d := DecodeField(ks[0], s);
      OneKeepsBytes(ks[0], s);
      EncodeDecode(ks[1..], d.rest);
      var ds := DecodeAll(ks[1..], d.rest);
      EncodeAllCons(d.fields[0], ds.fields);
      assert d.fields == [d.fields[0]];
      assert EncodeField(d.fields[0]) + EncodeAll(ds.fields) + ds.rest
          == EncodeField(d.fields[0]) + (EncodeAll(ds.fields) + ds.rest);
    }
  }

  lemma OneKeepsBytes(k: Kind, s: seq<Byte>)
    requires DecodeField(k, s).Decoded?
    ensures |DecodeField(k, s).fields| == 1
    ensures EncodeField(DecodeField(k, s).fields[0]) + DecodeField(k, s).rest == s
  {
    var w := Width(k);
    if k.KText? {
      ToFromLe(s[..w]);
    } else {
      ValueKeepsBytes(k, s[..w]);
    }
  }
}
