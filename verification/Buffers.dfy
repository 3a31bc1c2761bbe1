/** `BufferWriter` and `BufferReader`: a byte buffer with a cursor. Streaming does not check the space, so
    both may leave their buffer; what they write or find there is part of the model. */
module Buffers {
  import opened Bytes
  import opened Codec
  import opened Options

  const UINT32_SPACE: nat := 0x1_0000_0000

  /** `_size - _pos` in 32 bits: past the end it wraps round to a huge number. */
  function FreeSpace(size: nat, pos: nat): (n: nat)
    requires size < UINT32_SPACE
    ensures pos <= size ==> n == size - pos
  {
    (size - pos) % UINT32_SPACE
  }

  /** What the 16-bit length of a text leaves of it. */
  function Clip(t: seq<Byte>): (c: seq<Byte>)
    ensures |c| < Span(2) && c <= t && (|t| < Span(2) ==> c == t)
  {
    assert Span(2) == 0x100 * Span(1) && Span(1) == 0x100 * Span(0);
    t[..|t| % 0x10000]
  }

  class BufferWriter {
    const buffer: array<Byte>
    const size: nat
    var pos: nat
    var overrun: seq<Byte>  // what was written behind the buffer, from its end on

    ghost predicate Valid()
      reads this
    {
      && size <= buffer.Length && size < UINT32_SPACE
      && |overrun| == if pos <= size then 0 else pos - size
    }

    /** How much of the buffer the cursor has passed. */
    function Used(): (n: nat)
      reads this
      ensures n <= size
    {
      if pos <= size then pos else size
    }

    /** The bytes before the cursor, wherever they stand. */
    ghost function Written(): (s: seq<Byte>)
      reads this, buffer
      requires Valid()
      ensures |s| == pos
    {
      buffer[..Used()] + overrun
    }

    constructor (b: array<Byte>, n: nat)
      requires n <= b.Length && n < UINT32_SPACE
      ensures Valid() && buffer == b && size == n && pos == 0
    {
      buffer, size, pos, overrun := b, n, 0, [];
    }

    function FreeSize(): nat
      reads this
      requires Valid()
    {
      FreeSpace(size, pos)
    }

    /** `memcpy` to the cursor, which then moves on; what does not fit goes behind the buffer. */
    method Store(bytes: seq<Byte>)
      requires Valid()
      modifies this, buffer
      ensures Valid() && pos == old(pos) + |bytes| && Written() == old(Written()) + bytes
    {
      var room := if pos + |bytes| <= size then |bytes| else if pos <= size then size - pos else 0;
      forall i | 0 <= i < room { buffer[pos + i] := bytes[i]; }
      assert buffer[..Used() + room] == old(buffer[..Used()]) + bytes[..room];
      overrun := overrun + bytes[room..];
      pos := pos + |bytes|;
      assert bytes == bytes[..room] + bytes[room..];
    }

    /** The checked write: all or nothing, and inside the buffer if the cursor was. */
    method Write(src: seq<Byte>) returns (ok: bool)
      requires Valid()
      modifies this, buffer
      ensures Valid() && ok == (|src| <= old(FreeSize()))
      ensures ok ==> Written() == old(Written()) + src
      ensures !ok ==> pos == old(pos) && overrun == old(overrun) && buffer[..] == old(buffer[..])
      ensures old(pos) <= size ==> pos <= size && ok == (old(pos) + |src| <= size)
    {
      if FreeSize() < |src| { return false; }
      Store(src);
      return true;
    }

    /** Leaves room for `n` bytes, to be filled in later, and says where. Nothing is written. */
    method Reserve(n: nat) returns (at: Option<nat>)
      requires Valid()
      modifies this
      ensures Valid() && at == if n <= old(FreeSize()) then Some(old(pos)) else None
      ensures pos == old(pos) + (if at.Some? then n else 0) && old(Written()) <= Written()
      ensures old(pos) <= size ==> pos <= size && (at.Some? <==> old(pos) + n <= size)
    {
      if FreeSize() < n { return None; }
      at := Some(pos);
      if pos > size {
        var there: seq<Byte> :| |there| == n by { assert |seq(n, i => 0 as Byte)| == n; }
        overrun := overrun + there;
      }
      pos := pos + n;
    }

    /** `operator<<` on a value: it does not check the space. */
    method Put(f: Field)
      requires Valid() && !f.Text?
      modifies this, buffer
      ensures Valid() && Written() == old(Written()) + EncodeField(f)
    {
      Store(EncodeField(f));
    }

    /** A text: its length in 16 bits, then that many bytes, one after the other. */
    method PutText(t: seq<Byte>)
      requires Valid()
      modifies this, buffer
      ensures Valid() && Written() == old(Written()) + EncodeField(Text(Clip(t)))
    {
      hide EncodeField;
      var n := |t| % 0x10000;
      Put(U16(n));
      for i := 0 to n
        invariant Valid() && Written() == old(Written()) + EncodeField(U16(n)) + t[..i]
      {
        ByteEncoding(t[i]);
        Put(U8(t[i]));
        assert t[..i + 1] == t[..i] + [t[i]];
      }
      TextEncoding(Clip(t));
      assert old(Written()) + EncodeField(U16(n)) + t[..n] == old(Written()) + (EncodeField(U16(n)) + t[..n]);
    }

    /** Writes through the pointer that `Reserve` returned. */
    method Fill(at: nat, bytes: seq<Byte>)
      requires Valid() && at + |bytes| <= Used()
      modifies buffer
      ensures Valid() && Written() == old(Written())[..at] + bytes + old(Written())[at + |bytes|..]
    {
      forall i | 0 <= i < |bytes| { buffer[at + i] := bytes[i]; }
    }
  }

  lemma ByteEncoding(b: Byte)
    ensures EncodeField(U8(b)) == [b]
  {
    assert ToLe(b, 1) == [b % 0x100] + ToLe(b / 0x100, 0);
  }

  lemma TextEncoding(t: seq<Byte>)
    ensures EncodeField(Text(t)) == EncodeField(U16(|t|)) + t
  {
  }

  class BufferReader {
    const buffer: seq<Byte>
    const beyond: nat -> Byte  // what lies in memory behind the buffer
    var pos: nat

    predicate Valid() {
      |buffer| < UINT32_SPACE
    }

    /** The bytes from the cursor to the end of the buffer. */
    ghost function Unread(): seq<Byte>
      reads this
    {
      if pos <= |buffer| then buffer[pos..] else []
    }

    constructor (b: seq<Byte>, beyond: nat -> Byte)
      requires |b| < UINT32_SPACE
      ensures Valid() && buffer == b && this.beyond == beyond && Unread() == b && pos == 0
    {
      buffer, this.beyond, pos := b, beyond, 0;
    }

    function FreeSize(): nat
      reads this
      requires Valid()
    {
      FreeSpace(|buffer|, pos)
    }

    function At(i: nat): Byte {
      if i < |buffer| then buffer[i] else beyond(i - |buffer|)
    }

    /** `n` bytes of memory from `from` on. */
    function Window(from: nat, n: nat): (s: seq<Byte>)
      ensures |s| == n
      ensures from + n <= |buffer| ==> s == buffer[from..from + n]
      decreases n
    {
      if n == 0 then [] else [At(from)] + Window(from + 1, n - 1)
    }

    method Peek(n: nat) returns (r: Option<seq<Byte>>)
      requires Valid()
      ensures r == if n <= FreeSize() then Some(Window(pos, n)) else None
      ensures pos <= |buffer| ==> r == if n <= |Unread()| then Some(Unread()[..n]) else None
    {
      if FreeSize() < n { return None; }
      assert pos <= |buffer| ==> Unread()[..n] == buffer[pos..pos + n];
      return Some(Window(pos, n));
    }

    /** The checked read: it stays inside the buffer if the cursor was there. */
    method Read(n: nat) returns (r: Option<seq<Byte>>)
      requires Valid()
      modifies this
      ensures r == if n <= old(FreeSize()) then Some(Window(old(pos), n)) else None
      ensures pos == old(pos) + if r.Some? then n else 0
      ensures old(pos) <= |buffer| ==>
                && pos <= |buffer| && r == if n <= |old(Unread())| then Some(old(Unread())[..n]) else None
    {
      r := Peek(n);
      if r.Some? { pos := pos + n; }
    }

    /** `operator>>` takes the bytes at the cursor, of the buffer or not. */
    method Get(k: Kind) returns (f: Field)
      requires Valid() && !k.KText?
      modifies this
      ensures f == Value(k, Window(old(pos), Width(k))) && pos == old(pos) + Width(k)
      ensures Width(k) <= |old(Unread())| ==>
                pos <= |buffer| && Decoded([f], Unread()) == DecodeField(k, old(Unread()))
    {
      hide Value;
      f := Value(k, Window(pos, Width(k)));
      assert Width(k) <= |Unread()| ==> Unread()[..Width(k)] == buffer[pos..pos + Width(k)];
      pos := pos + Width(k);
    }
  }
}
