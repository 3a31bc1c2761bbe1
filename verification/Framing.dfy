/** How the byte stream of a TCP session is cut into packets. */
module Framing {
  import opened Bytes

  const HEADER_SIZE: nat := 4

  /** One pass over a stream: the packets and the bytes left over, or the packets before a header of
      size zero, at which the receive loop never advances. */
  datatype Frames = Done(packets: seq<seq<Byte>>, rest: seq<Byte>) | Spins(packets: seq<seq<Byte>>)

  /** The size field, which counts the header too. */
  function PacketSize(s: seq<Byte>): (n: nat)
    requires |s| >= HEADER_SIZE
    ensures n < 0x10000
  {
    U16(s[0], s[1])
  }

  function PrependAll(ps: seq<seq<Byte>>, f: Frames): Frames {
    match f
    case Done(qs, r) => Done(ps + qs, r)
    case Spins(qs) => Spins(ps + qs)
  }

  function Parse(s: seq<Byte>): Frames {
    if |s| < HEADER_SIZE || |s| < PacketSize(s) then Done([], s)
    else
      var n := PacketSize(s);
      if n == 0 then Spins([]) else PrependAll([s[..n]], Parse(s[n..]))
  }

  /** Too short for a header, or for the packet its header announces. */
  predicate Incomplete(s: seq<Byte>) {
    |s| < HEADER_SIZE || |s| < PacketSize(s)
  }

  function Concat(ps: seq<seq<Byte>>): seq<Byte> {
    if ps == [] then [] else ps[0] + Concat(ps[1..])
  }

  // ------------------------------------------------------------------ what one pass promises

  /** Nothing is lost, changed or reordered, and what is left over could not have been a packet. */
  lemma {:induction false} ParseCovers(s: seq<Byte>)
    requires Parse(s).Done?
    ensures s == Concat(Parse(s).packets) + Parse(s).rest && Incomplete(Parse(s).rest)
    decreases |s|
  {
    if Incomplete(s) {
      assert s == [] + s;
    } else {
      var n := PacketSize(s);
      ParseCovers(s[n..]);
      var f := Parse(s[n..]);
      ConcatCons(s[..n], f.packets);
      Regroup(s, n, Concat(f.packets), f.rest);
    }
  }

  /** What it means to spin: after the packets delivered the stream holds a header of size zero. */
  lemma {:induction false} SpinsCovers(s: seq<Byte>)
    requires Parse(s).Spins?
    ensures var n := |Concat(Parse(s).packets)|;
            && n + HEADER_SIZE <= |s| && Concat(Parse(s).packets) == s[..n] && s[n] == 0 && s[n + 1] == 0
    decreases |s|
  {
    var n := PacketSize(s);
    if n == 0 {
      assert s[0] == 0 && s[1] == 0;
    } else {
      SpinsCovers(s[n..]);
      var f := Parse(s[n..]);
      ConcatCons(s[..n], f.packets);
      assert s[n..][..|Concat(f.packets)|] == s[n..n + |Concat(f.packets)|];
    }
  }

  /** Conversely, a header of size zero after packets whose headers tell their length. */
  lemma {:induction false} ZeroHeaderAfter(ps: seq<seq<Byte>>, rest: seq<Byte>)
    requires forall p :: p in ps ==> WellFormed(p)
    requires |rest| >= HEADER_SIZE && rest[0] == 0 && rest[1] == 0
    ensures Parse(Concat(ps) + rest) == Spins(ps)
    decreases |ps|
  {
    if ps == [] {
      assert Concat(ps) + rest == rest;
    } else {
      var s := Concat(ps) + rest;
      assert WellFormed(ps[0]) by { assert ps[0] in ps; }
      assert s == ps[0] + (Concat(ps[1..]) + rest);
      assert s[..|ps[0]|] == ps[0] && s[|ps[0]|..] == Concat(ps[1..]) + rest;
      assert PacketSize(s) == PacketSize(ps[0]);
      ZeroHeaderAfter(ps[1..], rest);
      assert [ps[0]] + ps[1..] == ps;
    }
  }

  lemma Regroup(s: seq<Byte>, n: nat, a: seq<Byte>, b: seq<Byte>)
    requires n <= |s| && s[n..] == a + b
    ensures s == (s[..n] + a) + b
  {
    assert s == s[..n] + s[n..];
  }

  lemma ConcatCons(p: seq<Byte>, ps: seq<seq<Byte>>)
    ensures Concat([p] + ps) == p + Concat(ps)
  {
    assert ([p] + ps)[1..] == ps;
  }

  /** Every delivered packet is as long as its header says. */
  lemma {:induction false} DeliveredSizes(s: seq<Byte>)
    ensures forall p :: p in Parse(s).packets ==> p != [] && (|p| >= HEADER_SIZE ==> WellFormed(p))
    decreases |s|
  {
    if !Incomplete(s) && PacketSize(s) > 0 {
      var n := PacketSize(s);
      DeliveredSizes(s[n..]);
      var p := s[..n];
      assert Parse(s).packets == [p] + Parse(s[n..]).packets;
      assert n >= HEADER_SIZE ==> p[0] == s[0] && p[1] == s[1];
    }
  }

  predicate WellFormed(p: seq<Byte>) {
    |p| >= HEADER_SIZE && PacketSize(p) == |p|
  }

  /** Conversely, packets whose headers tell their length come back as they were sent. */
  lemma {:induction false} ParseConcat(ps: seq<seq<Byte>>, rest: seq<Byte>)
    requires forall p :: p in ps ==> WellFormed(p)
    requires Incomplete(rest)
    ensures Parse(Concat(ps) + rest) == Done(ps, rest)
    decreases |ps|
  {
    if ps == [] {
      assert Concat(ps) + rest == rest;
    } else {
      var s := Concat(ps) + rest;
      assert WellFormed(ps[0]) by { assert ps[0] in ps; }
      assert s == ps[0] + (Concat(ps[1..]) + rest);
      assert s[..|ps[0]|] == ps[0] && s[|ps[0]|..] == Concat(ps[1..]) + rest;
      assert PacketSize(s) == PacketSize(ps[0]);
      ParseConcat(ps[1..], rest);
      assert [ps[0]] + ps[1..] == ps;
    }
  }

  /** Parsing a prefix first makes no difference. */
  lemma {:induction false} ParseAppend(a: seq<Byte>, b: seq<Byte>)
    ensures Parse(a).Done? ==> Parse(a + b) == PrependAll(Parse(a).packets, Parse(Parse(a).rest + b))
    ensures Parse(a).Spins? ==> Parse(a + b) == Parse(a)
    decreases |a|
  {
    if Incomplete(a) {
      assert PrependAll([], Parse(a + b)) == Parse(a + b);
    } else {
      var n := PacketSize(a);
      assert PacketSize(a + b) == n;
      if n > 0 {
        assert (a + b)[..n] == a[..n] && (a + b)[n..] == a[n..] + b;
        ParseAppend(a[n..], b);
        if Parse(a).Done? {
          var rest := Parse(a[n..]);
          PrependTwice([a[..n]], rest.packets, Parse(rest.rest + b));
        }
      }
    }
  }

  lemma PrependTwice(ps: seq<seq<Byte>>, qs: seq<seq<Byte>>, f: Frames)
    ensures PrependAll(ps, PrependAll(qs, f)) == PrependAll(ps + qs, f)
  {
    assert ps + (qs + f.packets) == (ps + qs) + f.packets;
  }

  // ------------------------------------------------------------------ receiving in pieces

  /** A session after some receives: still receiving, or inside a loop that never ends. */
  datatype Stream = Live(delivered: seq<seq<Byte>>, residue: seq<Byte>) | Stuck(delivered: seq<seq<Byte>>)

  function Feed(st: Stream, chunk: seq<Byte>): Stream {
    if st.Stuck? then st
    else
      match Parse(st.residue + chunk)
      case Done(ps, r) => Live(st.delivered + ps, r)
      case Spins(ps) => Stuck(st.delivered + ps)
  }

  function FeedAll(st: Stream, chunks: seq<seq<Byte>>): Stream
    decreases |chunks|
  {
    if chunks == [] then st else FeedAll(Feed(st, chunks[0]), chunks[1..])
  }

  function ToStream(f: Frames): Stream {
    match f
    case Done(ps, r) => Live(ps, r)
    case Spins(ps) => Stuck(ps)
  }

  lemma {:induction false} FeedStuck(st: Stream, chunks: seq<seq<Byte>>)
    requires st.Stuck?
    ensures FeedAll(st, chunks) == st
    decreases |chunks|
  {
    if chunks != [] { FeedStuck(st, chunks[1..]); }
  }

  lemma {:induction false} FeedFrom(st: Stream, chunks: seq<seq<Byte>>)
    requires st.Live? && Incomplete(st.residue)
    ensures FeedAll(st, chunks) == ToStream(PrependAll(st.delivered, Parse(st.residue + Concat(chunks))))
    decreases |chunks|
  {
    if chunks == [] {
      assert st.residue + Concat(chunks) == st.residue;
      assert st.delivered + [] == st.delivered;
    } else {
      var s := st.residue + chunks[0];
      assert st.residue + Concat(chunks) == s + Concat(chunks[1..]);
      ParseAppend(s, Concat(chunks[1..]));
      var next := Feed(st, chunks[0]);
      if next.Stuck? {
        FeedStuck(next, chunks[1..]);
      } else {
        ParseCovers(s);
        FeedFrom(next, chunks[1..]);
        PrependTwice(st.delivered, Parse(s).packets, Parse(next.residue + Concat(chunks[1..])));
      }
    }
  }

  /** However the network cuts a stream, the packets delivered and the bytes kept are those of one
      pass over the whole of it. */
  lemma ChunkIndependence(chunks: seq<seq<Byte>>)
    ensures FeedAll(Live([], []), chunks) == ToStream(Parse(Concat(chunks)))
  {
    FeedFrom(Live([], []), chunks);
    assert [] + Concat(chunks) == Concat(chunks);
    var f := Parse(Concat(chunks));
    assert [] + f.packets == f.packets;
  }

  /** Receiving never wedges: what is kept between two receives is shorter than the longest packet. */
  lemma ResidueIsShort(chunks: seq<seq<Byte>>)
    ensures var st := FeedAll(Live([], []), chunks);
            st.Live? ==> Incomplete(st.residue) && |st.residue| <= 0xFFFE
  {
    hide FeedAll;
    ChunkIndependence(chunks);
    var f := Parse(Concat(chunks));
    if f.Done? {
      ParseCovers(Concat(chunks));
      if |f.rest| >= HEADER_SIZE { assert PacketSize(f.rest) < 0x10000; }
    }
  }

  // ------------------------------------------------------------------ sender and receiver

  datatype Packet = Packet(id: nat, payload: seq<Byte>)

  predicate Sendable(p: Packet) {
    p.id < 0x10000 && |p.payload| + HEADER_SIZE < 0x10000
  }

  function Encode(p: Packet): seq<Byte>
    requires Sendable(p)
  {
    var n := |p.payload| + HEADER_SIZE;
    [n % 0x100, n / 0x100, p.id % 0x100, p.id / 0x100] + p.payload
  }

  function Decode(s: seq<Byte>): Packet
    requires WellFormed(s)
  {
    Packet(U16(s[2], s[3]), s[HEADER_SIZE..])
  }

  function EncodeEach(ps: seq<Packet>): (es: seq<seq<Byte>>)
    requires forall p :: p in ps ==> Sendable(p)
    ensures |es| == |ps| && forall i :: 0 <= i < |ps| ==> es[i] == Encode(ps[i])
  {
    seq(|ps|, i requires 0 <= i < |ps| => Encode(ps[i]))
  }

  lemma EncodeDecode(p: Packet)
    requires Sendable(p)
    ensures WellFormed(Encode(p)) && Decode(Encode(p)) == p
    ensures (Encode(p)[0] as int) + 0x100 * (Encode(p)[1] as int) == 4 + |p.payload|
    ensures (Encode(p)[2] as int) + 0x100 * (Encode(p)[3] as int) == p.id && Encode(p)[4..] == p.payload
  {
    assert Encode(p)[HEADER_SIZE..] == p.payload;
  }

  /** A list of packets sent over TCP arrives as that list, with nothing left over, whatever the
      sizes of the receives. */
  lemma PacketsArrive(ps: seq<Packet>, chunks: seq<seq<Byte>>)
    requires forall p :: p in ps ==> Sendable(p)
    requires Concat(chunks) == Concat(EncodeEach(ps))
    ensures FeedAll(Live([], []), chunks) == Live(EncodeEach(ps), [])
    ensures forall i :: 0 <= i < |ps| ==> WellFormed(EncodeEach(ps)[i]) && Decode(EncodeEach(ps)[i]) == ps[i]
  {
    forall i | 0 <= i < |ps|
      ensures WellFormed(EncodeEach(ps)[i]) && Decode(EncodeEach(ps)[i]) == ps[i]
    {
      assert ps[i] in ps;
      EncodeDecode(ps[i]);
    }
    ParseConcat(EncodeEach(ps), []);
    assert Concat(EncodeEach(ps)) + [] == Concat(EncodeEach(ps));
    ChunkIndependence(chunks);
  }

  // ------------------------------------------------------------------ the receive loop itself

  /** One iteration of the loop of `OnRecv` at offset `pos`: leave, or deliver and go on. */
  datatype Iteration = Leave | Deliver(packet: seq<Byte>, pos: nat)

  function LoopBody(s: seq<Byte>, pos: nat): Iteration
    requires pos <= |s|
    ensures LoopBody(s, pos).Deliver? ==> LoopBody(s, pos).pos <= |s|
  {
    if |s| - pos < HEADER_SIZE then Leave
    else
      var n := PacketSize(s[pos..]);
      if |s| - pos < n then Leave else Deliver(s[pos..pos + n], pos + n)
  }

  /** The loop is still going after `n` iterations from `pos`. */
  predicate StillLooping(s: seq<Byte>, pos: nat, n: nat)
    requires pos <= |s|
    decreases n
  {
    n == 0 || (LoopBody(s, pos).Deliver? && StillLooping(s, LoopBody(s, pos).pos, n - 1))
  }

  lemma {:induction false} LoopsWhenSpinning(s: seq<Byte>, pos: nat, n: nat)
    requires pos <= |s| && Parse(s[pos..]).Spins?
    ensures StillLooping(s, pos, n)
    decreases n
  {
    if n > 0 {
      TailParse(s, pos);
      LoopsWhenSpinning(s, LoopBody(s, pos).pos, n - 1);
    }
  }

  lemma {:induction false} LeavesWhenDone(s: seq<Byte>, pos: nat)
    requires pos <= |s| && Parse(s[pos..]).Done?
    ensures !StillLooping(s, pos, |Parse(s[pos..]).packets| + 1)
    decreases |s| - pos
  {
    TailParse(s, pos);
    if LoopBody(s, pos).Deliver? { LeavesWhenDone(s, LoopBody(s, pos).pos); }
  }

  /** One iteration against one unfolding of the parse. */
  lemma TailParse(s: seq<Byte>, pos: nat)
    requires pos <= |s|
    ensures LoopBody(s, pos).Leave? <==> Incomplete(s[pos..])
    ensures LoopBody(s, pos).Leave? ==> Parse(s[pos..]) == Done([], s[pos..])
    ensures var b := LoopBody(s, pos);
            b.Deliver? ==>
              if b.pos == pos then Parse(s[pos..]).Spins?
              else pos < b.pos && Parse(s[pos..]) == PrependAll([b.packet], Parse(s[b.pos..]))
  {
    if !Incomplete(s[pos..]) {
      var n := PacketSize(s[pos..]);
      assert s[pos..][n..] == s[pos + n..] && s[pos..][..n] == s[pos..pos + n];
    }
  }

  /** Delivering one packet leaves what is delivered in the end the same. */
  lemma DeliverOne(done: seq<seq<Byte>>, s: seq<Byte>, pos: nat)
    requires pos <= |s| && LoopBody(s, pos).Deliver? && LoopBody(s, pos).pos > pos
    ensures var b := LoopBody(s, pos);
            PrependAll(done + [b.packet], Parse(s[b.pos..])) == PrependAll(done, Parse(s[pos..]))
  {
    TailParse(s, pos);
    var b := LoopBody(s, pos);
    PrependTwice(done, [b.packet], Parse(s[b.pos..]));
  }

  /** The loop has stopped: what it delivered is what the parse found. */
  lemma LeavingParse(s: seq<Byte>, pos: nat, done: seq<seq<Byte>>, before: seq<seq<Byte>>)
    requires pos <= |s| && PrependAll(done, Parse(s[pos..])) == PrependAll(before, Parse(s))
    requires LoopBody(s, pos).Leave? || LoopBody(s, pos).pos == pos
    ensures done == before + Parse(s).packets && Parse(s).Spins? == LoopBody(s, pos).Deliver?
    ensures Parse(s).Done? ==> s[pos..] == Parse(s).rest
  {
    TailParse(s, pos);
    assert done + [] == done;
  }

  /** `OnRecv` fails to return exactly on the streams whose parse meets a header of size zero. */
  lemma NeverReturnsIff(s: seq<Byte>)
    ensures Parse(s).Spins? <==> forall n: nat :: StillLooping(s, 0, n)
  {
    assert s[0..] == s;
    if Parse(s).Spins? {
      forall n: nat
        ensures StillLooping(s, 0, n)
      {
        LoopsWhenSpinning(s, 0, n);
      }
    } else {
      LeavesWhenDone(s, 0);
    }
  }

  /** Such a stream exists: four zero bytes. */
  lemma ZeroHeaderSpins()
    ensures Parse([0, 0, 0, 0]) == Spins([])
  {
    assert PacketSize([0, 0, 0, 0]) == 0;
  }
}
