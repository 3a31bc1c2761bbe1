/** The client registry of the UDP service on values: two maps, by session id and by address key, over
    shared client contexts. `R` stands for the references through which the contexts are shared. */
module Registry {
  import opened Bytes

  import opened Options

  type Id = nat

  /** `SOCKADDR_IN`, both fields as they stand in the structure. */
  datatype Addr = Addr(ip: bv32, port: bv16)

  const SESSION_TIMEOUT_MS: int := 10000
  const ID_SPACE: nat := 0x1_0000_0000_0000_0000

  datatype Key = Key(bits: bv32)

  function Xor(x: bv32, y: bv32): bv32 {
    x ^ y
  }

  function Widen(p: bv16): bv32 {
    p as bv32
  }

  function SockAddrKey(a: Addr): Key {
    Key(Xor(a.ip, Widen(a.port)))
  }

  datatype Context = Context(sessionId: Id, addr: Addr, lastSeq: nat, lastAliveMs: int, userId: seq<Byte>)

  datatype Reg<R(==)> = Reg(ids: map<Id, R>, addrs: map<Key, R>, ctx: map<R, Context>, counter: nat)

  function Empty<R>(): Reg<R> {
    Reg(map[], map[], map[], 1)
  }

  /** `GenerateSessionId` hands out the 64-bit counter. */
  function NextId<R>(g: Reg<R>): Id {
    g.counter % ID_SPACE
  }

  /** A second registration under a known key refreshes the context it finds there; `r` is the
      reference a new context gets. */
  function Register<R>(g: Reg<R>, a: Addr, now: int, r: R): (Reg<R>, R) {
    var key := SockAddrKey(a);
    if key in g.addrs && g.addrs[key] in g.ctx then
      var known := g.addrs[key];
      (g.(ctx := g.ctx[known := g.ctx[known].(lastAliveMs := now)]), known)
    else
      var id := NextId(g);
      (Reg(g.ids[id := r], g.addrs[key := r], g.ctx[r := Context(id, a, 0, now, [])], g.counter + 1), r)
  }

  function Remove<R>(g: Reg<R>, id: Id): Reg<R> {
    if id in g.ids && g.ids[id] in g.ctx then
      g.(ids := g.ids - {id}, addrs := g.addrs - {SockAddrKey(g.ctx[g.ids[id]].addr)})
    else g
  }

  function RemoveAll<R>(g: Reg<R>, ids: seq<Id>): Reg<R> {
    if ids == [] then g else Remove(RemoveAll(g, ids[..|ids|-1]), ids[|ids|-1])
  }

  /** What a packet handler writes through its reference, whether or not it is still registered. */
  function Touch<R>(g: Reg<R>, r: R, seqNo: nat, now: int): Reg<R> {
    if r in g.ctx then g.(ctx := g.ctx[r := g.ctx[r].(lastSeq := seqNo, lastAliveMs := now)]) else g
  }

  function SetUser<R>(g: Reg<R>, r: R, userId: seq<Byte>): Reg<R> {
    if r in g.ctx then g.(ctx := g.ctx[r := g.ctx[r].(userId := userId)]) else g
  }

  function FindById<R>(g: Reg<R>, id: Id): Option<R> {
    if id in g.ids then Some(g.ids[id]) else None
  }

  /** By key, then by comparing the whole address. */
  function FindByAddr<R>(g: Reg<R>, a: Addr): Option<R> {
    var key := SockAddrKey(a);
    if key in g.addrs && g.addrs[key] in g.ctx && g.ctx[g.addrs[key]].addr == a then Some(g.addrs[key]) else None
  }

  /** Both maps hold the same contexts, each under its own id and its own key. */
  ghost predicate Agree<R>(g: Reg<R>) {
    && (forall id :: id in g.ids ==>
          && g.ids[id] in g.ctx
          && g.ctx[g.ids[id]].sessionId == id
          && SockAddrKey(g.ctx[g.ids[id]].addr) in g.addrs
          && g.addrs[SockAddrKey(g.ctx[g.ids[id]].addr)] == g.ids[id])
    && (forall k :: k in g.addrs ==>
          && g.addrs[k] in g.ctx
          && SockAddrKey(g.ctx[g.addrs[k]].addr) == k
          && g.ctx[g.addrs[k]].sessionId in g.ids
          && g.ids[g.ctx[g.addrs[k]].sessionId] == g.addrs[k])
  }

  /** The maps agree, and ids lie below the counter. */
  ghost predicate Consistent<R>(g: Reg<R>) {
    && Agree(g)
    && (forall id :: id in g.ids ==> 0 < id < g.counter)
    && 0 < g.counter
  }

  // ------------------------------------------------------------------ every operation keeps it

  /** A key tells the context, and the context its id. */
  lemma SameKeySameId<R>(g: Reg<R>, i: Id, j: Id)
    requires Consistent(g) && i in g.ids && j in g.ids
    ensures SockAddrKey(g.ctx[g.ids[i]].addr) == SockAddrKey(g.ctx[g.ids[j]].addr) ==> i == j
    ensures g.ids[i] == g.ids[j] ==> i == j
  {
    hide SockAddrKey;
  }

  lemma RegisterKeeps<R>(g: Reg<R>, a: Addr, now: int, r: R)
    requires Consistent(g) && r !in g.ctx && Register(g, a, now, r).0.counter <= ID_SPACE
    ensures Consistent(Register(g, a, now, r).0)
  {
    hide SockAddrKey, Consistent, Register, NextId;
    var key := SockAddrKey(a);
    KeyHasContext(g, key);
    if key in g.addrs {
      RegisterKnown(g, a, now, g.addrs[key]);
      RegisterKnownAny(g, a, now, r);
      RefreshKeeps(g, g.addrs[key], now);
    } else {
      RegisterNew(g, a, now, r);
      AddKeeps(g, a, now, r);
    }
  }

  lemma KeyHasContext<R>(g: Reg<R>, key: Key)
    requires Consistent(g)
    ensures key in g.addrs ==> g.addrs[key] in g.ctx
  {
  }

  /** For a known address the new reference is not used. */
  lemma RegisterKnownAny<R>(g: Reg<R>, a: Addr, now: int, r: R)
    requires SockAddrKey(a) in g.addrs && g.addrs[SockAddrKey(a)] in g.ctx
    ensures Register(g, a, now, r) == Register(g, a, now, g.addrs[SockAddrKey(a)])
  {
  }

  lemma RegisterKnown<R>(g: Reg<R>, a: Addr, now: int, r: R)
    requires SockAddrKey(a) in g.addrs && g.addrs[SockAddrKey(a)] == r && r in g.ctx
    ensures Register(g, a, now, r) == (g.(ctx := g.ctx[r := g.ctx[r].(lastAliveMs := now)]), r)
  {
  }

  lemma RegisterNew<R>(g: Reg<R>, a: Addr, now: int, r: R)
    requires SockAddrKey(a) !in g.addrs
    ensures Register(g, a, now, r) ==
            (Reg(g.ids[NextId(g) := r], g.addrs[SockAddrKey(a) := r],
                 g.ctx[r := Context(NextId(g), a, 0, now, [])], g.counter + 1), r)
    ensures g.counter < ID_SPACE ==> NextId(g) == g.counter
  {
  }

  lemma FreeIdAgrees<R>(g: Reg<R>, a: Addr, now: int, r: R, id: Id)
    requires Agree(g) && r !in g.ctx && SockAddrKey(a) !in g.addrs && id !in g.ids
    ensures Agree(Reg(g.ids[id := r], g.addrs[SockAddrKey(a) := r],
                      g.ctx[r := Context(id, a, 0, now, [])], g.counter + 1))
  {
    hide SockAddrKey;
  }

  lemma TakenIdDisagrees<R>(g: Reg<R>, a: Addr, now: int, r: R, id: Id)
    requires Agree(g) && r !in g.ctx && SockAddrKey(a) !in g.addrs && id in g.ids
    ensures !Agree(Reg(g.ids[id := r], g.addrs[SockAddrKey(a) := r],
                       g.ctx[r := Context(id, a, 0, now, [])], g.counter + 1))
  {
    hide SockAddrKey;
    var g' := Reg(g.ids[id := r], g.addrs[SockAddrKey(a) := r], g.ctx[r := Context(id, a, 0, now, [])], g.counter + 1);
    var other := g.ids[id];
    var otherKey := SockAddrKey(g.ctx[other].addr);
    assert otherKey in g'.addrs && g'.addrs[otherKey] == other && g'.ids[g'.ctx[other].sessionId] == r;
  }

  lemma RefreshAgrees<R>(g: Reg<R>, r: R, now: int)
    requires Agree(g) && r in g.ctx
    ensures Agree(g.(ctx := g.ctx[r := g.ctx[r].(lastAliveMs := now)]))
  {
    hide SockAddrKey;
  }

  /** Whatever the counter, even after it wrapped: registration keeps the maps in agreement exactly when
      the address is known or the id handed out is free. */
  lemma RegisterAgreesIff<R>(g: Reg<R>, a: Addr, now: int, r: R)
    requires Agree(g) && r !in g.ctx
    ensures Agree(Register(g, a, now, r).0) <==> SockAddrKey(a) in g.addrs || NextId(g) !in g.ids
  {
    AgreeHasContext(g, SockAddrKey(a));
    hide SockAddrKey, NextId, Agree;
    if SockAddrKey(a) in g.addrs {
      RefreshAgrees(g, g.addrs[SockAddrKey(a)], now);
    } else if NextId(g) !in g.ids {
      FreeIdAgrees(g, a, now, r, NextId(g));
    } else {
      TakenIdDisagrees(g, a, now, r, NextId(g));
    }
  }

  lemma AgreeHasContext<R>(g: Reg<R>, key: Key)
    requires Agree(g)
    ensures key in g.addrs ==> g.addrs[key] in g.ctx
  {
  }

  lemma RefreshKeeps<R>(g: Reg<R>, r: R, now: int)
    requires Consistent(g) && r in g.ctx
    ensures Consistent(g.(ctx := g.ctx[r := g.ctx[r].(lastAliveMs := now)]))
  {
    hide SockAddrKey, Agree;
    RefreshAgrees(g, r, now);
  }

  lemma AddKeeps<R>(g: Reg<R>, a: Addr, now: int, r: R)
    requires Consistent(g) && r !in g.ctx && SockAddrKey(a) !in g.addrs
    ensures Consistent(Reg(g.ids[g.counter := r], g.addrs[SockAddrKey(a) := r],
                           g.ctx[r := Context(g.counter, a, 0, now, [])], g.counter + 1))
  {
    hide SockAddrKey, Agree;
    FreeIdAgrees(g, a, now, r, g.counter);
  }

  lemma RemoveKeeps<R>(g: Reg<R>, id: Id)
    requires Consistent(g)
    ensures Consistent(Remove(g, id)) && Remove(g, id).ids == g.ids - {id}
  {
    hide SockAddrKey;
    var g' := Remove(g, id);
    if id in g.ids {
      forall other | other in g'.ids
        ensures SockAddrKey(g.ctx[g.ids[other]].addr) in g'.addrs
      {
        SameKeySameId(g, other, id);
      }
      forall k | k in g'.addrs
        ensures g.ctx[g.addrs[k]].sessionId in g'.ids
      {
        assert k in g.addrs;
      }
    } else {
      assert g.ids - {id} == g.ids;
    }
  }

  /** Removing many leaves the others, and the order does not matter. */
  lemma {:induction false} RemoveAllKeeps<R>(g: Reg<R>, ids: seq<Id>)
    requires Consistent(g)
    ensures Consistent(RemoveAll(g, ids))
    ensures forall id :: id in RemoveAll(g, ids).ids <==> id in g.ids && id !in ids
    decreases |ids|
  {
    if ids != [] {
      RemoveAllKeeps(g, ids[..|ids|-1]);
      RemoveKeeps(RemoveAll(g, ids[..|ids|-1]), ids[|ids|-1]);
    }
  }

  lemma TouchKeeps<R>(g: Reg<R>, r: R, seqNo: nat, now: int)
    requires Consistent(g)
    ensures Consistent(Touch(g, r, seqNo, now)) && Touch(g, r, seqNo, now).ids == g.ids
  {
  }

  lemma SetUserKeeps<R>(g: Reg<R>, r: R, userId: seq<Byte>)
    requires Consistent(g)
    ensures Consistent(SetUser(g, r, userId)) && SetUser(g, r, userId).ids == g.ids
  {
  }

  /** The two maps are in bijection: different ids have different contexts and different keys, and each
      key belongs to exactly one id. */
  lemma Bijection<R>(g: Reg<R>)
    requires Consistent(g)
    ensures g.ids.Values == g.addrs.Values
    ensures forall i, j :: i in g.ids && j in g.ids && i != j ==>
              && g.ids[i] in g.ctx && g.ids[j] in g.ctx && g.ids[i] != g.ids[j]
              && SockAddrKey(g.ctx[g.ids[i]].addr) != SockAddrKey(g.ctx[g.ids[j]].addr)
    ensures |g.ids| == |g.addrs|
  {
    hide SockAddrKey;
    forall r | r in g.ids.Values
      ensures r in g.addrs.Values
    {
      var id :| id in g.ids && g.ids[id] == r;
      var key := SockAddrKey(g.ctx[r].addr);
      assert key in g.addrs && g.addrs[key] == r;
    }
    forall r | r in g.addrs.Values
      ensures r in g.ids.Values
    {
      var k :| k in g.addrs && g.addrs[k] == r;
      var id := g.ctx[r].sessionId;
      assert id in g.ids && g.ids[id] == r;
    }
    forall i, j | i in g.ids && j in g.ids && i != j
      ensures && g.ids[i] in g.ctx && g.ids[j] in g.ctx && g.ids[i] != g.ids[j]
              && SockAddrKey(g.ctx[g.ids[i]].addr) != SockAddrKey(g.ctx[g.ids[j]].addr)
    {
      SameKeySameId(g, i, j);
    }
    SameSize(g, g.ids.Keys, g.addrs.Keys);
  }

  /** Counts ids and keys side by side. */
  lemma {:induction false} SameSize<R>(g: Reg<R>, ids: set<Id>, keys: set<Key>)
    requires Consistent(g) && ids <= g.ids.Keys && keys <= g.addrs.Keys
    requires forall id :: id in ids ==> SockAddrKey(g.ctx[g.ids[id]].addr) in keys
    requires forall k :: k in keys ==> g.ctx[g.addrs[k]].sessionId in ids
    ensures |ids| == |keys|
    decreases |ids|
  {
    hide SockAddrKey;
    if keys != {} {
      var k :| k in keys;
      assert g.ctx[g.addrs[k]].sessionId in ids;
    }
    if ids != {} {
      var id :| id in ids;
      var key := SockAddrKey(g.ctx[g.ids[id]].addr);
      forall other | other in ids - {id}
        ensures SockAddrKey(g.ctx[g.ids[other]].addr) in keys - {key}
      {
        SameKeySameId(g, other, id);
      }
      forall k | k in keys - {key}
        ensures g.ctx[g.addrs[k]].sessionId in ids - {id}
      {
        assert k in g.addrs;
      }
      SameSize(g, ids - {id}, keys - {key});
    }
  }

  // ------------------------------------------------------------------ what the operations store

  /** A known address is refreshed and nothing else changes; an unknown one gets a context of its own that
      has seen no sequence number and no user. */
  lemma RegisterStores<R>(g: Reg<R>, a: Addr, now: int, r: R)
    requires Agree(g) && r !in g.ctx
    ensures var (g', c) := Register(g, a, now, r);
            && c in g'.ctx && g'.ctx[c].lastAliveMs == now
            && (forall x :: x in g.ctx && x != c ==> x in g'.ctx && g'.ctx[x] == g.ctx[x])
            && (c in g.ctx ==>
                  && SockAddrKey(g.ctx[c].addr) == SockAddrKey(a) && g'.ids == g.ids && g'.addrs == g.addrs
                  && g'.counter == g.counter
                  && g'.ctx[c].sessionId == g.ctx[c].sessionId && g'.ctx[c].addr == g.ctx[c].addr
                  && g'.ctx[c].lastSeq == g.ctx[c].lastSeq && g'.ctx[c].userId == g.ctx[c].userId)
            && (c !in g.ctx ==>
                  && SockAddrKey(a) !in g.addrs && c == r && g'.ctx[c].addr == a && g'.counter == g.counter + 1
                  && g'.ctx[c].sessionId == g.counter % 0x1_0000_0000_0000_0000
                  && g'.ctx[c].lastSeq == 0 && g'.ctx[c].userId == [])
  {
    hide SockAddrKey;
  }

  /** An accepted datagram stores its sequence number and its time, and nothing else. */
  lemma TouchStores<R>(g: Reg<R>, r: R, seqNo: nat, now: int)
    requires r in g.ctx
    ensures var g' := Touch(g, r, seqNo, now);
            && g'.ids == g.ids && g'.addrs == g.addrs && g'.counter == g.counter && g'.ctx.Keys == g.ctx.Keys
            && g'.ctx[r].lastSeq == seqNo && g'.ctx[r].lastAliveMs == now
            && g'.ctx[r].sessionId == g.ctx[r].sessionId && g'.ctx[r].addr == g.ctx[r].addr
            && g'.ctx[r].userId == g.ctx[r].userId
            && forall x :: x in g.ctx && x != r ==> g'.ctx[x] == g.ctx[x]
  {
  }

  /** A HELLO stores its user id, and nothing else. */
  lemma SetUserStores<R>(g: Reg<R>, r: R, userId: seq<Byte>)
    requires r in g.ctx
    ensures var g' := SetUser(g, r, userId);
            && g'.ids == g.ids && g'.addrs == g.addrs && g'.counter == g.counter && g'.ctx.Keys == g.ctx.Keys
            && g'.ctx[r].userId == userId
            && g'.ctx[r].lastSeq == g.ctx[r].lastSeq && g'.ctx[r].lastAliveMs == g.ctx[r].lastAliveMs
            && g'.ctx[r].sessionId == g.ctx[r].sessionId && g'.ctx[r].addr == g.ctx[r].addr
            && forall x :: x in g.ctx && x != r ==> g'.ctx[x] == g.ctx[x]
  {
  }

  /** Removal takes both entries of one client and touches no context. */
  lemma RemoveStores<R>(g: Reg<R>, id: Id)
    requires Consistent(g)
    ensures var g' := Remove(g, id);
            && g'.ctx == g.ctx && g'.counter == g.counter
            && (forall i :: i in g'.ids <==> i in g.ids && i != id)
            && (forall i :: i in g'.ids ==> g'.ids[i] == g.ids[i])
            && (forall k :: k in g'.addrs <==> k in g.addrs && g.ctx[g.addrs[k]].sessionId != id)
            && (forall k :: k in g'.addrs ==> g'.addrs[k] == g.addrs[k])
  {
    hide SockAddrKey;
    if id in g.ids {
      forall k | k in g.addrs && g.ctx[g.addrs[k]].sessionId == id
        ensures k == SockAddrKey(g.ctx[g.ids[id]].addr)
      {
        assert g.ids[id] == g.addrs[k];
      }
    }
  }

  // ------------------------------------------------------------------ lookups

  /** The hashed lookup finds exactly what a scan of all clients for this ip and port finds. */
  lemma FindByAddrIsScan<R>(g: Reg<R>, a: Addr, r: R)
    requires Consistent(g)
    ensures FindByAddr(g, a) == Some(r) <==> exists id :: id in g.ids && g.ids[id] == r && g.ctx[g.ids[id]].addr == a
    ensures FindByAddr(g, a).None? <==> forall id :: id in g.ids ==> g.ctx[g.ids[id]].addr != a
  {
    if FindByAddr(g, a).Some? {
      var found := FindByAddr(g, a).value;
      assert g.ids[g.ctx[found].sessionId] == found;
    }
  }

  /** A client with another address has the key of `a`. */
  ghost predicate Collides<R>(g: Reg<R>, a: Addr)
    requires Consistent(g)
  {
    exists id :: id in g.ids && g.ctx[g.ids[id]].addr != a && SockAddrKey(g.ctx[g.ids[id]].addr) == SockAddrKey(a)
  }

  /** Registering an address makes it findable, unless a client with another address has its key: then
      that other client's context is returned, and the newcomer stays unknown. */
  lemma RegisterFindsIff<R>(g: Reg<R>, a: Addr, now: int, r: R)
    requires Consistent(g) && g.counter < ID_SPACE && r !in g.ctx
    ensures var (g', c) := Register(g, a, now, r);
            var collides := Collides(g, a);
            && c in g'.ctx
            && (g'.ctx[c].addr == a <==> !collides)
            && (FindByAddr(g', a) == Some(c) <==> !collides)
            && (collides ==> FindByAddr(g', a).None?)
            && FindById(g', g'.ctx[c].sessionId) == Some(c)
  {
    hide SockAddrKey;
    var key := SockAddrKey(a);
    if key in g.addrs {
      var known := g.addrs[key];
      var id := g.ctx[known].sessionId;
      assert id in g.ids && g.ids[id] == known;
      forall other | other in g.ids && SockAddrKey(g.ctx[g.ids[other]].addr) == key
        ensures other == id
      {
        SameKeySameId(g, other, id);
      }
    }
  }

  function HighHalf(x: bv32): bv32 {
    x & 0xFFFF_0000
  }

  lemma XorAssoc(x: bv32, y: bv32, z: bv32)
    ensures Xor(Xor(x, y), z) == Xor(x, Xor(y, z))
  {
  }

  lemma XorSwap(x: bv32, y: bv32)
    ensures Xor(x, y) == Xor(y, x)
  {
  }

  lemma XorUndo(x: bv32, p: bv32)
    ensures Xor(p, Xor(p, x)) == x
  {
  }

  lemma XorMoves(x: bv32, y: bv32, p: bv32, q: bv32)
    requires Xor(x, p) == Xor(y, q)
    ensures Xor(x, y) == Xor(p, q)
  {
    hide Xor;
    calc {
      Xor(x, y);
      { XorUndo(x, p); XorSwap(p, x); }
      Xor(Xor(p, Xor(y, q)), y);
      { XorAssoc(p, Xor(y, q), y); XorSwap(Xor(y, q), y); }
      Xor(p, Xor(y, Xor(y, q)));
      { XorUndo(q, y); }
      Xor(p, q);
    }
  }

  lemma XorCancels(x: bv32, p: bv32, q: bv32)
    ensures Xor(x, p) == Xor(x, q) <==> p == q
    ensures Xor(p, x) == Xor(q, x) <==> p == q
  {
  }

  lemma XorKeepsHighHalf(x: bv32, p: bv16)
    ensures HighHalf(Xor(x, Widen(p))) == HighHalf(x)
  {
  }

  lemma WidenInjective(p: bv16, q: bv16)
    ensures Widen(p) == Widen(q) ==> p == q
  {
  }

  /** When two addresses have the same key: the difference of the ports makes up for that of the ips. */
  lemma KeysCollideIff(a: Addr, b: Addr)
    ensures SockAddrKey(a) == SockAddrKey(b) <==> Xor(a.ip, b.ip) == Xor(Widen(a.port), Widen(b.port))
  {
    hide Xor, Widen;
    var x, y, p, q := a.ip, b.ip, Widen(a.port), Widen(b.port);
    if Xor(x, p) == Xor(y, q) { XorMoves(x, y, p, q); }
    if Xor(x, y) == Xor(p, q) { XorMoves(x, p, y, q); }
  }

  /** So two clients collide only if both ip and port differ, the ips only within their low 16 bits. */
  lemma KeyCollision(a: Addr, b: Addr)
    requires SockAddrKey(a) == SockAddrKey(b) && a != b
    ensures a.ip != b.ip && a.port != b.port && HighHalf(a.ip) == HighHalf(b.ip)
  {
    hide Xor, Widen, HighHalf;
    WidenInjective(a.port, b.port);
    XorCancels(a.ip, Widen(a.port), Widen(b.port));
    XorCancels(Widen(a.port), a.ip, b.ip);
    XorKeepsHighHalf(a.ip, a.port);
    XorKeepsHighHalf(b.ip, b.port);
  }

  /** Such clients exist: 10.0.0.1 on port 50000 and 11.0.0.1 on port 49744, the fields in network order.
      When both say hello, the second is given the context of the first and stays unknown. */
  lemma CollisionExists<R>(now: int, later: int, r1: R, r2: R)
    requires r1 != r2
    ensures var a, b := Addr(0x0100_000A, 0x50C3), Addr(0x0100_000B, 0x50C2);
            && a != b && SockAddrKey(a) == SockAddrKey(b)
            && var g := Register(Empty<R>(), a, now, r1).0;
               Consistent(g) && Register(g, b, later, r2).1 == r1
               && FindByAddr(Register(g, b, later, r2).0, b).None?
  {
    var a, b := Addr(0x0100_000A, 0x50C3), Addr(0x0100_000B, 0x50C2);
    assert SockAddrKey(a) == SockAddrKey(b);
    hide SockAddrKey;
    var g := Register(Empty<R>(), a, now, r1).0;
    RegisterKeeps(Empty<R>(), a, now, r1);
    assert g.ids == map[1 := r1] && g.ctx == map[r1 := Context(1, a, 0, now, [])];
    assert Collides(g, b) by { assert 1 in g.ids; }
    RegisterFindsIff(g, b, later, r2);
  }
}
