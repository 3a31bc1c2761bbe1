/** The page arithmetic of `StompAllocator`, and its reservations over a history of calls. */
module StompAllocator {

  const PAGE_SIZE: int := 0x1000
  const MAX_SIZE: int := 0x7FFF_FFFF - (PAGE_SIZE - 1)  // beyond it `size + PAGE_SIZE - 1` leaves int32

  function PageCount(size: int): int
    requires 1 <= size <= MAX_SIZE
  {
    (size + PAGE_SIZE - 1) / PAGE_SIZE
  }

  function DataAddress(base: int, size: int): int
    requires 1 <= size <= MAX_SIZE
  {
    base + (PageCount(size) * PAGE_SIZE - size)
  }

  function BaseOf(address: int): int {
    address - address % PAGE_SIZE
  }

  /** The block ends where its pages end, so the first byte past it is on a page of its own; it starts
      on its first page, from which `Release` finds the reservation; and no page is wasted. */
  lemma AllocRelease(base: int, size: int)
    requires 1 <= size <= MAX_SIZE && 0 < base && base % PAGE_SIZE == 0
    ensures PAGE_SIZE == 4096 && MAX_SIZE == 0x8000_0000 - 4096
    ensures DataAddress(base, size) + size == base + PageCount(size) * PAGE_SIZE
    ensures base <= DataAddress(base, size) < base + PAGE_SIZE
    ensures BaseOf(DataAddress(base, size)) == base
    ensures (PageCount(size) - 1) * PAGE_SIZE < size <= PageCount(size) * PAGE_SIZE
  {
    var offset := PageCount(size) * PAGE_SIZE - size;
    assert 0 <= offset < PAGE_SIZE;
    assert (base + offset) % PAGE_SIZE == offset;
  }

  /** Reservations are whole aligned page ranges that do not overlap. */
  ghost predicate Apart(reserved: map<int, int>) {
    && (forall b :: b in reserved ==> 0 < b && b % PAGE_SIZE == 0 && reserved[b] > 0)
    && (forall b, c :: b in reserved && c in reserved && b < c ==> b + reserved[b] <= c)
  }

  /** A block stands where `Alloc` puts it in its reservation. */
  ghost predicate Placed(reserved: map<int, int>, d: int, size: int) {
    && 1 <= size <= MAX_SIZE && BaseOf(d) in reserved
    && d == DataAddress(BaseOf(d), size) && reserved[BaseOf(d)] == PageCount(size) * PAGE_SIZE
  }

  /** Blocks and reservations correspond one to one. */
  ghost predicate Matched(reserved: map<int, int>, blocks: map<int, int>) {
    && (forall d :: d in blocks ==> Placed(reserved, d, blocks[d]))
    && (forall d, e :: d in blocks && e in blocks && BaseOf(d) == BaseOf(e) ==> d == e)
    && (forall b :: b in reserved ==> exists d :: d in blocks && BaseOf(d) == b)
  }

  lemma MatchedAdd(reserved: map<int, int>, blocks: map<int, int>, base: int, data: int, size: int)
    requires 1 <= size <= MAX_SIZE && Matched(reserved, blocks) && base !in reserved && BaseOf(data) == base
    requires Placed(reserved[base := PageCount(size) * PAGE_SIZE], data, size)
    ensures data !in blocks && Matched(reserved[base := PageCount(size) * PAGE_SIZE], blocks[data := size])
  {
    hide BaseOf, DataAddress, PageCount;
    var r', b' := reserved[base := PageCount(size) * PAGE_SIZE], blocks[data := size];
    assert data !in blocks;
    forall b | b in r'
      ensures exists d :: d in b' && BaseOf(d) == b
    {
      if b == base {
        assert data in b';
      } else {
        var d :| d in blocks && BaseOf(d) == b;
        assert d in b';
      }
    }
  }

  lemma MatchedRemove(reserved: map<int, int>, blocks: map<int, int>, data: int)
    requires Matched(reserved, blocks) && data in blocks
    ensures Matched(reserved - {BaseOf(data)}, blocks - {data})
  {
    hide BaseOf, DataAddress, PageCount;
    var r', b' := reserved - {BaseOf(data)}, blocks - {data};
    forall b | b in r'
      ensures exists d :: d in b' && BaseOf(d) == b
    {
      var d :| d in blocks && BaseOf(d) == b;
      assert d in b';
    }
  }

  class Allocator {
    var reserved: map<int, int>    // base address to byte count, as VirtualAlloc keeps it
    ghost var blocks: map<int, int>  // live data address to requested size

    ghost predicate Valid()
      reads this
    {
      Apart(reserved) && Matched(reserved, blocks)
    }

    /** Live blocks do not overlap. */
    lemma BlocksDisjoint(d: int, e: int)
      requires Valid() && d in blocks && e in blocks && d != e
      ensures d + blocks[d] <= e || e + blocks[e] <= d
    {
      assert Placed(reserved, d, blocks[d]) && Placed(reserved, e, blocks[e]);
      AllocRelease(BaseOf(d), blocks[d]);
      AllocRelease(BaseOf(e), blocks[e]);
      hide BaseOf, DataAddress, PageCount;
      assert BaseOf(d) < BaseOf(e) || BaseOf(e) < BaseOf(d);
    }

    constructor ()
      ensures Valid() && reserved == map[] && blocks == map[]
    {
      reserved, blocks := map[], map[];
    }

    /** `base` is what `VirtualAlloc` answers: aligned and clear of every reservation. */
    method Alloc(size: int, base: int) returns (data: int)
      requires Valid() && 1 <= size <= MAX_SIZE && 0 < base && base % PAGE_SIZE == 0
      requires forall b :: b in reserved ==> b + reserved[b] <= base || base + PageCount(size) * PAGE_SIZE <= b
      modifies this
      ensures data + size == base + PageCount(size) * PAGE_SIZE && BaseOf(data) == base
      ensures Valid() && data !in old(blocks) && blocks == old(blocks)[data := size]
      ensures reserved == old(reserved)[base := PageCount(size) * PAGE_SIZE]
    {
      hide BaseOf, PageCount, Matched;
      AllocRelease(base, size);
      var pageCount := PageCount(size);
      data := base + (pageCount * PAGE_SIZE - size);
      assert data == DataAddress(base, size);
      hide DataAddress;
      assert base !in reserved by { assert pageCount * PAGE_SIZE > 0; }
      MatchedAdd(reserved, blocks, base, data, size);
      reserved := reserved[base := pageCount * PAGE_SIZE];
      blocks := blocks[data := size];
    }

    /** Frees exactly the reservation of this block. */
    method Release(data: int)
      requires Valid() && data in blocks
      modifies this
      ensures Valid() && blocks == old(blocks) - {data}
      ensures reserved == old(reserved) - {BaseOf(data)} && BaseOf(data) in old(reserved)
    {
      hide PageCount, DataAddress;
      assert Placed(reserved, data, blocks[data]);
      MatchedRemove(reserved, blocks, data);
      hide Matched;
      var base := data - data % PAGE_SIZE;
      reserved := reserved - {base};
      blocks := blocks - {data};
    }
  }
}
