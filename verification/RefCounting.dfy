/** Intrusive reference counting: `RefCountable` and `TSharedPtr` as objects, in a world that knows all
    pointers, all counted objects and the references held outside of pointers. */
module RefCounting {

  class RefCountable {
    var refCount: int
    var deleted: bool

    /** An object starts with one reference, held by its creator. */
    constructor ()
      ensures refCount == 1 && !deleted
    {
      refCount, deleted := 1, false;
    }

    method AddRef()
      requires !deleted
      modifies this`refCount
      ensures refCount == old(refCount) + 1
    {
      refCount := refCount + 1;
    }

    method ReleaseRef()
      requires !deleted
      modifies this
      ensures refCount == old(refCount) - 1 && deleted == (refCount == 0)
    {
      refCount := refCount - 1;
      if refCount == 0 { deleted := true; }
    }
  }

  /** The pointers that point at an object. */
  ghost function Pointing(slots: set<TSharedPtr>, o: RefCountable): set<TSharedPtr>
    reads slots
  {
    set p | p in slots && p.ptr == o
  }

  /** History: which pointers and objects exist, and how many references to each are held by hand. */
  class World {
    ghost var slots: set<TSharedPtr>
    ghost var objects: set<RefCountable>
    ghost var raw: map<RefCountable, nat>

    ghost predicate Valid()
      reads this, slots, objects
    {
      && raw.Keys == objects
      && (forall p :: p in slots && p.ptr != null ==> p.ptr in objects)
      && (forall o :: o in objects ==>
            && o.refCount == |Pointing(slots, o)| + raw[o]
            && (o.deleted <==> o.refCount == 0))
    }

    constructor ()
      ensures Valid() && slots == {} && objects == {}
    {
      slots, objects, raw := {}, {}, map[];
    }
  }

  /** In a valid world no pointer dangles, and an object is gone exactly when nobody refers to it. */
  lemma NoDangling(w: World, p: TSharedPtr)
    requires w.Valid() && p in w.slots && p.ptr != null
    ensures !p.ptr.deleted && p.ptr.refCount >= 1
  {
    assert p in Pointing(w.slots, p.ptr);
  }

  lemma GoneIffUnreferenced(w: World, o: RefCountable)
    requires w.Valid() && o in w.objects
    ensures o.deleted <==> w.raw[o] == 0 && forall p :: p in w.slots ==> p.ptr != o
  {
    assert Pointing(w.slots, o) == {} <==> forall p :: p in w.slots ==> p.ptr != o by {
      forall p | p in w.slots && p.ptr == o
        ensures p in Pointing(w.slots, o)
      {
      }
    }
  }

  /** History: the pointers to each object. */
  ghost function Table(w: World): map<RefCountable, set<TSharedPtr>>
    reads w, w.slots
  {
    map x | x in w.objects :: Pointing(w.slots, x)
  }

  class TSharedPtr {
    var ptr: RefCountable?

    /** The empty pointer. */
    constructor ()
      ensures ptr == null
    {
      ptr := null;
    }

    /** `Set`: on a pointer that holds nothing. */
    method Set(o: RefCountable?, ghost w: World)
      requires w.Valid() && this in w.slots && ptr == null
      requires o != null ==> o in w.objects && !o.deleted
      modifies this, o
      ensures w.Valid() && ptr == o
    {
      ghost var before := Table(w);
      ptr := o;
      if o != null { o.AddRef(); }
      forall x | x in w.objects
        ensures |Pointing(w.slots, x)| == |before[x]| + if x == o then 1 else 0
      {
        if x == o {
          JoinedTable(w.slots, x, this, before[x]);
        } else {
          assert Pointing(w.slots, x) == before[x];
        }
      }
    }

    /** `Release`: drops what the pointer holds; the last reference deletes the object. */
    method Release(ghost w: World)
      requires w.Valid() && this in w.slots
      modifies this, ptr
      ensures w.Valid() && ptr == null
      ensures old(ptr) != null ==> old(ptr).refCount == old(ptr.refCount) - 1
    {
      if ptr != null {
        NoDangling(w, this);
        ghost var was, before := ptr, Table(w);
        ptr.ReleaseRef();
        ptr := null;
        forall x | x in w.objects
          ensures x.refCount == |Pointing(w.slots, x)| + w.raw[x] && (x.deleted <==> x.refCount == 0)
        {
          if x == was {
            assert this in before[x] && Pointing(w.slots, x) == before[x] - {this};
          } else {
            assert Pointing(w.slots, x) == before[x];
          }
        }
      }
    }

    /** Copy assignment; assigning a pointer to one that holds the same object does nothing. */
    method CopyAssign(other: TSharedPtr, ghost w: World)
      requires w.Valid() && this in w.slots && other in w.slots
      modifies this, ptr, other.ptr
      ensures w.Valid() && ptr == old(other.ptr) && (other != this ==> other.ptr == old(other.ptr))
    {
      if ptr != other.ptr {
        if other.ptr != null { NoDangling(w, other); }
        Release(w);
        if other.ptr != null { NoDangling(w, other); }
        Set(other.ptr, w);
      }
    }

    /** Move assignment. Moving a pointer onto itself drops what it held. */
    method MoveAssign(other: TSharedPtr, ghost w: World)
      requires w.Valid() && this in w.slots && other in w.slots
      modifies this, other, ptr
      ensures w.Valid() && other.ptr == null
      ensures ptr == if other == this then null else old(other.ptr)
    {
      Release(w);
      TakeOver(other, w);
    }

    /** The end of a move: the reference changes hands, no count changes. */
    method TakeOver(other: TSharedPtr, ghost w: World)
      requires w.Valid() && this in w.slots && other in w.slots && ptr == null
      modifies this, other
      ensures w.Valid() && other.ptr == null && ptr == if other == this then null else old(other.ptr)
    {
      ghost var was, before := other.ptr, Table(w);
      ptr := other.ptr;
      other.ptr := null;
      assert forall x :: x in w.objects ==> x.refCount == |before[x]| + w.raw[x];
      forall x | x in w.objects
        ensures |Pointing(w.slots, x)| == |before[x]|
      {
        if x == was {
          MovedTable(w.slots, x, other, this, before[x]);
        } else {
          assert Pointing(w.slots, x) == before[x];
        }
      }
    }
  }

  /** A pointer joins those to an object. */
  lemma JoinedTable(slots: set<TSharedPtr>, x: RefCountable, p: TSharedPtr, before: set<TSharedPtr>)
    requires p in slots && p.ptr == x && p !in before && before <= slots
    requires forall q :: q in slots && q != p ==> (q in before <==> q.ptr == x)
    ensures |Pointing(slots, x)| == |before| + 1
  {
    assert Pointing(slots, x) == before + {p};
  }

  /** After a move the new pointer stands in for the old one. */
  lemma MovedTable(slots: set<TSharedPtr>, x: RefCountable, from: TSharedPtr, to: TSharedPtr, before: set<TSharedPtr>)
    requires to in slots && from in before && before <= slots
    requires from.ptr == null && to.ptr == if from == to then null else x
    requires forall p :: p in slots && p != from && p != to ==> (p in before <==> p.ptr == x)
    requires from != to ==> to !in before
    ensures from != to ==> |Pointing(slots, x)| == |before|
  {
    if from != to {
      Replace(before, from, to);
      assert Pointing(slots, x) == before - {from} + {to};
    }
  }

  lemma Replace<T>(s: set<T>, x: T, y: T)
    requires x in s && y !in s
    ensures |s - {x} + {y}| == |s|
  {
  }

  /** `new T`: the creator holds the first reference. */
  method NewObject(ghost w: World) returns (o: RefCountable)
    requires w.Valid()
    modifies w
    ensures w.Valid() && fresh(o) && w.slots == old(w.slots)
    ensures w.objects == old(w.objects) + {o} && w.raw == old(w.raw)[o := 1]
  {
    o := new RefCountable();
    w.objects := w.objects + {o};
    w.raw := w.raw[o := 1];
    assert Pointing(w.slots, o) == {};
    forall x | x in w.objects && x != o
      ensures Pointing(w.slots, x) == old(Pointing(w.slots, x))
    {
    }
  }

  /** `ReleaseRef` on a reference held by hand. */
  method ReleaseRaw(o: RefCountable, ghost w: World)
    requires w.Valid() && o in w.objects && w.raw[o] > 0
    modifies w`raw, o
    ensures w.Valid() && w.raw == old(w.raw)[o := old(w.raw)[o] - 1]
  {
    o.ReleaseRef();
    w.raw := w.raw[o := w.raw[o] - 1];
    assert forall x :: x in w.objects ==> Pointing(w.slots, x) == old(Pointing(w.slots, x));
  }

  /** A new empty pointer; the other constructors are this one followed by `Set` or `TakeOver`. */
  method NewPointer(ghost w: World) returns (p: TSharedPtr)
    requires w.Valid()
    modifies w`slots
    ensures w.Valid() && fresh(p) && p.ptr == null && w.slots == old(w.slots) + {p}
  {
    p := new TSharedPtr();
    w.slots := w.slots + {p};
    assert forall x :: x in w.objects ==> Pointing(w.slots, x) == old(Pointing(w.slots, x));
  }

  /** The destructor. */
  method Destroy(p: TSharedPtr, ghost w: World)
    requires w.Valid() && p in w.slots
    modifies w`slots, p, p.ptr
    ensures w.Valid() && w.slots == old(w.slots) - {p}
  {
    p.Release(w);
    label released:
    w.slots := w.slots - {p};
    assert forall x :: x in w.objects ==> Pointing(w.slots, x) == old@released(Pointing(w.slots, x));
  }
}
