/** `CopyOnWriteBuffer` handles over shared, reference-counted payloads
    (rtc_base/copy_on_write_buffer.h and .cc, api/scoped_refptr.h,
    rtc_base/ref_counter.h). */
module CopyOnWrite {

  import opened Basics
  import Buffer

  /** `RefCountedObject<Buffer>`; `frees` counts how often its memory was released,
      `holders` which handles point to it. */
  class Payload {
    var refCount: int
    ghost var frees: nat
    var bytes: seq<byte>
    var capacity: nat
    ghost var holders: set<CopyOnWriteBuffer>

    /** The count is the number of holders, and the payload is freed exactly when
        it has none any more. */
    ghost predicate Counted()
      reads this
    {
      && frees == (if holders == {} then 1 else 0)
      && (holders != {} ==> refCount == |holders| && |bytes| <= capacity && capacity > 0)
    }

    /** New, and not held yet. */
    ghost predicate Unheld()
      reads this
    {
      holders == {} && refCount == 0 && frees == 0 && |bytes| <= capacity && capacity > 0
    }

    constructor (bytes: seq<byte>, capacity: nat)
      requires |bytes| > 0 || capacity > 0
      ensures Unheld() && this.bytes == bytes && this.capacity == Max(|bytes|, capacity)
    {
      refCount, frees, holders := 0, 0, {};
      this.bytes, this.capacity := bytes, Max(|bytes|, capacity);
    }

    method AddRef()
      modifies `refCount
      ensures refCount == old(refCount) + 1
    {
      refCount := refCount + 1;
    }

    /** Frees the payload when the last reference is dropped. */
    method Release()
      requires frees == 0 && refCount > 0
      modifies `refCount, `frees
      ensures refCount == old(refCount) - 1 && frees == (if refCount == 0 then 1 else 0)
    {
      refCount := refCount - 1;
      if refCount == 0 {
        frees := frees + 1;
      }
    }

    ghost method PassOn(x: CopyOnWriteBuffer, y: CopyOnWriteBuffer)
      requires Counted() && x in holders && y !in holders
      modifies `holders
      ensures Counted() && holders == old(holders) - {x} + {y}
    {
      assert |holders - {x} + {y}| == |holders|;
      holders := holders - {x} + {y};
    }

    predicate HasOneRef()
      reads this
    {
      refCount == 1
    }
  }

  lemma OnlyHolder(p: Payload, h: CopyOnWriteBuffer)
    requires p.Counted() && h in p.holders && p.HasOneRef()
    ensures p.holders == {h}
  {
    assert |p.holders - {h}| == 0;
  }

  lemma CountOfOne(p: Payload, h: CopyOnWriteBuffer)
    requires p.Counted() && h in p.holders
    ensures p.HasOneRef() <==> p.holders == {h}
  {
    if p.HasOneRef() {
      OnlyHolder(p, h);
    }
  }

  /** Every handle in being, and every payload there has ever been. */
  class Heap {
    ghost var handles: set<CopyOnWriteBuffer>
    ghost var payloads: set<Payload>

    constructor ()
      ensures Valid() && handles == {} && payloads == {}
    {
      handles, payloads := {}, {};
    }

    /** In order, but for `x`, which just the payloads in `held` count as a holder. */
    ghost predicate ValidBut(x: CopyOnWriteBuffer?, held: set<Payload?>)
      reads this, handles, payloads
    {
      && (forall h :: h in handles && h != x && h.ptr != null ==> h.ptr in payloads && h in h.ptr.holders)
      && (forall p :: p in payloads ==> p.Counted())
      && (forall p, h :: p in payloads && h in p.holders ==> h in handles && if h == x then p in held else h.ptr == p)
      && (forall p: Payload :: p in held ==> p in payloads && x in p.holders)
    }

    ghost predicate Valid()
      reads this, handles, payloads
    {
      ValidBut(null, {})
    }

    /** The other handles stand for what they stood for before. */
    twostate predicate OthersKept(x: CopyOnWriteBuffer)
      reads *
    {
      forall h :: h in old(handles) && h != x ==>
        h in handles && h.ptr == old(h.ptr) && h.View() == old(h.View()) && h.Capacity() == old(h.Capacity())
    }
  }

  ghost function PayloadSet(p: Payload?): set<Payload?> {
    if p == null then {} else {p}
  }

  lemma OpenAt(w: Heap, x: CopyOnWriteBuffer)
    requires w.Valid() && x in w.handles
    ensures w.ValidBut(x, PayloadSet(x.ptr))
  {
  }

  lemma CloseAt(w: Heap, x: CopyOnWriteBuffer)
    requires x in w.handles && w.ValidBut(x, PayloadSet(x.ptr))
    ensures w.Valid()
  {
  }

  ghost method PassHoldersOn(p: Payload?, q: Payload?, x: CopyOnWriteBuffer, y: CopyOnWriteBuffer)
    requires p != q
    requires p != null ==> p.Counted() && x in p.holders && y !in p.holders
    requires q != null ==> q.Counted() && y in q.holders && x !in q.holders
    modifies p, q
    ensures p != null ==> p.Counted() && p.holders == old(p.holders) - {x} + {y}
    ensures q != null ==> q.Counted() && q.holders == old(q.holders) - {y} + {x}
    ensures p != null ==> p.bytes == old(p.bytes) && p.capacity == old(p.capacity)
    ensures q != null ==> q.bytes == old(q.bytes) && q.capacity == old(q.capacity)
  {
    if p != null {
      p.PassOn(x, y);
    }
    if q != null {
      q.PassOn(y, x);
    }
  }

  /** Bytes cut off at `size`, or continued with what `fill` has there. */
  function Resized(bytes: seq<byte>, size: nat, fill: seq<byte>): (r: seq<byte>)
    requires |fill| >= size
    ensures |r| == size && forall i :: 0 <= i < Min(size, |bytes|) ==> r[i] == bytes[i]
  {
    var kept := Min(size, |bytes|);
    bytes[..kept] + fill[kept..size]
  }

  class CopyOnWriteBuffer {
    var ptr: Payload?

    /** The byte sequence that the handle stands for. */
    ghost function View(): seq<byte>
      reads this, ptr
    {
      if ptr == null then [] else ptr.bytes
    }

    ghost function Capacity(): nat
      reads this, ptr
    {
      if ptr == null then 0 else ptr.capacity
    }

    /** Takes a reference to `p` for this handle. */
    method Take(p: Payload, ghost w: Heap, ghost held: set<Payload?>)
      requires w.ValidBut(this, held) && this in w.handles && null !in held
      requires if p in w.payloads then p.frees == 0 && p !in held else p.Unheld()
      modifies w`payloads, p`refCount, p`holders
      ensures w.ValidBut(this, held + {p}) && w.payloads == old(w.payloads) + {p}
      ensures p.holders == old(p.holders) + {this}
    {
      p.AddRef();
      assert |p.holders + {this}| == |p.holders| + 1;
      p.holders := p.holders + {this};
      w.payloads := w.payloads + {p};
      assert p.Counted();
    }

    /** Gives the reference to `p` up. */
    method Drop(p: Payload, ghost w: Heap, ghost held: set<Payload?>)
      requires w.ValidBut(this, held) && this in w.handles && p in held && null !in held
      modifies p`refCount, p`frees, p`holders
      ensures w.ValidBut(this, held - {p})
      ensures p.holders == old(p.holders) - {this}
      ensures p.frees == (if old(p.holders) == {this} then 1 else 0)
    {
      p.Release();
      assert |p.holders - {this}| == |p.holders| - 1;
      p.holders := p.holders - {this};
      assert p.Counted();
    }

    /** `scoped_refptr::operator=(T*)` for a pointer not held already. */
    method Reset(p: Payload?, ghost w: Heap)
      requires w.Valid() && this in w.handles && (p != ptr || p == null)
      requires p != null ==> if p in w.payloads then p.frees == 0 else p.Unheld()
      modifies w`payloads, `ptr, ptr, p
      ensures w.Valid()
      ensures ptr == p && w.payloads == old(w.payloads) + (if p == null then {} else {p})
      ensures p != null ==> p.holders == old(p.holders) + {this}
      ensures p != null ==> p.bytes == old(p.bytes) && p.capacity == old(p.capacity)
      ensures old(ptr) != null ==> old(ptr).bytes == old(ptr.bytes) && old(ptr).capacity == old(ptr.capacity)
      ensures old(ptr) != null ==> old(ptr).holders == old(ptr.holders) - {this}
    {
      OpenAt(w, this);
      if p != null {
        Take(p, w, PayloadSet(ptr));
      }
      assert w.ValidBut(this, PayloadSet(ptr) + PayloadSet(p));
      DropOwn(p, w);
      Point(p, w);
    }

    /** Gives the reference of this handle up, when it has taken one to `p`. */
    method DropOwn(ghost p: Payload?, ghost w: Heap)
      requires this in w.handles && (p != ptr || p == null)
      requires w.ValidBut(this, PayloadSet(ptr) + PayloadSet(p))
      modifies ptr
      ensures w.ValidBut(this, PayloadSet(p))
      ensures ptr != null ==> ptr.holders == old(ptr.holders) - {this}
      ensures ptr != null ==> ptr.bytes == old(ptr.bytes) && ptr.capacity == old(ptr.capacity)
    {
      if ptr != null {
        Drop(ptr, w, PayloadSet(ptr) + PayloadSet(p));
      }
      assert PayloadSet(ptr) + PayloadSet(p) - PayloadSet(ptr) == PayloadSet(p);
    }

    method Point(p: Payload?, ghost w: Heap)
      requires this in w.handles && w.ValidBut(this, PayloadSet(p))
      modifies `ptr
      ensures w.Valid() && ptr == p
    {
      ptr := p;
      assert w.ValidBut(this, PayloadSet(p));
      CloseAt(w, this);
    }

    // ---------- Construction and destruction ----------

    constructor (ghost w: Heap)
      requires w.Valid()
      modifies w`handles
      ensures w.Valid() && w.handles == old(w.handles) + {this} && ptr == null
      ensures View() == []
    {
      ptr := null;
      new;
      w.handles := w.handles + {this};
    }

    constructor Copy(buf: CopyOnWriteBuffer, ghost w: Heap)
      requires w.Valid() && buf in w.handles
      modifies w, buf.ptr
      ensures w.Valid() && w.handles == old(w.handles) + {this} && w.payloads == old(w.payloads)
      ensures View() == old(buf.View()) && Capacity() == old(buf.Capacity())
      ensures forall h :: h in old(w.handles) ==> h.View() == old(h.View()) && h.Capacity() == old(h.Capacity())
    {
      ptr := null;
      new;
      w.handles := w.handles + {this};
      Reset(buf.ptr, w);
    }

    /** `scoped_refptr(scoped_refptr&&)`: takes the pointer over, count and all. */
    constructor Move(buf: CopyOnWriteBuffer, ghost w: Heap)
      requires w.Valid() && buf in w.handles
      modifies w`handles, buf, buf.ptr
      ensures w.Valid() && w.handles == old(w.handles) + {this} && w.payloads == old(w.payloads)
      ensures View() == old(buf.View()) && Capacity() == old(buf.Capacity()) && buf.ptr == null
      ensures ptr == old(buf.ptr)
      ensures forall h :: h in old(w.handles) && h != buf ==>
                h.ptr == old(h.ptr) && h.View() == old(h.View()) && h.Capacity() == old(h.Capacity())
    {
      ptr := null;
      new;
      w.handles := w.handles + {this};
      Swap(buf, w);
    }

    method Swap(buf: CopyOnWriteBuffer, ghost w: Heap)
      requires w.Valid() && this in w.handles && buf in w.handles
      modifies `ptr, buf`ptr, ptr, buf.ptr
      ensures w.Valid()
      ensures ptr == old(buf.ptr) && buf.ptr == old(ptr)
      ensures ptr != null ==> ptr.bytes == old(buf.ptr.bytes) && ptr.capacity == old(buf.ptr.capacity)
      ensures buf.ptr != null ==> buf.ptr.bytes == old(ptr.bytes) && buf.ptr.capacity == old(ptr.capacity)
      ensures forall h :: h in w.handles && h != this && h != buf ==>
                h.View() == old(h.View()) && h.Capacity() == old(h.Capacity())
    {
      if ptr != buf.ptr {
        SwapDistinct(buf, w);
      }
    }

    method SwapDistinct(buf: CopyOnWriteBuffer, ghost w: Heap)
      requires w.Valid() && this in w.handles && buf in w.handles && ptr != buf.ptr
      modifies `ptr, buf`ptr, ptr, buf.ptr
      ensures w.Valid()
      ensures ptr == old(buf.ptr) && buf.ptr == old(ptr)
      ensures ptr != null ==> ptr.bytes == old(buf.ptr.bytes) && ptr.capacity == old(buf.ptr.capacity)
      ensures buf.ptr != null ==> buf.ptr.bytes == old(ptr.bytes) && buf.ptr.capacity == old(ptr.capacity)
    {
      ghost var p, q := ptr, buf.ptr;
      Exchange(buf);
      forall h | h in w.handles && h.ptr != null ensures h.ptr in w.payloads && h in h.ptr.holders {
        assert h.ptr == if h == this then q else if h == buf then p else old(h.ptr);
      }
      forall r | r in w.payloads
        ensures r.Counted() && forall h :: h in r.holders ==> h in w.handles && h.ptr == r
      {
        assert old(r.Counted()) && forall h :: h in old(r.holders) ==> h in w.handles && old(h.ptr) == r;
        assert r.holders == if r == p then old(r.holders) - {this} + {buf}
                            else if r == q then old(r.holders) - {buf} + {this} else old(r.holders);
      }
    }

    /** The pointers alone, with the holders of what they point to. */
    method Exchange(buf: CopyOnWriteBuffer)
      requires this != buf && ptr != buf.ptr
      requires ptr != null ==> ptr.Counted() && this in ptr.holders && buf !in ptr.holders
      requires buf.ptr != null ==> buf.ptr.Counted() && buf in buf.ptr.holders && this !in buf.ptr.holders
      modifies `ptr, buf`ptr, ptr, buf.ptr
      ensures ptr == old(buf.ptr) && buf.ptr == old(ptr)
      ensures ptr != null ==> ptr.Counted() && ptr.holders == old(buf.ptr.holders) - {buf} + {this}
      ensures buf.ptr != null ==> buf.ptr.Counted() && buf.ptr.holders == old(ptr.holders) - {this} + {buf}
      ensures ptr != null ==> ptr.bytes == old(buf.ptr.bytes) && ptr.capacity == old(buf.ptr.capacity)
      ensures buf.ptr != null ==> buf.ptr.bytes == old(ptr.bytes) && buf.ptr.capacity == old(ptr.capacity)
    {
      PassHoldersOn(ptr, buf.ptr, this, buf);
      ptr, buf.ptr := buf.ptr, ptr;
    }

    method Destroy(ghost w: Heap)
      requires w.Valid() && this in w.handles
      modifies w, this, ptr
      ensures w.Valid() && w.handles == old(w.handles) - {this} && w.payloads == old(w.payloads)
      ensures w.OthersKept(this)
      ensures old(ptr) != null ==> old(ptr).frees == (if old(ptr.refCount) == 1 then 1 else 0)
    {
      if ptr != null {
        CountOfOne(ptr, this);
      }
      Reset(null, w);
      w.handles := w.handles - {this};
    }

    /** `operator=(const CopyOnWriteBuffer&)`, and `SetData` from a buffer. */
    method AssignCopy(buf: CopyOnWriteBuffer, ghost w: Heap)
      requires w.Valid() && this in w.handles && buf in w.handles
      modifies w`payloads, this, ptr, buf.ptr
      ensures w.Valid() && View() == old(buf.View()) && Capacity() == old(buf.Capacity())
      ensures w.OthersKept(this) && w.payloads == old(w.payloads)
    {
      if buf == this {
        return;
      }
      if buf.ptr == ptr {
        ResetToSame(w);
      } else {
        ResetToOther(buf, w);
      }
    }

    method ResetToOther(buf: CopyOnWriteBuffer, ghost w: Heap)
      requires w.Valid() && this in w.handles && buf in w.handles && buf.ptr != ptr
      modifies w`payloads, this, ptr, buf.ptr
      ensures w.Valid() && View() == old(buf.View()) && Capacity() == old(buf.Capacity())
      ensures w.OthersKept(this) && w.payloads == old(w.payloads)
    {
      Reset(buf.ptr, w);
      forall h | h in w.handles && h != this ensures h.View() == old(h.View()) && h.Capacity() == old(h.Capacity()) {
        assert h.ptr == old(h.ptr);
      }
    }

    /** `scoped_refptr::operator=(T*)` for the pointer held already. */
    method ResetToSame(ghost w: Heap)
      requires w.Valid() && this in w.handles
      modifies ptr
      ensures w.Valid() && w.OthersKept(this) && View() == old(View()) && Capacity() == old(Capacity())
    {
      if ptr != null {
        ptr.AddRef();
        ptr.Release();
      }
    }

    /** `operator=(CopyOnWriteBuffer&&)`: a temporary takes the pointer over, is
        swapped with this handle, and drops what this handle held. */
    method AssignMove(buf: CopyOnWriteBuffer, ghost w: Heap)
      requires w.Valid() && this in w.handles && buf in w.handles
      modifies w, this, buf, ptr, buf.ptr
      ensures w.Valid() && w.handles == old(w.handles) && w.payloads == old(w.payloads)
      ensures View() == old(buf.View()) && Capacity() == old(buf.Capacity())
      ensures buf != this ==> buf.View() == []
      ensures forall h :: h in w.handles && h != this && h != buf ==>
                h.View() == old(h.View()) && h.Capacity() == old(h.Capacity())
    {
      var temp := new CopyOnWriteBuffer.Move(buf, w);
      Swap(temp, w);
      temp.Destroy(w);
    }

    // ---------- Contents ----------

    /** Only this handle holds the payload: it can be changed in place. */
    method IsSoleHolder(ghost w: Heap) returns (sole: bool)
      requires w.Valid() && this in w.handles && ptr != null
      ensures sole ==> ptr.holders == {this}
      ensures sole <==> ptr.refCount == 1
    {
      sole := ptr.HasOneRef();
      if sole {
        OnlyHolder(ptr, this);
      }
    }

    /** Replaces the payload by a new one that no other handle holds. */
    method Replace(bytes: seq<byte>, capacity: nat, ghost w: Heap)
      requires w.Valid() && this in w.handles && (|bytes| > 0 || capacity > 0)
      modifies w`payloads, this, ptr
      ensures w.Valid() && w.OthersKept(this) && fresh(w.payloads - old(w.payloads))
      ensures ptr != null && fresh(ptr) && ptr.holders == {this}
      ensures View() == bytes && Capacity() == Max(|bytes|, capacity)
    {
      var p := new Payload(bytes, capacity);
      Reset(p, w);
      assert p.holders == {this};
    }

    /** Writes to the payload in place; nobody else sees it. */
    method Overwrite(bytes: seq<byte>, capacity: nat, ghost w: Heap)
      requires w.Valid() && this in w.handles && ptr != null && ptr.holders == {this}
      requires |bytes| <= capacity && capacity > 0
      modifies ptr`bytes, ptr`capacity
      ensures w.Valid() && w.OthersKept(this)
      ensures View() == bytes && Capacity() == capacity
    {
      ptr.bytes, ptr.capacity := bytes, capacity;
    }

    method CloneDataIfReferenced(newCapacity: nat, ghost w: Heap)
      requires w.Valid() && this in w.handles && ptr != null && newCapacity >= ptr.capacity
      modifies w`payloads, this, ptr
      ensures w.Valid() && w.OthersKept(this) && fresh(w.payloads - old(w.payloads))
      ensures ptr != null && ptr.holders == {this} && (ptr == old(ptr) || fresh(ptr))
      ensures View() == old(View())
      ensures Capacity() == if old(ptr.refCount) == 1 then old(Capacity()) else newCapacity
    {
      var sole := IsSoleHolder(w);
      if sole {
        return;
      }
      assert ptr.Counted();
      Replace(ptr.bytes, newCapacity, w);
    }

    method SetData(data: seq<byte>, ghost w: Heap)
      requires w.Valid() && this in w.handles
      modifies w`payloads, this, ptr
      ensures w.Valid() && w.OthersKept(this) && fresh(w.payloads - old(w.payloads))
      ensures View() == data && Capacity() >= |data|
    {
      if ptr == null {
        if |data| > 0 {
          Replace(data, |data|, w);
        }
        return;
      }
      var sole := IsSoleHolder(w);
      assert ptr.Counted();
      if !sole {
        Replace(data, ptr.capacity, w);
      } else {
        Overwrite(data, Buffer.Grown(ptr.capacity, |data|), w);
      }
    }

    /** A null handle demands a nonempty append, as the source's check does. */
    method AppendData(data: seq<byte>, ghost w: Heap)
      requires w.Valid() && this in w.handles && (ptr != null || |data| > 0)
      modifies w`payloads, this, ptr
      ensures w.Valid() && w.OthersKept(this) && fresh(w.payloads - old(w.payloads))
      ensures View() == old(View()) + data
    {
      if ptr == null {
        Replace(data, |data|, w);
        return;
      }
      CloneDataIfReferenced(Max(ptr.capacity, |ptr.bytes| + |data|), w);
      assert ptr.Counted();
      Overwrite(ptr.bytes + data, Buffer.Grown(ptr.capacity, |ptr.bytes + data|), w);
    }

    /** Appends another handle's bytes, which may be in the same payload. */
    method AppendBuffer(buf: CopyOnWriteBuffer, ghost w: Heap)
      requires w.Valid() && this in w.handles && buf in w.handles && buf != this
      requires ptr != null || (buf.ptr != null && |buf.ptr.bytes| > 0)
      modifies w`payloads, this, ptr
      ensures w.Valid() && w.OthersKept(this) && fresh(w.payloads - old(w.payloads))
      ensures View() == old(View()) + old(buf.View())
    {
      AppendData(if buf.ptr == null then [] else buf.ptr.bytes, w);
    }

    /** `fill` is what the memory past the old contents happens to hold. */
    method SetSize(size: nat, fill: seq<byte>, ghost w: Heap)
      requires w.Valid() && this in w.handles && |fill| >= size
      modifies w`payloads, this, ptr
      ensures w.Valid() && w.OthersKept(this) && fresh(w.payloads - old(w.payloads))
      ensures View() == Resized(old(View()), size, fill) && Capacity() >= old(Capacity())
    {
      if ptr == null {
        if size > 0 {
          Replace(fill[..size], size, w);
        }
        return;
      }
      var sole := IsSoleHolder(w);
      assert ptr.Counted();
      var kept := ptr.bytes[..Min(|ptr.bytes|, size)];
      if !sole {
        Replace(kept, Max(ptr.capacity, size), w);
      }
      Overwrite(kept + fill[|kept|..size], Buffer.Grown(ptr.capacity, size), w);
    }

    method EnsureCapacity(capacity: nat, ghost w: Heap)
      requires w.Valid() && this in w.handles
      modifies w`payloads, this, ptr
      ensures w.Valid() && w.OthersKept(this) && fresh(w.payloads - old(w.payloads))
      ensures View() == old(View()) && Capacity() == Max(old(Capacity()), capacity)
    {
      if ptr == null {
        if capacity > 0 {
          Replace([], capacity, w);
        }
        return;
      }
      if capacity <= ptr.capacity {
        return;
      }
      CloneDataIfReferenced(Max(ptr.capacity, capacity), w);
      assert ptr.Counted();
      if capacity > ptr.capacity {
        Overwrite(ptr.bytes, capacity, w);
      }
    }

    method Clear(ghost w: Heap)
      requires w.Valid() && this in w.handles
      modifies w`payloads, this, ptr
      ensures w.Valid() && w.OthersKept(this) && fresh(w.payloads - old(w.payloads))
      ensures View() == [] && Capacity() == old(Capacity())
    {
      if ptr == null {
        return;
      }
      var sole := IsSoleHolder(w);
      assert ptr.Counted();
      if sole {
        Overwrite([], ptr.capacity, w);
      } else {
        Replace([], ptr.capacity, w);
      }
    }

    /** `operator[]` on a non-const buffer, assigned to. */
    method Write(index: nat, value: byte, ghost w: Heap)
      requires w.Valid() && this in w.handles && index < |View()|
      modifies w`payloads, this, ptr
      ensures w.Valid() && w.OthersKept(this) && fresh(w.payloads - old(w.payloads))
      ensures View() == old(View())[index := value]
    {
      assert ptr.Counted();
      CloneDataIfReferenced(ptr.capacity, w);
      assert ptr.Counted();
      Overwrite(ptr.bytes[index := value], ptr.capacity, w);
    }

    method Read(index: nat, ghost w: Heap) returns (value: byte)
      requires w.Valid() && this in w.handles && index < |View()|
      ensures value == View()[index]
    {
      value := ptr.bytes[index];
    }

    /** `operator==`: two handles with a payload are equal exactly when their bytes
        are; a handle without one is equal only to another without one. */
    method Equals(buf: CopyOnWriteBuffer) returns (equal: bool)
      ensures equal <==> View() == buf.View() && (ptr == null <==> buf.ptr == null)
    {
      equal := ptr == buf.ptr || (ptr != null && buf.ptr != null && ptr.bytes == buf.ptr.bytes);
    }
  }
}
