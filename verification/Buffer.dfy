/** `BufferT` (rtc_base/buffer.h): a growable block of elements, with the promise
    of `ZeroOnFree` that no value a caller wrote survives outside the contents,
    and a growth policy that bounds the copying. */
module Buffer {

  import opened Basics

  function Repeat<T>(n: nat, x: T): (r: seq<T>)
    ensures |r| == n
  {
    seq(n, i => x)
  }

  ghost predicate AllZero(b: seq<byte>) {
    forall i :: 0 <= i < |b| ==> b[i] == 0
  }

  /** History of a cell since its block was allocated: never touched, holding a
      value that a caller wrote, or zeroed. */
  datatype Cell = Junk | Written | Zeroed

  // ---------- The cost of growing ----------

  /** The capacity of a buffer that has to hold `size` elements, with headroom. */
  function Grown(capacity: nat, size: nat): nat {
    if size <= capacity then capacity else Max(size, capacity + capacity / 2)
  }

  /** What growing has cost: elements copied by reallocations so far, and the
      largest size ever asked for. */
  datatype Account = Account(size: nat, capacity: nat, copied: nat, largest: nat) {

    /** Copying has cost at most three elements per element of capacity, and the
        capacity is at most half again the largest size asked for. */
    ghost predicate Amortized() {
      size <= capacity && copied <= 3 * capacity && 2 * capacity <= 3 * largest
    }

    /** Room for `wanted` elements is made, and the size becomes `newSize`. */
    ghost function Grow(wanted: nat, newSize: nat): Account {
      if wanted <= capacity then
        Account(newSize, capacity, copied, Max(largest, wanted))
      else
        Account(newSize, Grown(capacity, wanted), copied + size, Max(largest, wanted))
    }

    ghost function Apply(request: Request): Account {
      match request
      case Append(room, written) => Grow(size + room, size + written)
      case Set(room, written) => this.(size := 0).Grow(room, written)
      case Resize(newSize) => Grow(newSize, newSize)
    }

    ghost function ApplyAll(requests: seq<Request>): Account
      decreases |requests|
    {
      if requests == [] then this
      else ApplyAll(requests[..|requests| - 1]).Apply(requests[|requests| - 1])
    }
  }

  /** An append or a replacement of the contents has room for `room` elements and
      writes `written` of them; `Resize` is `SetSize`. */
  datatype Request =
    | Append(room: nat, written: nat)
    | Set(room: nat, written: nat)
    | Resize(newSize: nat)
  {
    ghost predicate Fits() {
      !Resize? ==> written <= room
    }
  }

  lemma RequestKeepsAmortized(account: Account, request: Request)
    requires account.Amortized() && request.Fits()
    ensures account.Apply(request).Amortized()
  {
    var before := if request.Set? then account.(size := 0) else account;
    assert before.Amortized();
  }

  /** Over every run of requests from an empty buffer. */
  lemma {:induction false} RunIsAmortized(requests: seq<Request>)
    requires forall i :: 0 <= i < |requests| ==> requests[i].Fits()
    ensures Account(0, 0, 0, 0).ApplyAll(requests).Amortized()
  {
    if requests != [] {
      var last := |requests| - 1;
      RunIsAmortized(requests[..last]);
      RequestKeepsAmortized(Account(0, 0, 0, 0).ApplyAll(requests[..last]), requests[last]);
    }
  }

  class BufferT {
    const zeroOnFree: bool
    var size: nat
    var capacity: nat
    var data: array?<byte>

    ghost var cells: seq<Cell>
    /** Whether every block this buffer released was fully zeroed when it was. */
    ghost var releasedZeroed: bool
    /** Elements copied by reallocations, and the largest size ever asked for. */
    ghost var copied: nat
    ghost var largest: nat

    ghost predicate Valid()
      reads this, data
    {
      && (data == null ==> capacity == 0)
      && (data != null ==> data.Length == capacity > 0)
      && size <= capacity == |cells|
      && (forall i :: 0 <= i < capacity && cells[i] == Zeroed ==> data[i] == 0)
      && (zeroOnFree ==> releasedZeroed)
    }

    /** The promise of `ZeroOnFree`: outside the contents no written value. */
    ghost predicate Clean()
      reads this
      requires size <= |cells|
    {
      zeroOnFree ==> forall i :: size <= i < |cells| ==> cells[i] != Written
    }

    ghost function Cost(): Account
      reads this
    {
      Account(size, capacity, copied, largest)
    }

    ghost function View(): seq<byte>
      requires Valid()
      reads this, data
    {
      if data == null then [] else data[..size]
    }

    constructor (size: nat, capacity: nat, zeroOnFree: bool)
      ensures Valid() && Clean() && |View()| == size && this.capacity == Max(size, capacity)
      ensures this.zeroOnFree == zeroOnFree && (data != null ==> fresh(data))
      ensures Cost() == Account(size, Max(size, capacity), 0, size)
    {
      this.zeroOnFree := zeroOnFree;
      var c := Max(size, capacity);
      this.size, this.capacity := size, c;
      if c > 0 {
        data := new byte[c];
      } else {
        data := null;
      }
      cells, releasedZeroed := Repeat(c, Junk), true;
      copied, largest := 0, size;
    }

    constructor FromData(bytes: seq<byte>, capacity: nat, zeroOnFree: bool)
      ensures Valid() && Clean() && View() == bytes && this.capacity == Max(|bytes|, capacity)
      ensures this.zeroOnFree == zeroOnFree && (data != null ==> fresh(data))
    {
      this.zeroOnFree := zeroOnFree;
      var c := Max(|bytes|, capacity);
      this.size, this.capacity := |bytes|, c;
      if c > 0 {
        data := new byte[c];
      } else {
        data := null;
      }
      cells, releasedZeroed := Repeat(|bytes|, Written) + Repeat(c - |bytes|, Junk), true;
      copied, largest := 0, |bytes|;
      new;
      forall i | 0 <= i < |bytes| {
        data[i] := bytes[i];
      }
    }

    // ---------- Zeroing and releasing ----------

    /** `ExplicitZeroMemory` on the cells from `lo` to `hi`. */
    method ZeroCells(lo: nat, hi: nat)
      requires Valid() && lo <= hi <= capacity
      modifies `cells, data
      ensures Valid()
      ensures cells == old(cells)[..lo] + Repeat(hi - lo, Zeroed) + old(cells)[hi..]
      ensures data != null ==> data[..lo] == old(data[..lo])
      ensures forall i :: lo <= i < hi ==> data[i] == 0
    {
      if data != null {
        forall i | lo <= i < hi {
          data[i] := 0;
        }
      }
      cells := cells[..lo] + Repeat(hi - lo, Zeroed) + cells[hi..];
    }

    method MaybeZeroCompleteBuffer()
      requires Valid()
      modifies `cells, data
      ensures Valid()
      ensures zeroOnFree && data != null ==> AllZero(data[..])
      ensures cells == if zeroOnFree then Repeat(capacity, Zeroed) else old(cells)
    {
      if zeroOnFree && capacity > 0 {
        ZeroCells(0, capacity);
        assert cells == Repeat(capacity, Zeroed);
      }
    }

    /** Zeroes the first `count` cells past the contents. */
    method ZeroTrailingData(count: nat)
      requires Valid() && count <= capacity - size
      modifies `cells, data
      ensures Valid() && View() == old(View())
      ensures cells == old(cells)[..size] + Repeat(count, Zeroed) + old(cells)[size + count..]
    {
      ZeroCells(size, size + count);
    }

    /** Gives a block back to the allocator. */
    ghost method Release(block: array?<byte>)
      modifies `releasedZeroed
      ensures releasedZeroed <==> old(releasedZeroed) && (block != null ==> AllZero(block[..]))
    {
      releasedZeroed := releasedZeroed && (block != null ==> AllZero(block[..]));
    }

    method Destroy()
      requires Valid()
      modifies this, data
      ensures zeroOnFree ==> releasedZeroed
    {
      MaybeZeroCompleteBuffer();
      Release(data);
      data, size, capacity, cells := null, 0, 0, [];
    }

    // ---------- Growing ----------

    method EnsureCapacityWithHeadroom(wanted: nat, extraHeadroom: bool)
      requires Valid()
      modifies this, data
      ensures Valid() && View() == old(View()) && size == old(size) && largest == old(largest)
      ensures data == old(data) || fresh(data)
      ensures wanted <= old(capacity) ==>
                capacity == old(capacity) && data == old(data) && cells == old(cells) && copied == old(copied)
      ensures wanted > old(capacity) ==>
                && capacity == (if extraHeadroom then Grown(old(capacity), wanted) else wanted)
                && copied == old(copied) + size
                && cells == old(cells)[..size] + Repeat(capacity - size, Junk)
    {
      if wanted > capacity {
        Reallocate(if extraHeadroom then Grown(capacity, wanted) else wanted);
      }
    }

    method Reallocate(newCapacity: nat)
      requires Valid() && newCapacity > capacity
      modifies this, data
      ensures Valid() && View() == old(View()) && size == old(size) && largest == old(largest)
      ensures capacity == newCapacity && fresh(data) && copied == old(copied) + size
      ensures cells == old(cells)[..size] + Repeat(capacity - size, Junk)
    {
      var newData := new byte[newCapacity];
      ghost var was := cells;
      if data != null {
        forall i | 0 <= i < size {
          newData[i] := data[i];
        }
      }
      assert newData[..size] == View();
      copied := copied + size;
      MaybeZeroCompleteBuffer();
      Release(data);
      data, capacity := newData, newCapacity;
      cells := was[..size] + Repeat(newCapacity - size, Junk);
    }

    method EnsureCapacity(wanted: nat)
      requires Valid() && Clean()
      modifies this, data
      ensures Valid() && Clean() && View() == old(View()) && capacity == Max(old(capacity), wanted)
      ensures data == old(data) || fresh(data)
    {
      EnsureCapacityWithHeadroom(wanted, false);
    }

    /** Makes room for a size of `newSize`, keeping the account of the copying. */
    method MakeRoom(newSize: nat)
      requires Valid()
      modifies this, data
      ensures Valid() && View() == old(View()) && size == old(size)
      ensures data == old(data) || fresh(data)
      ensures newSize <= capacity && Cost() == old(Cost()).Grow(newSize, size)
      ensures cells == if newSize <= old(capacity) then old(cells)
                       else old(cells)[..size] + Repeat(capacity - size, Junk)
    {
      EnsureCapacityWithHeadroom(newSize, true);
      largest := Max(largest, newSize);
    }

    // ---------- Contents ----------

    /** Writes `bytes` into the block from cell `at` on. */
    method WriteCells(at: nat, bytes: seq<byte>)
      requires Valid() && at + |bytes| <= capacity
      modifies `cells, data
      ensures Valid()
      ensures cells == old(cells)[..at] + Repeat(|bytes|, Written) + old(cells)[at + |bytes|..]
      ensures if data == null then bytes == [] else data[..at + |bytes|] == old(data[..at]) + bytes
    {
      ghost var prefix := if data == null then [] else data[..at];
      if data != null {
        forall i | 0 <= i < |bytes| {
          data[at + i] := bytes[i];
        }
        assert data[..at] == prefix;
        assert data[..at + |bytes|] == prefix + bytes;
      }
      cells := cells[..at] + Repeat(|bytes|, Written) + cells[at + |bytes|..];
    }

    /** Appends without regard to what lies past the contents: makes room for
        `room` elements and writes `bytes` into that area. */
    method AppendCells(room: nat, bytes: seq<byte>)
      requires Valid() && |bytes| <= room
      modifies this, data
      ensures Valid() && View() == old(View()) + bytes && size == old(size) + |bytes|
      ensures data == old(data) || fresh(data)
      ensures Cost() == old(Cost()).Apply(Append(room, |bytes|))
      ensures cells[size..] == if old(size) + room <= old(capacity) then old(cells)[size..]
                               else Repeat(capacity - size, Junk)
    {
      MakeRoom(size + room);
      Extend(bytes);
    }

    /** The contents grow into a block that has the room. */
    method Extend(bytes: seq<byte>)
      requires Valid() && size + |bytes| <= capacity
      modifies `size, `cells, data
      ensures Valid() && View() == old(View()) + bytes && size == old(size) + |bytes|
      ensures cells[size..] == old(cells)[size..]
    {
      ghost var was := cells;
      WriteCells(size, bytes);
      size := size + |bytes|;
      assert cells[size..] == was[size..];
    }

    method AppendData(bytes: seq<byte>)
      requires Valid() && Clean()
      modifies this, data
      ensures Valid() && Clean() && View() == old(View()) + bytes
      ensures Cost() == old(Cost()).Apply(Append(|bytes|, |bytes|))
      ensures data == old(data) || fresh(data)
    {
      AppendCells(|bytes|, bytes);
    }

    method SetData(bytes: seq<byte>)
      requires Valid() && Clean()
      modifies this, data
      ensures Valid() && Clean() && View() == bytes
      ensures Cost() == old(Cost()).Apply(Set(|bytes|, |bytes|))
      ensures data == old(data) || fresh(data)
    {
      Replace(|bytes|, bytes);
    }

    /** Both ways to set the contents: empties the buffer, appends, and zeroes what
        is left of the old contents. */
    method Replace(room: nat, bytes: seq<byte>)
      requires Valid() && Clean() && |bytes| <= room
      modifies this, data
      ensures Valid() && Clean() && View() == bytes
      ensures Cost() == old(Cost()).Apply(Set(room, |bytes|))
      ensures data == old(data) || fresh(data)
    {
      var oldSize := size;
      size := 0;
      AppendCells(room, bytes);
      assert View() == bytes;
      forall i | oldSize <= i && size <= i < |cells| ensures zeroOnFree ==> cells[i] != Written {
        assert cells[i] == cells[size..][i - size];
      }
      ZeroOld(oldSize);
    }

    /** Zeroes what is left of contents of `oldSize` elements. */
    method ZeroOld(oldSize: nat)
      requires Valid() && oldSize <= capacity
      requires zeroOnFree ==> forall i :: oldSize <= i && size <= i < |cells| ==> cells[i] != Written
      modifies `cells, data
      ensures Valid() && Clean() && View() == old(View())
    {
      if zeroOnFree && size < oldSize {
        ZeroTrailingData(oldSize - size);
      }
    }

    /** Appends what a setter writes into an area of `maxElements`; it reports no
        more than that, and leaves the area it does not report untouched. */
    method AppendDataWith(maxElements: nat, bytes: seq<byte>)
      requires Valid() && Clean() && |bytes| <= maxElements
      modifies this, data
      ensures Valid() && Clean() && View() == old(View()) + bytes
      ensures Cost() == old(Cost()).Apply(Append(maxElements, |bytes|))
      ensures data == old(data) || fresh(data)
    {
      AppendCells(maxElements, bytes);
    }

    method SetDataWith(maxElements: nat, bytes: seq<byte>)
      requires Valid() && Clean() && |bytes| <= maxElements
      modifies this, data
      ensures Valid() && Clean() && View() == bytes
      ensures Cost() == old(Cost()).Apply(Set(maxElements, |bytes|))
      ensures data == old(data) || fresh(data)
    {
      Replace(maxElements, bytes);
    }

    /** What the buffer held in both sizes stays; elements gained are arbitrary. */
    method SetSize(newSize: nat)
      requires Valid() && Clean()
      modifies this, data
      ensures Valid() && Clean() && Cost() == old(Cost()).Apply(Resize(newSize))
      ensures View()[..Min(newSize, old(size))] == old(View())[..Min(newSize, old(size))]
      ensures data == old(data) || fresh(data)
    {
      var oldSize := size;
      MakeRoom(newSize);
      ghost var view := View();
      size := newSize;
      assert View()[..Min(newSize, oldSize)] == view[..Min(newSize, oldSize)];
      if zeroOnFree && size < oldSize {
        ZeroTrailingData(oldSize - size);
      }
    }

    method Clear()
      requires Valid()
      modifies this, data
      ensures Valid() && Clean() && View() == [] && capacity == old(capacity) && data == old(data)
      ensures Cost() == old(Cost()).(size := 0)
    {
      MaybeZeroCompleteBuffer();
      size := 0;
    }

    /** An assignment through `operator[]`. */
    method Write(index: nat, value: byte)
      requires Valid() && Clean() && index < size
      modifies `cells, data
      ensures Valid() && Clean() && View() == old(View())[index := value]
    {
      data[index] := value;
      cells := cells[index := Written];
    }

    // ---------- Moving ----------

    /** `operator=(BufferT&&)`; a buffer moved to itself ends up empty. */
    method MoveFrom(buf: BufferT)
      requires Valid() && buf.Valid() && buf.Clean() && buf.zeroOnFree == zeroOnFree
      requires this != buf ==> data == null || data != buf.data
      modifies this, buf, data
      ensures Valid() && Clean() && buf.Valid() && buf.Clean()
      ensures this != buf ==> View() == old(buf.View()) && data == old(buf.data) && capacity == old(buf.capacity)
      ensures buf.View() == [] && buf.data == null
    {
      MaybeZeroCompleteBuffer();
      size := buf.size;
      capacity := buf.capacity;
      data, buf.data := buf.data, data;
      cells, buf.cells := buf.cells, cells;
      buf.Release(buf.data);
      buf.data := null;
      // OnMovedFrom
      buf.size, buf.capacity, buf.cells := 0, 0, [];
    }
  }
}
