/** Any number of `CopyOnWriteBuffer` handles over any sequence of operations
    (rtc_base/copy_on_write_buffer.h and .cc): each handle stands for a byte
    sequence of its own, whatever they share. */
module CopyOnWriteRuns {

  import opened Basics
  import opened CopyOnWrite

  /** Handles go by names. */
  type Name = nat

  type Contents = map<Name, seq<byte>>

  type Handles = map<Name, CopyOnWriteBuffer>

  /** `fill` is what fresh memory happens to hold. */
  datatype BufferOp =
    | Make(x: Name)
    | MakeCopy(x: Name, of: Name)
    | MakeByMove(x: Name, of: Name)
    | End(x: Name)
    | AssignFrom(x: Name, of: Name)
    | AssignByMove(x: Name, of: Name)
    | SwapWith(x: Name, of: Name)
    | Put(x: Name, data: seq<byte>)
    | Append(x: Name, data: seq<byte>)
    | AppendFrom(x: Name, of: Name)
    | Resize(x: Name, size: nat, fill: seq<byte>)
    | Reserve(x: Name, capacity: nat)
    | Empty(x: Name)
    | WriteAt(x: Name, index: nat, value: byte)

  /** Names are used for one handle at a time, indices are within the contents,
      and no handle is appended to itself. */
  predicate Sensible(m: Contents, op: BufferOp) {
    match op
    case Make(x) => x !in m
    case MakeCopy(x, of) => x !in m && of in m
    case MakeByMove(x, of) => x !in m && of in m
    case AssignFrom(x, of) => x in m && of in m
    case AssignByMove(x, of) => x in m && of in m
    case SwapWith(x, of) => x in m && of in m
    case AppendFrom(x, of) => x in m && of in m && x != of
    case Resize(x, size, fill) => x in m && size <= |fill|
    case WriteAt(x, index, _) => x in m && index < |m[x]|
    case _ => op.x in m
  }

  /** What an operation means for byte sequences that share nothing. */
  function Meaning(m: Contents, op: BufferOp): Contents {
    if !Sensible(m, op) then m
    else match op
      case Make(x) => m[x := []]
      case MakeCopy(x, of) => m[x := m[of]]
      case MakeByMove(x, of) => m[x := m[of]][of := []]
      case End(x) => m - {x}
      case AssignFrom(x, of) => m[x := m[of]]
      case AssignByMove(x, of) => if x == of then m else m[x := m[of]][of := []]
      case SwapWith(x, of) => m[x := m[of]][of := m[x]]
      case Put(x, data) => m[x := data]
      case Append(x, data) => m[x := m[x] + data]
      case AppendFrom(x, of) => m[x := m[x] + m[of]]
      case Resize(x, size, fill) => m[x := Resized(m[x], size, fill)]
      case Reserve(_, _) => m
      case Empty(x) => m[x := []]
      case WriteAt(x, index, value) => m[x := m[x][index := value]]
  }

  function MeaningOfAll(m: Contents, ops: seq<BufferOp>): Contents
    decreases |ops|
  {
    if ops == [] then m else MeaningOfAll(Meaning(m, ops[0]), ops[1..])
  }

  /** The handles in being are those named, each under one name. */
  ghost predicate Names(named: Handles, handles: set<CopyOnWriteBuffer>) {
    && (forall x :: x in named ==> named[x] in handles)
    && (forall x, y :: x in named && y in named && named[x] == named[y] ==> x == y)
    && (forall h :: h in handles ==> exists x :: x in named && named[x] == h)
  }

  lemma OneMoreName(named: Handles, handles: set<CopyOnWriteBuffer>, x: Name, h: CopyOnWriteBuffer)
    requires Names(named, handles) && x !in named && h !in handles
    ensures Names(named[x := h], handles + {h})
  {
    var more := named[x := h];
    forall g | g in handles + {h} ensures exists y :: y in more && more[y] == g {
      if g == h {
        assert more[x] == g;
      } else {
        var y :| y in named && named[y] == g;
        assert more[y] == g;
      }
    }
  }

  lemma OneFewerName(named: Handles, handles: set<CopyOnWriteBuffer>, x: Name)
    requires Names(named, handles) && x in named
    ensures Names(named - {x}, handles - {named[x]})
  {
    var fewer := named - {x};
    forall g | g in handles - {named[x]} ensures exists y :: y in fewer && fewer[y] == g {
      var y :| y in named && named[y] == g;
      assert fewer[y] == g;
    }
  }

  /** The handles named stand for the contents. */
  ghost predicate StandFor(w: Heap, named: Handles, m: Contents)
    reads w, w.handles, w.payloads
  {
    && w.Valid() && Names(named, w.handles) && named.Keys == m.Keys
    && forall x :: x in named ==> named[x].View() == m[x]
  }

  predicate ChangesOne(op: BufferOp) {
    op.AssignFrom? || op.Put? || op.Append? || op.AppendFrom? || op.Resize? || op.Reserve? || op.Empty? || op.WriteAt?
  }

  lemma OnlyOneMeant(m: Contents, op: BufferOp)
    requires Sensible(m, op) && ChangesOne(op)
    ensures Meaning(m, op).Keys == m.Keys && forall y :: y in m && y != op.x ==> Meaning(m, op)[y] == m[y]
  {
  }

  /** An operation that changes one handle does so as the class promises. */
  method ChangeHandle(op: BufferOp, named: Handles, ghost m: Contents, ghost w: Heap)
    requires StandFor(w, named, m) && Sensible(m, op) && ChangesOne(op)
    modifies w`payloads, named[op.x], w.payloads
    ensures w.Valid() && w.OthersKept(named[op.x]) && fresh(w.payloads - old(w.payloads))
    ensures named[op.x].View() == Meaning(m, op)[op.x]
  {
    var h := named[op.x];
    match op {
      case AssignFrom(_, of) =>
        h.AssignCopy(named[of], w);
      case Put(_, data) =>
        h.SetData(data, w);
      case Append(_, data) =>
        if h.ptr != null || |data| > 0 {
          h.AppendData(data, w);
        }
      case AppendFrom(_, of) =>
        if h.ptr != null || (named[of].ptr != null && |named[of].ptr.bytes| > 0) {
          h.AppendBuffer(named[of], w);
        }
      case Resize(_, size, fill) =>
        h.SetSize(size, fill, w);
      case Reserve(_, capacity) =>
        h.EnsureCapacity(capacity, w);
      case Empty(_) =>
        h.Clear(w);
      case WriteAt(_, index, value) =>
        h.Write(index, value, w);
    }
  }

  method ChangeOne(op: BufferOp, named: Handles, ghost m: Contents, ghost w: Heap)
    requires StandFor(w, named, m) && Sensible(m, op) && ChangesOne(op)
    modifies w`payloads, w.handles, w.payloads
    ensures StandFor(w, named, Meaning(m, op)) && fresh(w.payloads - old(w.payloads))
  {
    ChangeHandle(op, named, m, w);
    OnlyOneMeant(m, op);
    forall y | y in named && y != op.x ensures named[y].View() == m[y] {
      assert old(named[y].View()) == m[y];
    }
  }

  method SwapTwo(x: Name, of: Name, named: Handles, ghost m: Contents, ghost w: Heap)
    requires StandFor(w, named, m) && x in named && of in named
    modifies w.handles, w.payloads
    ensures StandFor(w, named, m[x := m[of]][of := m[x]])
  {
    named[x].Swap(named[of], w);
    forall y | y in named && y != x && y != of ensures named[y].View() == m[y] {
      assert old(named[y].View()) == m[y];
    }
  }

  method MoveInto(x: Name, of: Name, named: Handles, ghost m: Contents, ghost w: Heap)
    requires StandFor(w, named, m) && x in named && of in named && x != of
    modifies w, w.handles, w.payloads
    ensures StandFor(w, named, m[x := m[of]][of := []])
    ensures w.handles == old(w.handles) && w.payloads == old(w.payloads)
  {
    named[x].AssignMove(named[of], w);
    forall y | y in named && y != x && y != of ensures named[y].View() == m[y] {
      assert old(named[y].View()) == m[y];
    }
  }

  method MakeNew(x: Name, named: Handles, ghost m: Contents, ghost w: Heap) returns (more: Handles)
    requires StandFor(w, named, m) && x !in named
    modifies w`handles
    ensures StandFor(w, more, m[x := []]) && fresh(w.handles - old(w.handles))
  {
    var h := new CopyOnWriteBuffer(w);
    more := named[x := h];
    OneMoreName(named, old(w.handles), x, h);
  }

  method CopyHandle(x: Name, of: Name, named: Handles, ghost m: Contents, ghost w: Heap) returns (more: Handles)
    requires StandFor(w, named, m) && x !in named && of in named
    modifies w, w.payloads
    ensures StandFor(w, more, m[x := m[of]]) && fresh(w.handles - old(w.handles)) && w.payloads == old(w.payloads)
  {
    var h := new CopyOnWriteBuffer.Copy(named[of], w);
    more := named[x := h];
    OneMoreName(named, old(w.handles), x, h);
  }

  method MoveHandle(x: Name, of: Name, named: Handles, ghost m: Contents, ghost w: Heap) returns (more: Handles)
    requires StandFor(w, named, m) && x !in named && of in named
    modifies w`handles, w.handles, w.payloads
    ensures StandFor(w, more, m[x := m[of]][of := []]) && fresh(w.handles - old(w.handles))
  {
    var h := new CopyOnWriteBuffer.Move(named[of], w);
    more := named[x := h];
    OneMoreName(named, old(w.handles), x, h);
  }

  method EndHandle(x: Name, named: Handles, ghost m: Contents, ghost w: Heap) returns (fewer: Handles)
    requires StandFor(w, named, m) && x in named
    modifies w, w.handles, w.payloads
    ensures StandFor(w, fewer, m - {x}) && w.handles <= old(w.handles) && w.payloads == old(w.payloads)
  {
    named[x].Destroy(w);
    fewer := named - {x};
    OneFewerName(named, old(w.handles), x);
    forall y | y in fewer ensures fewer[y].View() == m[y] {
      assert old(named[y].View()) == m[y];
    }
  }

  // ---------- Runs ----------

  method IsSensible(op: BufferOp, named: Handles, ghost m: Contents, ghost w: Heap) returns (ok: bool)
    requires StandFor(w, named, m)
    ensures ok <==> Sensible(m, op)
  {
    match op {
      case Make(x) => ok := x !in named;
      case MakeCopy(x, of) => ok := x !in named && of in named;
      case MakeByMove(x, of) => ok := x !in named && of in named;
      case AssignFrom(x, of) => ok := x in named && of in named;
      case AssignByMove(x, of) => ok := x in named && of in named;
      case SwapWith(x, of) => ok := x in named && of in named;
      case AppendFrom(x, of) => ok := x in named && of in named && x != of;
      case Resize(x, size, fill) => ok := x in named && size <= |fill|;
      case WriteAt(x, index, _) => ok := x in named && named[x].ptr != null && index < |named[x].ptr.bytes|;
      case _ => ok := op.x in named;
    }
  }

  /** One operation, of which a senseless one is ignored. */
  method Execute(op: BufferOp, named: Handles, ghost m: Contents, ghost w: Heap) returns (next: Handles)
    requires StandFor(w, named, m)
    modifies w, w.handles, w.payloads
    ensures StandFor(w, next, Meaning(m, op))
    ensures fresh(w.handles - old(w.handles)) && fresh(w.payloads - old(w.payloads))
  {
    var ok := IsSensible(op, named, m, w);
    next := named;
    if ok {
      next := ExecuteSensible(op, named, m, w);
    }
  }

  method ExecuteSensible(op: BufferOp, named: Handles, ghost m: Contents, ghost w: Heap) returns (next: Handles)
    requires StandFor(w, named, m) && Sensible(m, op)
    modifies w, w.handles, w.payloads
    ensures StandFor(w, next, Meaning(m, op))
    ensures fresh(w.handles - old(w.handles)) && fresh(w.payloads - old(w.payloads))
  {
    next := named;
    if ChangesOne(op) {
      ChangeOne(op, named, m, w);
    } else {
      next := ExecuteOther(op, named, m, w);
    }
  }

  method ExecuteOther(op: BufferOp, named: Handles, ghost m: Contents, ghost w: Heap) returns (next: Handles)
    requires StandFor(w, named, m) && Sensible(m, op) && !ChangesOne(op)
    modifies w, w.handles, w.payloads
    ensures StandFor(w, next, Meaning(m, op))
    ensures fresh(w.handles - old(w.handles)) && fresh(w.payloads - old(w.payloads))
  {
    next := named;
    match op {
      case Make(x) => next := MakeNew(x, named, m, w);
      case MakeCopy(x, of) => next := CopyHandle(x, of, named, m, w);
      case MakeByMove(x, of) => next := MoveHandle(x, of, named, m, w);
      case End(x) => next := EndHandle(x, named, m, w);
      case SwapWith(x, of) => SwapTwo(x, of, named, m, w);
      case AssignByMove(x, of) =>
        if x != of {
          MoveInto(x, of, named, m, w);
        }
    }
  }

  /** Every run from no handle at all: each handle stands for what the operations
      mean for byte sequences that share nothing, and a payload has been freed once
      if no handle holds it any more, and not at all as long as one does. */
  method RunAll(ops: seq<BufferOp>) returns (named: Handles, w: Heap)
    ensures fresh(w) && StandFor(w, named, MeaningOfAll(map[], ops))
    ensures forall p :: p in w.payloads ==> p.frees == if exists x :: x in named && named[x].ptr == p then 0 else 1
    ensures forall x :: x in named && named[x].ptr != null ==> named[x].ptr in w.payloads && named[x].ptr.frees == 0
  {
    w := new Heap();
    named := map[];
    ghost var m: Contents := map[];
    for i := 0 to |ops|
      invariant fresh(w) && fresh(w.handles) && fresh(w.payloads) && StandFor(w, named, m)
      invariant MeaningOfAll(m, ops[i..]) == MeaningOfAll(map[], ops)
    {
      assert ops[i..][0] == ops[i] && ops[i..][1..] == ops[i + 1..];
      named := Execute(ops[i], named, m, w);
      m := Meaning(m, ops[i]);
    }
    FreedOnce(w, named, m);
  }

  lemma FreedOnce(w: Heap, named: Handles, m: Contents)
    requires StandFor(w, named, m)
    ensures forall p :: p in w.payloads ==> p.frees == if exists x :: x in named && named[x].ptr == p then 0 else 1
    ensures forall x :: x in named && named[x].ptr != null ==> named[x].ptr in w.payloads && named[x].ptr.frees == 0
  {
    forall p | p in w.payloads ensures p.frees == if exists x :: x in named && named[x].ptr == p then 0 else 1 {
      assert p.Counted();
      if p.holders != {} {
        var h :| h in p.holders;
        assert h in w.handles && h.ptr == p;
        var x :| x in named && named[x] == h;
      }
    }
  }
}
