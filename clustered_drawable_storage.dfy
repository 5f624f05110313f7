/**
 * The vertex storage of one terrain region inside a cluster
 * (grondag.canvas.render.terrain.cluster.ClusteredDrawableStorage): the
 * transfer buffer it holds until upload, the clump and base vertex it is
 * given on allocation, and its one-way close.
 *
 * The collaborators the storage calls (TransferBuffer.release,
 * clump.notifyClosed, owner.allocate) are recorded as events in a trace;
 * the vertex stride of the terrain format is a positive constructor
 * argument.
 */
module TerrainCluster {
  import opened JavaInt
  import opened Options

  /** The base vertex of a storage that has no place in a clump. */
  const NOT_ALLOCATED: int := -1

  /** A transfer buffer, known by its identity. */
  datatype TransferBuffer = TransferBuffer(id: int)

  /** A clump of the cluster, known by its identity. */
  datatype Clump = Clump(id: int)

  /** A call the storage makes on one of its collaborators. */
  datatype Event =
    | ReleaseBuffer(buffer: TransferBuffer)  // transferBuffer.release()
    | NotifyClosed(clump: Clump)             // clump.notifyClosed(this)
    | Allocate                               // owner.allocate(this)

  /** The mutable fields of a storage, and the calls it has made so far. */
  datatype Storage = Storage(
    transferBuffer: Option<TransferBuffer>, baseVertex: int, closed: bool,
    clump: Option<Clump>, events: seq<Event>)

  /** The number of times `c` is notified in `es`. */
  function Notifications(es: seq<Event>, c: Clump): nat
    decreases |es|
  {
    if es == [] then 0
    else Notifications(es[..|es| - 1], c) + (if es[|es| - 1] == NotifyClosed(c) then 1 else 0)
  }

  /** The number of times `b` is released in `es`. */
  function Releases(es: seq<Event>, b: TransferBuffer): nat
    decreases |es|
  {
    if es == [] then 0
    else Releases(es[..|es| - 1], b) + (if es[|es| - 1] == ReleaseBuffer(b) then 1 else 0)
  }

  /** Counting events over a concatenation adds the counts of its parts. */
  lemma {:induction false} CountsOfAppend(es: seq<Event>, fs: seq<Event>, c: Clump, b: TransferBuffer)
    ensures Notifications(es + fs, c) == Notifications(es, c) + Notifications(fs, c)
    ensures Releases(es + fs, b) == Releases(es, b) + Releases(fs, b)
    decreases |fs|
  {
    if fs != [] {
      var gs := fs[..|fs| - 1];
      assert (es + fs)[..|es + fs| - 1] == es + gs;
      CountsOfAppend(es, gs, c, b);
    } else {
      assert es + fs == es;
    }
  }

  /**
   * The calls a first close makes: the held transfer buffer is released,
   * then the clump, if there is one, is told when `notify` asks for it.
   */
  function CloseEvents(buffer: Option<TransferBuffer>, clump: Option<Clump>, notify: bool): (es: seq<Event>)
    ensures |es| <= 2 && Allocate !in es
  {
    (if buffer.Some? then [ReleaseBuffer(buffer.value)] else [])
      + (if notify && clump.Some? then [NotifyClosed(clump.value)] else [])
  }

  /**
   * A first close notifies clump `c` once when `notify` is set and `c` is
   * the storage's clump, and never otherwise; it releases buffer `b` once
   * when `b` is the held buffer, and never otherwise.
   */
  lemma CloseEventCounts(buffer: Option<TransferBuffer>, clump: Option<Clump>, notify: bool, c: Clump, b: TransferBuffer)
    ensures Notifications(CloseEvents(buffer, clump, notify), c) == if notify && clump == Some(c) then 1 else 0
    ensures Releases(CloseEvents(buffer, clump, notify), b) == if buffer == Some(b) then 1 else 0
  {
    var release: seq<Event> := if buffer.Some? then [ReleaseBuffer(buffer.value)] else [];
    var notice: seq<Event> := if notify && clump.Some? then [NotifyClosed(clump.value)] else [];
    CountsOfAppend(release, notice, c, b);
    assert [] + [NotifyClosed(c)] == [NotifyClosed(c)];
    if release != [] {
      assert release[..0] == [];
    }
    if notice != [] {
      assert notice[..0] == [];
    }
  }

  /**
   * The storage after close(notify): a storage that is not yet closed
   * becomes closed, lets go of its transfer buffer and clump and forgets
   * its base vertex; a closed storage is left exactly as it is.
   */
  function Closed(s: Storage, notify: bool): (t: Storage)
    ensures t.closed
    ensures !s.closed ==> t.transferBuffer == None && t.clump == None && t.baseVertex == NOT_ALLOCATED
    ensures s.closed ==> t == s
  {
    if s.closed then s
    else Storage(None, NOT_ALLOCATED, true, None, s.events + CloseEvents(s.transferBuffer, s.clump, notify))
  }

  /** The storage after a sequence of close calls with the given notify flags. */
  function ClosedAll(s: Storage, notifies: seq<bool>): Storage
    decreases |notifies|
  {
    if notifies == [] then s else ClosedAll(Closed(s, notifies[0]), notifies[1..])
  }

  /** A second close changes nothing. */
  lemma CloseIdempotent(s: Storage, first: bool, second: bool)
    requires s.closed
    ensures Closed(Closed(s, first), second) == Closed(s, first)
  {
  }

  /** Any run of close calls has the effect of its first one. */
  lemma {:induction false} ClosedAllIsFirst(s: Storage, notifies: seq<bool>)
    requires notifies != []
    ensures ClosedAll(s, notifies) == Closed(s, notifies[0])
    decreases |notifies|
  {
    var t := Closed(s, notifies[0]);
    if |notifies| > 1 {
      ClosedAllIsFirst(t, notifies[1..]);
      assert notifies[1..][0] == notifies[1];
      CloseIdempotent(t, notifies[0], notifies[1]);
    }
  }

  /**
   * Over any run of close calls on an open storage the clump is notified
   * exactly once if the first close asked for it and a clump was set, and
   * never otherwise; the transfer buffer is released exactly once if one
   * was held.
   */
  lemma NotifiedOnce(s: Storage, notifies: seq<bool>, c: Clump, b: TransferBuffer)
    requires !s.closed && notifies != []
    ensures var t := ClosedAll(s, notifies);
            && Notifications(t.events, c) == Notifications(s.events, c) + (if notifies[0] && s.clump == Some(c) then 1 else 0)
            && Releases(t.events, b) == Releases(s.events, b) + (if s.transferBuffer == Some(b) then 1 else 0)
  {
    ClosedAllIsFirst(s, notifies);
    CountsOfAppend(s.events, CloseEvents(s.transferBuffer, s.clump, notifies[0]), c, b);
    CloseEventCounts(s.transferBuffer, s.clump, notifies[0], c, b);
  }

  /** The byte address of a base vertex: `baseVertex * stride`. */
  function ByteAddress(baseVertex: int, stride: int): (addr: int)
    requires stride > 0
    ensures Div(addr, stride) == baseVertex
  {
    var addr := baseVertex * stride;
    DivOfProduct(baseVertex, stride);
    addr
  }

  /** Java's division undoes a multiplication by a positive stride, for either sign. */
  lemma DivOfProduct(v: int, d: int)
    requires d > 0
    ensures Div(v * d, d) == v
  {
    if v >= 0 {
      MulDivCancel(v, d);
      DivOfNonNegatives(v * d, d);
    } else {
      MulDivCancel(-v, d);
      assert v * d == -((-v) * d);
      DivOfNegatives((-v) * d, -d);
      assert Div(v * d, d) == Div(-((-v) * d), d);
    }
  }

  /** Multiplying a non-negative number by a positive divisor and dividing gives it back. */
  lemma MulDivCancel(m: int, d: int)
    requires m >= 0 && d > 0
    ensures m * d >= 0 && m * d / d == m
  {
    var q, r := m * d / d, m * d % d;
    assert m * d == q * d + r && 0 <= r < d;
    assert (m - q) * d == m * d - q * d;
    OnlyZeroBelowDivisor(m - q, d);
  }

  /** The only multiple of a positive d in [0, d) is 0 times d. */
  lemma OnlyZeroBelowDivisor(k: int, d: int)
    requires d > 0 && 0 <= k * d < d
    ensures k == 0
  {
  }

  /** A non-negative multiple of the stride survives the trip to a vertex and back. */
  lemma AddressRoundTrip(addr: int, stride: int)
    requires stride > 0 && addr >= 0 && addr % stride == 0
    ensures Div(addr, stride) >= 0
    ensures ByteAddress(Div(addr, stride), stride) == addr
  {
    DivOfNonNegatives(addr, stride);
    assert addr == addr / stride * stride + addr % stride;
  }

  class ClusteredDrawableStorage {
    const byteCount: int
    const triVertexCount: int
    const clumpPos: int
    const stride: int

    var transferBuffer: Option<TransferBuffer>
    var baseVertex: int
    var closed: bool
    var clump: Option<Clump>
    var events: seq<Event>

    /** The fields as a value. */
    function State(): Storage
      reads this
    {
      Storage(transferBuffer, baseVertex, closed, clump, events)
    }

    /**
     * A new, open and unallocated storage holding the transfer buffer of
     * its vertices. The clump position is the one the owner computes from
     * the packed origin.
     */
    constructor (transferBuffer: Option<TransferBuffer>, byteCount: int, clumpPos: int, triVertexCount: int, stride: int)
      requires stride > 0
      ensures State() == Storage(transferBuffer, NOT_ALLOCATED, false, None, [])
      ensures this.byteCount == byteCount && this.triVertexCount == triVertexCount
      ensures this.clumpPos == clumpPos && this.stride == stride && this.stride > 0
    {
      this.byteCount := byteCount;
      this.triVertexCount := triVertexCount;
      this.clumpPos := clumpPos;
      this.stride := stride;
      this.transferBuffer := transferBuffer;
      baseVertex := NOT_ALLOCATED;
      closed := false;
      clump := None;
      events := [];
    }

    /** Hands over the transfer buffer and holds none from then on. */
    method GetAndClearTransferBuffer() returns (result: Option<TransferBuffer>)
      modifies this`transferBuffer
      ensures result == old(transferBuffer) && transferBuffer == None
    {
      result := transferBuffer;
      transferBuffer := None;
    }

    /** Closes the storage with notification; the caller's reference becomes null. */
    method Release() returns (r: Option<ClusteredDrawableStorage>)
      modifies this`transferBuffer, this`baseVertex, this`closed, this`clump, this`events
      ensures State() == Closed(old(State()), true)
      ensures r == None
    {
      Close(true);
      r := None;
    }

    /** Closes the storage once; later calls do nothing (see Closed). */
    method Close(notify: bool)
      modifies this`transferBuffer, this`baseVertex, this`closed, this`clump, this`events
      ensures State() == Closed(old(State()), notify)
    {
      if !closed {
        closed := true;
        if transferBuffer.Some? {
          events := events + [ReleaseBuffer(transferBuffer.value)];
          transferBuffer := None;
        }
        if clump.Some? {
          if notify {
            events := events + [NotifyClosed(clump.value)];
          }
          clump := None;
        }
        baseVertex := NOT_ALLOCATED;
      }
    }

    function IsClosed(): (r: bool)
      reads this
      ensures r <==> State().closed
    {
      closed
    }

    /** The first vertex of the storage in its clump; only asked of an allocated storage. */
    function BaseVertex(): (v: int)
      reads this
      requires baseVertex != NOT_ALLOCATED
      ensures v != NOT_ALLOCATED && v == State().baseVertex
    {
      baseVertex
    }

    /** The byte address of the first vertex; only asked of an allocated storage. */
    function BaseByteAddress(): (addr: int)
      reads this
      requires stride > 0 && baseVertex != NOT_ALLOCATED
      ensures Div(addr, stride) == baseVertex
    {
      ByteAddress(baseVertex, stride)
    }

    /**
     * Places the storage at a byte address: the base vertex is the address
     * divided by the stride, truncated as Java divides.
     */
    method SetBaseAddress(baseAddress: int)
      requires stride > 0
      modifies this`baseVertex
      ensures baseVertex == Div(baseAddress, stride)
      ensures baseAddress >= 0 && baseAddress % stride == 0 ==> baseVertex != NOT_ALLOCATED && BaseByteAddress() == baseAddress
    {
      baseVertex := Div(baseAddress, stride);
      if baseAddress >= 0 && baseAddress % stride == 0 {
        AddressRoundTrip(baseAddress, stride);
      }
    }

    /** Assigns the storage to a clump; only an unallocated storage without a clump may be assigned. */
    method SetClump(clump: Clump)
      requires baseVertex == NOT_ALLOCATED && this.clump == None
      modifies this`clump
      ensures this.clump == Some(clump)
    {
      this.clump := Some(clump);
    }

    /** Asks the owner to allocate the storage; only an unallocated storage may ask. */
    method Upload()
      requires baseVertex == NOT_ALLOCATED
      modifies this`events
      ensures events == old(events) + [Allocate]
    {
      events := events + [Allocate];
    }
  }
}
