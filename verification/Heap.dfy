/** The two-level bump allocator: sbrk (alt_sbrk.c) under the profiler's mcount_allocate
    (alt_gmon.c), on 32-bit addresses. */
module Heap {
  import opened Words

  const SLAB: nat := 1020
  const TOP: nat := 0x7FFF_FFF0  // heaps below this address leave every sum inside 32 bits
  const FAILED: u32 := 0xFFFF_FFFF

  datatype State = State(end: u32, limit: u32, slabPtr: u32, slabSize: i32)

  /** Rounded up to a word boundary. */
  function Aligned(x: u32): u32 {
    U32(x + 3) / 4 * 4
  }

  /** sbrk: the break is aligned even when the request is refused. */
  function Sbrk(s: State, incr: i32): (State, u32) {
    var a := Aligned(s.end);
    if U32(a + incr) > s.limit then (s.(end := a), FAILED) else (s.(end := U32(a + incr)), a)
  }

  /** mcount_allocate: the signed slab size is compared as an unsigned number, and the address of
      a new slab is not checked. */
  function Mcount(s: State, size: u32): (State, u32) {
    var s1 :=
      if size > U32(s.slabSize) then
        var (t, slab) := Sbrk(s, SLAB);
        t.(slabPtr := slab, slabSize := SLAB)
      else s;
    (s1.(slabPtr := U32(s1.slabPtr + size), slabSize := Signed(U32(s1.slabSize - size))), s1.slabPtr)
  }

  class Allocator {
    var heap_end: u32
    const heap_limit: u32
    var mcount_slab_ptr: u32
    var mcount_slab_size: i32

    ghost function View(): State
      reads this
    {
      State(heap_end, heap_limit, mcount_slab_ptr, mcount_slab_size)
    }

    constructor (start: u32, limit: u32)
      ensures View() == State(start, limit, 0, 0)
    {
      heap_end, heap_limit, mcount_slab_ptr, mcount_slab_size := start, limit, 0, 0;
    }

    method AltSbrk(incr: i32) returns (r: u32)
      modifies this`heap_end
      ensures (View(), r) == Sbrk(old(View()), incr)
    {
      heap_end := U32(heap_end + 3) / 4 * 4;
      if U32(heap_end + incr) > heap_limit {
        return FAILED;
      }
      var prev_heap_end := heap_end;
      heap_end := U32(heap_end + incr);
      r := prev_heap_end;
    }

    method McountAllocate(size: u32) returns (data: u32)
      modifies this
      ensures (View(), data) == Mcount(old(View()), size)
    {
      if size > U32(mcount_slab_size) {
        mcount_slab_ptr := AltSbrk(SLAB);
        mcount_slab_size := SLAB;
      }
      data := mcount_slab_ptr;
      mcount_slab_ptr := U32(mcount_slab_ptr + size);
      mcount_slab_size := Signed(U32(mcount_slab_size - size));
    }
  }

  // ---- blocks ----

  datatype Kind = Plain | Slab | Piece

  datatype Block = Block(kind: Kind, addr: nat, len: nat)

  predicate Overlap(b: Block, c: Block) {
    b.len > 0 && c.len > 0 && b.addr < c.addr + c.len && c.addr < b.addr + b.len
  }

  /** A slab contains its pieces; any other two blocks must not overlap. */
  predicate MayNest(b: Block, c: Block) {
    (b.kind.Slab? && c.kind.Piece?) || (b.kind.Piece? && c.kind.Slab?)
  }

  /** Lowering the break gives back what lies above it; slabs and pieces are never given back. */
  function Truncated(b: Block, end: nat): Block {
    if b.kind.Plain? && b.addr + b.len > end then b.(len := if b.addr < end then end - b.addr else 0) else b
  }

  function Live(log: seq<Block>, end: nat): (l: seq<Block>)
    ensures |l| == |log|
  {
    seq(|log|, i requires 0 <= i < |log| => Truncated(log[i], end))
  }

  /** All slabs and pieces end at or below `at`. */
  ghost predicate ClearOf(log: seq<Block>, at: nat) {
    forall i :: 0 <= i < |log| && !log[i].kind.Plain? ==> log[i].addr + log[i].len <= at
  }

  // ---- runs ----

  datatype Request = Brk(incr: i32) | Alloc(size: u32)

  /** What the two routines ask of their callers: a lowered break leaves the slabs alone and does not
      pass the start of the heap, pieces fit a slab, and there is room for a slab when one is
      needed. */
  ghost predicate Proper(start: nat, s: State, log: seq<Block>, r: Request) {
    match r
    case Brk(incr) =>
      var (s', a) := Sbrk(s, incr);
      a == FAILED || (start <= Aligned(s'.end) && ClearOf(log, Aligned(s'.end)))
    case Alloc(size) => 0 < size <= SLAB && (size <= U32(s.slabSize) || Sbrk(s, SLAB).1 != FAILED)
  }

  function Step(s: State, r: Request): State {
    match r
    case Brk(incr) => Sbrk(s, incr).0
    case Alloc(size) => Mcount(s, size).0
  }

  /** The blocks a request hands out. */
  function Granted(s: State, r: Request): seq<Block> {
    match r
    case Brk(incr) =>
      var a := Sbrk(s, incr).1;
      if a == FAILED || incr < 0 then [] else [Block(Plain, a, incr)]
    case Alloc(size) =>
      var piece := [Block(Piece, Mcount(s, size).1, size)];
      if size > U32(s.slabSize) then [Block(Slab, Sbrk(s, SLAB).1, SLAB)] + piece else piece
  }

  /** The live blocks after a request. */
  function After(s: State, log: seq<Block>, r: Request): seq<Block> {
    Live(log + Granted(s, r), Step(s, r).end)
  }

  ghost predicate ProperRun(start: nat, s: State, log: seq<Block>, rs: seq<Request>)
    decreases |rs|
  {
    rs == [] || (Proper(start, s, log, rs[0]) && ProperRun(start, Step(s, rs[0]), After(s, log, rs[0]), rs[1..]))
  }

  ghost function Log(s: State, log: seq<Block>, rs: seq<Request>): seq<Block>
    decreases |rs|
  {
    if rs == [] then log else Log(Step(s, rs[0]), After(s, log, rs[0]), rs[1..])
  }

  /** The end of the newest slab, 0 before there is one. */
  ghost function SlabEnd(log: seq<Block>): nat {
    if log == [] then 0
    else
      var b := log[|log| - 1];
      if b.kind.Slab? then b.addr + b.len else SlabEnd(log[..|log| - 1])
  }

  /** A block of the heap [start, limit), below the break, word aligned unless it is a piece. */
  ghost predicate InHeap(start: nat, s: State, b: Block) {
    b.len == 0 ||
    (&& start <= b.addr && b.addr + b.len <= s.limit && b.addr + b.len <= Aligned(s.end)
     && (b.kind.Piece? || b.addr % 4 == 0))
  }

  ghost predicate Disjoint(log: seq<Block>) {
    forall i, j :: 0 <= i < j < |log| && !MayNest(log[i], log[j]) ==> !Overlap(log[i], log[j])
  }

  /** The unused part of the current slab. */
  ghost function Spare(s: State): Block {
    Block(Piece, s.slabPtr, if s.slabSize >= 0 then s.slabSize else 0)
  }

  ghost predicate Bounds(start: nat, s: State) {
    && start <= s.limit <= TOP && start <= Aligned(s.end)
    && (s.end <= s.limit || (s.end <= s.limit + 3 && s.end % 4 == 0))
  }

  ghost predicate AllInHeap(start: nat, s: State, log: seq<Block>) {
    forall i :: 0 <= i < |log| ==> InHeap(start, s, log[i]) && (log[i].kind.Plain? || log[i].len > 0)
  }

  ghost predicate Inv(start: nat, s: State, log: seq<Block>) {
    && Bounds(start, s)
    && AllInHeap(start, s, log)
    && Disjoint(log)
    && 0 <= s.slabSize <= SLAB && s.slabPtr + s.slabSize == SlabEnd(log)
    && InHeap(start, s, Spare(s))
    && AllOff(log, Spare(s))
  }

  /** Where the break goes. */
  lemma BrkResult(start: nat, s: State, incr: i32)
    requires Bounds(start, s)
    ensures var a := Aligned(s.end); var (s', r) := Sbrk(s, incr);
      && s.end <= a <= s.end + 3 && a % 4 == 0 && Aligned(a) == a
      && (r == FAILED <==> a + incr < 0 || a + incr > s.limit)
      && (r == FAILED ==> s' == s.(end := a) && a <= s.limit + 3)
      && (r != FAILED ==> r == a && s' == s.(end := a + incr) && Aligned(s'.end) >= s'.end)
  {
  }

  lemma {:induction false} SlabEndLive(log: seq<Block>, end: nat)
    ensures SlabEnd(Live(log, end)) == SlabEnd(log)
  {
    if log != [] {
      var init := log[..|log| - 1];
      assert Live(log, end)[..|log| - 1] == Live(init, end);
      SlabEndLive(init, end);
    }
  }

  lemma {:induction false} SlabEndClear(log: seq<Block>, at: nat)
    requires ClearOf(log, at)
    ensures SlabEnd(log) <= at
  {
    if log != [] {
      SlabEndClear(log[..|log| - 1], at);
    }
  }

  lemma LiveDisjoint(log: seq<Block>, end: nat)
    requires Disjoint(log)
    ensures Disjoint(Live(log, end))
  {
    var log' := Live(log, end);
    forall i, j | 0 <= i < j < |log'| && !MayNest(log'[i], log'[j])
      ensures !Overlap(log'[i], log'[j])
    {
      assert !Overlap(log[i], log[j]);
    }
  }

  lemma LiveInHeap(start: nat, s: State, log: seq<Block>, end: u32)
    requires AllInHeap(start, s, log) && ClearOf(log, Aligned(end)) && end <= Aligned(end)
    ensures AllInHeap(start, s.(end := end), Live(log, end))
  {
    hide Aligned;
    var log' := Live(log, end);
    forall i | 0 <= i < |log'|
      ensures InHeap(start, s.(end := end), log'[i]) && (log'[i].kind.Plain? || log'[i].len > 0)
    {
      assert InHeap(start, s, log[i]);
    }
  }

  ghost predicate AllOff(log: seq<Block>, b: Block) {
    forall i :: 0 <= i < |log| && !log[i].kind.Slab? ==> !Overlap(log[i], b)
  }

  lemma LiveOff(log: seq<Block>, b: Block, end: nat)
    requires AllOff(log, b)
    ensures AllOff(Live(log, end), b)
  {
    var log' := Live(log, end);
    forall i | 0 <= i < |log'| && !log'[i].kind.Slab?
      ensures !Overlap(log'[i], b)
    {
      assert !Overlap(log[i], b);
    }
  }

  /** Moving the break to a place that leaves the slabs alone. */
  lemma MoveKeepsInv(start: nat, s: State, log: seq<Block>, end: u32)
    requires Inv(start, s, log) && Bounds(start, s.(end := end)) && ClearOf(log, Aligned(end)) && end <= Aligned(end)
    ensures Inv(start, s.(end := end), Live(log, end))
  {
    SlabEndLive(log, end);
    SlabEndClear(log, Aligned(end));
    LiveDisjoint(log, end);
    LiveInHeap(start, s, log, end);
    LiveOff(log, Spare(s), end);
    hide Aligned, SlabEnd, Disjoint, AllInHeap, AllOff, Live;
  }

  /** The invariant puts the slabs below the break. */
  lemma InvClear(start: nat, s: State, log: seq<Block>)
    requires Inv(start, s, log)
    ensures ClearOf(log, Aligned(s.end))
  {
    hide Aligned, SlabEnd, Disjoint;
    forall i | 0 <= i < |log| && !log[i].kind.Plain?
      ensures log[i].addr + log[i].len <= Aligned(s.end)
    {
      assert InHeap(start, s, log[i]);
    }
  }

  /** A new block above the break. */
  lemma GrowKeepsInv(start: nat, s: State, log: seq<Block>, s': State, b: Block)
    requires Inv(start, s, log) && b.kind != Piece && (b.kind == Plain || b.len > 0)
    requires Aligned(s.end) == b.addr && b.addr % 4 == 0 && s'.end == b.addr + b.len <= s.limit && s'.limit == s.limit
    requires s'.end <= Aligned(s'.end)
    requires if b.kind == Plain then s'.slabPtr == s.slabPtr && s'.slabSize == s.slabSize
             else s'.slabPtr == b.addr && s'.slabSize == b.len == SLAB
    ensures Inv(start, s', log + [b])
  {
    var log' := log + [b];
    assert log'[..|log'| - 1] == log;
    AboveAll(start, s, log, s', b);
    var spare := Spare(s');
    assert InHeap(start, s', spare);
    assert b.kind == Plain ==> spare == Spare(s) && !Overlap(b, spare);
    assert b.kind == Slab ==> spare == b.(kind := Piece);
    OffMore(log, b, spare);
    hide Aligned, Disjoint, AllInHeap, AllOff, InHeap, Spare;
  }

  lemma OffMore(log: seq<Block>, b: Block, x: Block)
    requires AllOff(log, x) || (AllOff(log, b) && x == b.(kind := Piece))
    requires b.kind.Slab? || !Overlap(b, x)
    ensures AllOff(log + [b], x)
  {
    forall i | 0 <= i < |log| && !log[i].kind.Slab?
      ensures !Overlap(log[i], x)
    {
      assert AllOff(log, b) ==> !Overlap(log[i], b);
    }
  }

  lemma AboveAll(start: nat, s: State, log: seq<Block>, s': State, b: Block)
    requires AllInHeap(start, s, log) && Disjoint(log) && InHeap(start, s', b) && (b.kind == Plain || b.len > 0)
    requires b.addr == Aligned(s.end) <= Aligned(s'.end) && s'.limit == s.limit
    ensures AllInHeap(start, s', log + [b]) && Disjoint(log + [b]) && AllOff(log, b)
  {
    hide Aligned;
    forall i | 0 <= i < |log|
      ensures InHeap(start, s', log[i]) && !Overlap(log[i], b)
    {
      assert InHeap(start, s, log[i]);
    }
  }

  /** A piece cut from the front of the spare part. */
  lemma CutKeepsInv(start: nat, s: State, log: seq<Block>, size: nat)
    requires Inv(start, s, log) && 0 < size <= s.slabSize
    ensures Inv(start, s.(slabPtr := s.slabPtr + size, slabSize := s.slabSize - size),
                log + [Block(Piece, s.slabPtr, size)])
  {
    var b := Block(Piece, s.slabPtr, size);
    var s', log' := s.(slabPtr := s.slabPtr + size, slabSize := s.slabSize - size), log + [b];
    assert log'[..|log'| - 1] == log;
    hide Aligned;
    forall i | 0 <= i < |log|
      ensures InHeap(start, s', log[i]) && (!log[i].kind.Slab? ==> !Overlap(log[i], b) && !Overlap(log[i], Spare(s')))
    {
      assert InHeap(start, s, log[i]);
    }
    assert InHeap(start, s', b);
    hide InHeap;
  }

  lemma BrkKeepsInv(start: nat, s: State, log: seq<Block>, incr: i32)
    requires Inv(start, s, log) && Proper(start, s, log, Brk(incr))
    ensures Inv(start, Sbrk(s, incr).0, After(s, log, Brk(incr)))
  {
    BrkResult(start, s, incr);
    InvClear(start, s, log);
    var a := Aligned(s.end);
    var (s', r) := Sbrk(s, incr);
    if r != FAILED && incr >= 0 {
      var b := Block(Plain, a, incr);
      hide Aligned, Inv, Sbrk, Live, ClearOf;
      GrowKeepsInv(start, s, log, s', b);
      InvClear(start, s', log + [b]);
      InvBounds(start, s', log + [b]);
      MoveKeepsInv(start, s', log + [b], s'.end);
    } else {
      assert log + [] == log;
      hide Inv, Sbrk, Live, ClearOf;
      MoveKeepsInv(start, s, log, s'.end);
    }
  }

  lemma InvBounds(start: nat, s: State, log: seq<Block>)
    requires Inv(start, s, log)
    ensures Bounds(start, s) && 0 <= s.slabSize <= SLAB
  {
  }

  function SlabState(s: State): State {
    Sbrk(s, SLAB).0.(slabPtr := Sbrk(s, SLAB).1, slabSize := SLAB)
  }

  lemma NewSlab(start: nat, s: State, log: seq<Block>)
    requires Inv(start, s, log) && Sbrk(s, SLAB).1 != FAILED
    ensures SlabState(s).slabSize == SLAB && SlabState(s).slabPtr == Aligned(s.end)
    ensures Inv(start, SlabState(s), log + [Block(Slab, Aligned(s.end), SLAB)])
  {
    BrkResult(start, s, SLAB);
    var a := Aligned(s.end);
    hide Inv, Aligned;
    GrowKeepsInv(start, s, log, SlabState(s), Block(Slab, a, SLAB));
  }

  lemma AllocShape(start: nat, s: State, log: seq<Block>, size: u32)
    requires Inv(start, s, log) && Proper(start, s, log, Alloc(size))
    ensures var s1 := if size > U32(s.slabSize) then SlabState(s) else s;
      && s1.slabPtr + size < TWO32 && 0 < size <= s1.slabSize && size <= INT_MAX
      && Mcount(s, size) == (s1.(slabPtr := s1.slabPtr + size, slabSize := s1.slabSize - size), s1.slabPtr)
    ensures Granted(s, Alloc(size)) ==
      if size > U32(s.slabSize) then
        [Block(Slab, Aligned(s.end), SLAB), Block(Piece, Aligned(s.end), size)]
      else [Block(Piece, s.slabPtr, size)]
  {
    InvBounds(start, s, log);
    SpareFits(start, s, log);
    hide Inv, Aligned, Sbrk;
    if size > U32(s.slabSize) {
      SlabStateIs(start, s);
      Cut(SlabState(s), size);
    } else {
      Cut(s, size);
    }
  }

  lemma SlabStateIs(start: nat, s: State)
    requires Bounds(start, s) && Sbrk(s, SLAB).1 != FAILED
    ensures Sbrk(s, SLAB).1 == Aligned(s.end) <= TOP
    ensures SlabState(s).slabSize == SLAB && SlabState(s).slabPtr == Aligned(s.end)
  {
    BrkResult(start, s, SLAB);
    hide Aligned;
  }

  lemma SpareFits(start: nat, s: State, log: seq<Block>)
    requires Inv(start, s, log)
    ensures s.slabSize > 0 ==> s.slabPtr + s.slabSize <= TOP
    ensures U32(s.slabSize) == s.slabSize
  {
    hide Aligned, SlabEnd, Disjoint, AllInHeap;
  }

  lemma Cut(s: State, size: u32)
    requires 0 < size <= s.slabSize <= SLAB && s.slabPtr <= TOP
    ensures U32(s.slabPtr + size) == s.slabPtr + size && Signed(U32(s.slabSize - size)) == s.slabSize - size
  {
  }

  lemma AllocKeepsInv(start: nat, s: State, log: seq<Block>, size: u32)
    requires Inv(start, s, log) && Proper(start, s, log, Alloc(size))
    ensures Inv(start, Mcount(s, size).0, log + Granted(s, Alloc(size)))
  {
    AllocShape(start, s, log, size);
    hide Inv, Aligned, Sbrk, Granted, Mcount, SlabState, Signed, U32;
    if size > U32(s.slabSize) {
      NewSlab(start, s, log);
      CutNew(start, SlabState(s), log, Block(Slab, Aligned(s.end), SLAB), size);
    } else {
      CutKeepsInv(start, s, log, size);
    }
  }

  lemma CutNew(start: nat, s: State, log: seq<Block>, slab: Block, size: nat)
    requires Inv(start, s, log + [slab]) && 0 < size <= s.slabSize && s.slabPtr == slab.addr
    ensures Inv(start, s.(slabPtr := s.slabPtr + size, slabSize := s.slabSize - size),
                log + [slab, Block(Piece, slab.addr, size)])
  {
    CutKeepsInv(start, s, log + [slab], size);
    assert (log + [slab]) + [Block(Piece, slab.addr, size)] == log + [slab, Block(Piece, slab.addr, size)];
    hide Inv;
  }

  lemma StepKeepsInv(start: nat, s: State, log: seq<Block>, r: Request)
    requires Inv(start, s, log) && Proper(start, s, log, r)
    ensures Inv(start, Step(s, r), After(s, log, r))
  {
    match r {
      case Brk(incr) =>
        BrkKeepsInv(start, s, log, incr);
      case Alloc(size) =>
        AllocKeepsInv(start, s, log, size);
        var s', log' := Step(s, r), log + Granted(s, r);
        InvClear(start, s', log');
        InvBounds(start, s', log');
        AlignedUp(start, s');
        MoveKeepsInv(start, s', log', s'.end);
    }
  }

  lemma AlignedUp(start: nat, s: State)
    requires Bounds(start, s)
    ensures s.end <= Aligned(s.end)
  {
  }

  /** Inside the heap, and word aligned when it came from sbrk. */
  predicate Placed(start: nat, limit: nat, b: Block) {
    b.len == 0 || (start <= b.addr && b.addr + b.len <= limit && (b.kind.Piece? || b.addr % 4 == 0))
  }

  ghost predicate AllPlaced(start: nat, limit: nat, log: seq<Block>) {
    forall i :: 0 <= i < |log| ==> Placed(start, limit, log[i])
  }

  lemma InvPlaces(start: nat, s: State, log: seq<Block>)
    requires Inv(start, s, log)
    ensures Disjoint(log) && AllPlaced(start, s.limit, log)
  {
    hide Aligned, SlabEnd, Disjoint;
    forall i | 0 <= i < |log|
      ensures Placed(start, s.limit, log[i])
    {
      assert InHeap(start, s, log[i]);
    }
  }

  lemma LimitStays(s: State, r: Request)
    ensures Step(s, r).limit == s.limit
  {
  }

  lemma {:induction false} RunKeepsInv(start: nat, s: State, log: seq<Block>, rs: seq<Request>)
    requires Inv(start, s, log) && ProperRun(start, s, log, rs)
    ensures Disjoint(Log(s, log, rs)) && AllPlaced(start, s.limit, Log(s, log, rs))
    decreases |rs|
  {
    hide Inv, Disjoint, AllPlaced, Proper, Step, After;
    if rs == [] {
      InvPlaces(start, s, log);
    } else {
      StepKeepsInv(start, s, log, rs[0]);
      LimitStays(s, rs[0]);
      RunKeepsInv(start, Step(s, rs[0]), After(s, log, rs[0]), rs[1..]);
    }
  }

  /** Over any proper run from a fresh heap, the break going up and down: every live block at either
      level is inside the heap, sbrk's are word aligned, and no two overlap but a piece and its
      slab. */
  lemma AllocationsAreSafe(start: u32, limit: u32, rs: seq<Request>)
    requires start <= limit <= TOP
    requires ProperRun(start, State(start, limit, 0, 0), [], rs)
    ensures var log := Log(State(start, limit, 0, 0), [], rs);
      Disjoint(log) && AllPlaced(start, limit, log)
  {
    var s := State(start, limit, 0, 0);
    assert Inv(start, s, []);
    hide *;
    RunKeepsInv(start, s, [], rs);
  }

  // ---- the premises are what is needed ----

  /** A further sbrk of q bytes does no harm: it stays in the heap and off the slabs. */
  ghost predicate Harmless(start: nat, s: State, log: seq<Block>, q: i32) {
    var p := Sbrk(s, q).1;
    p == FAILED || q < 0 ||
    (start <= p && forall i :: 0 <= i < |log| && !log[i].kind.Plain? ==> !Overlap(log[i], Block(Plain, p, q)))
  }

  /** After moving the break by any increment, up or down, whatever sbrk hands out next lies in the
      heap and off the slabs exactly when the break has not been moved into a slab nor below the
      start. */
  lemma BrkSafeIff(start: nat, s: State, log: seq<Block>, incr: i32)
    requires Inv(start, s, log)
    ensures (forall q: i32 :: Harmless(start, Sbrk(s, incr).0, log, q)) <==> Proper(start, s, log, Brk(incr))
  {
    BrkResult(start, s, incr);
    InvClear(start, s, log);
    InvBounds(start, s, log);
    var (s', r) := Sbrk(s, incr);
    var at := Aligned(s'.end);
    if Proper(start, s, log, Brk(incr)) {
      assert start <= at && ClearOf(log, at);
      forall q: i32 ensures Harmless(start, s', log, q) {
        NextIs(s', q);
        hide Sbrk, Aligned, Inv;
      }
    } else if at < start {
      NextIs(s', 0);
      assert !Harmless(start, s', log, 0);
    } else {
      var i :| 0 <= i < |log| && !log[i].kind.Plain? && log[i].addr + log[i].len > at;
      var q := log[i].addr + log[i].len - at;
      assert InHeap(start, s, log[i]) && log[i].len > 0;
      NextIs(s', q);
      assert Overlap(log[i], Block(Plain, at, q));
      assert !Harmless(start, s', log, q);
    }
  }

  lemma NextIs(s: State, q: i32)
    requires s.limit <= TOP
    ensures var p := Sbrk(s, q).1;
      (p == FAILED || p == Aligned(s.end)) && (q >= 0 && Aligned(s.end) + q <= s.limit ==> p == Aligned(s.end))
  {
  }

  /** A further sbrk of q bytes does not hand out any of block b. */
  ghost predicate Spared(b: Block, s: State, q: i32) {
    var p := Sbrk(s, q).1;
    p == FAILED || q < 0 || !Overlap(b, Block(Plain, p, q))
  }

  /** A piece lies in the heap and no later sbrk overlaps it exactly when it fits a slab and either
      the slab has room or sbrk grants a new one: mcount_allocate does not look at what sbrk
      returned. */
  lemma PieceSafeIff(start: nat, s: State, log: seq<Block>, size: u32)
    requires Inv(start, s, log) && 0 < size <= INT_MAX
    ensures var (s1, p) := Mcount(s, size);
      (Placed(start, s.limit, Block(Piece, p, size)) && forall q: i32 :: Spared(Block(Piece, p, size), s1, q))
      <==> Proper(start, s, log, Alloc(size))
  {
    var (s1, p) := Mcount(s, size);
    if Proper(start, s, log, Alloc(size)) {
      PieceBelow(start, s, log, size);
      InvBounds(start, s, log);
      hide Inv, Mcount, Proper;
      forall q: i32 ensures Spared(Block(Piece, p, size), s1, q) {
        NextIs(s1, q);
        hide Sbrk;
      }
    } else {
      SpareFits(start, s, log);
      InvBounds(start, s, log);
      hide Inv;
      PieceLost(start, s, size);
    }
  }

  lemma PieceLost(start: nat, s: State, size: u32)
    requires Bounds(start, s) && 0 <= s.slabSize <= SLAB && U32(s.slabSize) == s.slabSize && 0 < size <= INT_MAX
    requires size > SLAB || (size > U32(s.slabSize) && Sbrk(s, SLAB).1 == FAILED)
    ensures var (s1, p) := Mcount(s, size);
      !Placed(start, s.limit, Block(Piece, p, size)) || exists q: i32 :: !Spared(Block(Piece, p, size), s1, q)
  {
    if Sbrk(s, SLAB).1 == FAILED {
      assert Mcount(s, size).1 == FAILED;
    } else {
      Oversize(start, s, size);
      assert !Placed(start, s.limit, Block(Piece, Mcount(s, size).1, size))
        || !Spared(Block(Piece, Mcount(s, size).1, size), Mcount(s, size).0, 1);
    }
    hide Sbrk, Mcount;
  }

  lemma PieceBelow(start: nat, s: State, log: seq<Block>, size: u32)
    requires Inv(start, s, log) && Proper(start, s, log, Alloc(size))
    ensures var (s1, p) := Mcount(s, size);
      start <= p && p + size <= s.limit && p + size <= Aligned(s1.end) && s1.limit == s.limit
  {
    AllocKeepsInv(start, s, log, size);
    AllocShape(start, s, log, size);
    var log' := log + Granted(s, Alloc(size));
    assert log'[|log'| - 1] == Block(Piece, Mcount(s, size).1, size);
    assert InHeap(start, Mcount(s, size).0, log'[|log'| - 1]);
  }

  /** A piece larger than its slab: the next sbrk hands out the part beyond the slab, unless that is
      beyond the heap. */
  lemma Oversize(start: nat, s: State, size: u32)
    requires Bounds(start, s) && 0 <= s.slabSize <= SLAB < size <= INT_MAX && Sbrk(s, SLAB).1 != FAILED
    ensures var (s1, p) := Mcount(s, size);
      !Placed(start, s.limit, Block(Piece, p, size)) || !Spared(Block(Piece, p, size), s1, 1)
  {
    BrkResult(start, s, SLAB);
    var (s1, p) := Mcount(s, size);
    var a := Aligned(s.end);
    NextAligned(a);
    hide Aligned;
    assert p == a && s1.end == a + SLAB;
    NextIs(s1, 1);
  }

  lemma NextAligned(a: u32)
    requires a % 4 == 0 && a + SLAB <= TOP
    ensures Aligned(a + SLAB) == a + SLAB
  {
  }

  function Bucket(low: nat, pc: nat): nat
    requires low <= pc
  {
    (pc - low) / 32
  }

  /** The sampling profiler's histogram has one bucket per whole 32 bytes of text; a sampled program
      counter always lands in it exactly when the text is a whole number of buckets. */
  lemma HistogramCoversTextIff(low: u32, high: u32)
    requires low <= high
    ensures (forall pc: u32 :: low <= pc < high ==> Bucket(low, pc) < (high - low) / 32)
            <==> (high - low) % 32 == 0
  {
    if (high - low) % 32 != 0 {
      assert Bucket(low, high - 1) == (high - low) / 32;
    }
  }
}
