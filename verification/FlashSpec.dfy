/** What the flash driver of src/nucleo_f401re/bootloader.rs does, as functions on
    values. The hardware is an input: the answer to each status read, and whether the
    controller unlocks. */
module FlashSpec {
  import opened Bytes
  import opened Dfu
  import opened Platform

  datatype FlashOp = EraseOp(sector: SectorId) | WriteOp(addr: int, bytes: seq<Byte>)

  /** MemoryState. `src` is the part of the source's 4-byte copy that is to be written.
      After a panic in the middle of a half-word write `Stray` names the two cells that
      were already handed to the controller. */
  datatype DriverState =
    | DriverIdle
    | Erasing(sector: SectorId)
    | Programming(addr: int, src: seq<Byte>)
    | Stray(addr: int)

  /** `log` is a history variable: every operation handed to the controller, in order. */
  datatype Mem = Mem(flash: Flash, state: DriverState, log: seq<FlashOp>)

  /** One reading of the status register. `Clean`: the operation completed and did what
      flash does. `Fault`: it completed with any combination of the error bits (also
      none) and left anything at all in the cells it was aimed at. */
  datatype Reply = Busy | Clean | Fault(wrperr: bool, operr: bool, cells: nat -> Byte)

  /** core::task::Poll around a result, plus the panics of the source. */
  datatype Poll = Pending | Ready(n: nat) | Failed(error: Error) | Panicked

  datatype Driven = Driven(mem: Mem, out: Poll)

  // ---- cells ----

  /** The flash with the cells at addresses [lo, hi) replaced. */
  function Patch(f: Flash, lo: int, hi: int, cells: nat -> Byte): Flash {
    seq(FLASH_SIZE, (i: nat) requires i < FLASH_SIZE =>
      if lo - FLASH_BASE <= i < hi - FLASH_BASE then cells(i) else f[i])
  }

  /** Where the operation in flight may change cells. */
  function TargetLo(st: DriverState): int {
    match st
    case DriverIdle => 0
    case Erasing(s) => SectorStart(s)
    case Programming(a, _) => a
    case Stray(a) => a
  }

  function TargetHi(st: DriverState): int {
    match st
    case DriverIdle => 0
    case Erasing(s) => SectorEnd(s)
    case Programming(a, src) => a + |src|
    case Stray(a) => a + 2
  }

  /** What a working controller leaves in cell i: an erased cell, or the AND of the old
      and the new byte. */
  function CleanCell(m: Mem, i: nat): Byte {
    if m.state.Programming? && 0 <= i - (m.state.addr - FLASH_BASE) < |m.state.src| && i < FLASH_SIZE
    then And(m.flash[i], m.state.src[i - (m.state.addr - FLASH_BASE)])
    else ERASED
  }

  function Settled(m: Mem, reply: Reply): Flash {
    match reply
    case Busy => m.flash
    case Clean => Patch(m.flash, TargetLo(m.state), TargetHi(m.state), (i: nat) => CleanCell(m, i))
    case Fault(_, _, cells) => Patch(m.flash, TargetLo(m.state), TargetHi(m.state), cells)
  }

  // ---- the driver ----

  function PollDriver(m: Mem, reply: Reply): Driven {
    if m.state.DriverIdle? || m.state.Stray? then Driven(m, Ready(0))
    else if reply.Busy? then Driven(m, Pending)
    else
      var f := Settled(m, reply);
      Driven(m.(flash := f, state := DriverIdle), Verdict(f, m.state, reply))
  }

  /** The driver's judgement of a completed operation: error bits first, then a read-back
      of the whole target. */
  function Verdict(f: Flash, st: DriverState, reply: Reply): Poll
    requires st.Erasing? || st.Programming?
  {
    if reply.Fault? && reply.wrperr then Failed(Write)
    else if reply.Fault? && reply.operr then Failed(if st.Erasing? then Erase else Error.Programming)
    else if st.Erasing? then
      if Blank(f, SectorStart(st.sector), SectorEnd(st.sector)) then Ready(0) else Failed(CheckErased)
    else
      if Holds(f, st.addr, st.src) then Ready(|st.src|) else Failed(Verify)
  }

  function StartErase(m: Mem, sector: SectorId, unlocked: bool): Driven {
    if !unlocked then Driven(m, Failed(Write))
    else Driven(Mem(m.flash, Erasing(sector), m.log + [EraseOp(sector)]), Pending)
  }

  /** How many bytes one program operation takes. Two at an address that is 2 modulo 4,
      however many are available. */
  function ChunkSize(addr: int, len: nat): nat {
    var low := addr % 4;
    if low == 1 || low == 3 then 1
    else if low == 2 then 2
    else if len == 3 then 2
    else if len < 4 then len else 4
  }

  function StartProgram(m: Mem, addr: int, src: seq<Byte>, unlocked: bool): Driven {
    var n := ChunkSize(addr, |src|);
    if !unlocked then Driven(m, Failed(Write))
    else if n == 0 then Driven(m, Panicked)
    else if n <= |src| then
      Driven(Mem(m.flash, DriverState.Programming(addr, src[..n]), m.log + [WriteOp(addr, src[..n])]), Pending)
    else if n == 2 then Driven(m.(state := Stray(addr)), Panicked)
    else Driven(m, Panicked)
  }

  // ---- facts ----

  /** How a completed operation that passed its read-back relates the memory after to the
      memory before. */
  predicate Completed(m: Mem, after: Mem) {
    && after.state == DriverIdle && after.log == m.log
    && SameOn(after.flash, m.flash, FLASH_BASE, TargetLo(m.state))
    && SameOn(after.flash, m.flash, TargetHi(m.state), FLASH_END)
    && (m.state.Erasing? ==> Blank(after.flash, SectorStart(m.state.sector), SectorEnd(m.state.sector)))
    && (m.state.Programming? ==> Holds(after.flash, m.state.addr, m.state.src))
  }

  /** A poll touches only the cells of the operation in flight, whatever the controller
      answers. */
  lemma PollFrame(m: Mem, reply: Reply, lo: int, hi: int)
    requires hi <= TargetLo(m.state) || TargetHi(m.state) <= lo
    ensures SameOn(PollDriver(m, reply).mem.flash, m.flash, lo, hi)
  {
  }

  /** A poll that reports success has read the target back and found it as asked for,
      however the controller behaved. */
  lemma PollVerified(m: Mem, reply: Reply)
    requires m.state.Erasing? || m.state.Programming?
    ensures var q := PollDriver(m, reply);
      && (q.out.Ready? ==> Completed(m, q.mem) && q.out.n == if m.state.Erasing? then 0 else |m.state.src|)
      && (q.out.Pending? ==> q.mem == m && reply.Busy?)
      && (q.out.Failed? ==> q.mem.state == DriverIdle && q.mem.log == m.log)
      && !q.out.Panicked?
  {
  }

  /** On working flash an erase never fails, and a write never fails on erased cells. */
  lemma CleanSucceeds(m: Mem)
    requires m.state.Programming? ==>
      && FLASH_BASE <= m.state.addr && m.state.addr + |m.state.src| <= FLASH_END
      && Blank(m.flash, m.state.addr, m.state.addr + |m.state.src|)
    ensures PollDriver(m, Clean).out.Ready?
  {
    if m.state.Programming? {
      forall b: Byte ensures And(ERASED, b) == b { AndErased(b); }
    }
  }

  /** The target of the operation reads as asked for: all erased, or the bytes to be written. */
  predicate ReadsAsAsked(f: Flash, st: DriverState)
    requires st.Erasing? || st.Programming?
  {
    if st.Erasing? then
      forall i :: SectorStart(st.sector) - FLASH_BASE <= i < SectorEnd(st.sector) - FLASH_BASE && 0 <= i < FLASH_SIZE
        ==> f[i] == 0xFF
    else
      && FLASH_BASE <= st.addr && st.addr + |st.src| <= FLASH_END
      && forall k :: 0 <= k < |st.src| ==> f[st.addr - FLASH_BASE + k] == st.src[k]
  }

  /** What the driver reports of a finished operation, if anything went wrong: error bits first, in
      their order, then what was read back. */
  function Complaint(st: DriverState, wrperr: bool, operr: bool): Error {
    if wrperr then Write
    else if operr then (if st.Erasing? then Erase else Error.Programming)
    else if st.Erasing? then CheckErased else Verify
  }

  /** A poll waits exactly while the controller is busy. One that finds the operation finished
      succeeds exactly if both error bits are clear and the target reads as asked for, and
      otherwise reports the first thing that is wrong. */
  lemma PollVerdict(m: Mem, reply: Reply)
    requires m.state.Erasing? || m.state.Programming?
    ensures var q := PollDriver(m, reply);
      var wrperr, operr := reply.Fault? && reply.wrperr, reply.Fault? && reply.operr;
      if reply.Busy? then q == Driven(m, Pending)
      else
        && q.mem.state == DriverIdle && q.mem.log == m.log
        && q.out == if !wrperr && !operr && ReadsAsAsked(q.mem.flash, m.state)
                    then Ready(if m.state.Erasing? then 0 else |m.state.src|)
                    else Failed(Complaint(m.state, wrperr, operr))
  {
    var f := PollDriver(m, reply).mem.flash;
    if m.state.Programming? {
      var a, src := m.state.addr - FLASH_BASE, m.state.src;
      assert Holds(f, m.state.addr, src) ==> forall k :: 0 <= k < |src| ==> f[a + k] == src[k];
      assert ReadsAsAsked(f, m.state) ==> forall i :: a <= i < a + |src| ==> f[i] == src[i - a];
    }
  }

  /** What a completed operation leaves in its target: what the controller put there if it failed;
      0xFF, or the AND of old and new byte, if it worked. */
  lemma CellsAfter(m: Mem, reply: Reply, i: nat)
    requires (m.state.Erasing? || m.state.Programming?) && !reply.Busy?
    requires i < FLASH_SIZE && TargetLo(m.state) - FLASH_BASE <= i < TargetHi(m.state) - FLASH_BASE
    ensures PollDriver(m, reply).mem.flash[i]
            == if reply.Fault? then reply.cells(i)
               else if m.state.Erasing? then 0xFF
               else And(m.flash[i], m.state.src[i - (m.state.addr - FLASH_BASE)])
  {
  }

  /** A driver with nothing in flight reports success at once. */
  lemma PollIdle(m: Mem, reply: Reply)
    requires m.state.DriverIdle?
    ensures PollDriver(m, reply) == Driven(m, Ready(0))
  {
  }

  // ---- chunking ----

  /** Repeated program operations consume [addr, addr + len) exactly. */
  predicate Chunkable(addr: int, len: nat)
    decreases len
  {
    len == 0 || var n := ChunkSize(addr, len); 0 < n <= len && Chunkable(addr + n, len - n)
  }

  /** The number of program operations that takes. */
  function ChunkCount(addr: int, len: nat): nat
    decreases len
  {
    var n := ChunkSize(addr, len);
    if len == 0 || n == 0 || n > len then 0 else 1 + ChunkCount(addr + n, len - n)
  }

  /** A block can be written out exactly when its end is not 3 modulo 4. */
  lemma {:induction false} ChunkableIff(addr: int, len: nat)
    requires len > 0
    ensures Chunkable(addr, len) <==> (addr + len) % 4 != 3
    decreases len
  {
    var n := ChunkSize(addr, len);
    if n < len { ChunkableIff(addr + n, len - n); }
  }

  /** A write of 1, 2 or 4 bytes at an address that is a multiple of its size. */
  predicate Aligned(addr: int, n: nat) {
    n == 1 || (n == 2 && addr % 2 == 0) || (n == 4 && addr % 4 == 0)
  }

  /** A piece is the largest aligned power of two that fits - except that at an address that is 2
      modulo 4 the driver asks for two bytes even of one. */
  lemma ChunkLargest(addr: int, len: nat, k: nat)
    requires len > 0 && Aligned(addr, k) && k <= len
    ensures k <= ChunkSize(addr, len)
    ensures ChunkSize(addr, len) > len <==> addr % 4 == 2 && len == 1
  {
  }

  /** Starting a write: refused while the controller is locked, a panic exactly where no piece can be
      cut, and otherwise the piece is in flight. Only the half word of a single byte reaches the
      controller before the panic. */
  lemma StartOutcome(m: Mem, addr: int, src: seq<Byte>, unlocked: bool)
    ensures var q := StartProgram(m, addr, src, unlocked);
      var stuck := (src == [] && addr % 4 != 2) || (|src| <= 1 && addr % 4 == 2);
      && q.mem.flash == m.flash
      && (if !unlocked then q == Driven(m, Failed(Write))
          else if stuck then q.out == Panicked && q.mem == if addr % 4 == 2 then m.(state := Stray(addr)) else m
          else
            && q.out == Pending && q.mem.state.Programming? && q.mem.state.addr == addr
            && q.mem.state.src <= src && |q.mem.state.src| == ChunkSize(addr, |src|)
            && q.mem.log == m.log + [WriteOp(addr, q.mem.state.src)])
  {
  }

  /** Each piece is 1, 2 or 4 bytes, naturally aligned, and stays within its word. */
  lemma ChunkInWord(addr: int, len: nat)
    requires 0 < ChunkSize(addr, len) <= len
    ensures var n := ChunkSize(addr, len);
      Aligned(addr, n) && addr % 4 + n <= 4 && (addr + n) % 4 != 3
  {
  }

  /** A piece that stays within its word stays below any word boundary above its start. */
  lemma WordBoundary(addr: int, n: nat, edge: int)
    requires addr % 4 + n <= 4 && edge % 4 == 0 && addr < edge
    ensures addr + n <= edge
  {
  }

  /** No piece crosses the end of its sector or the start of the manifest region. */
  lemma ChunkAligned(addr: int, len: nat)
    requires FLASH_BASE <= addr < FLASH_END && 0 < ChunkSize(addr, len) <= len
    ensures var n := ChunkSize(addr, len);
      && Aligned(addr, n) && (addr + n) % 4 != 3
      && (addr < MANIFEST_REGION_START ==> addr + n <= MANIFEST_REGION_START)
      && (forall s: SectorId :: InSector(addr, s) ==> addr + n <= SectorEnd(s))
  {
    ChunkInWord(addr, len);
    var n := ChunkSize(addr, len);
    hide ChunkSize;
    if addr < MANIFEST_REGION_START { WordBoundary(addr, n, MANIFEST_REGION_START); }
    forall s: SectorId | InSector(addr, s) ensures addr + n <= SectorEnd(s) {
      SectorsTile(s);
      WordBoundary(addr, n, SectorEnd(s));
    }
  }

  /** Stepping over one piece stays in the sector or arrives at the start of the next. */
  lemma ChunkStep(addr: int, len: nat, s: SectorId)
    requires InSector(addr, s) && 0 < ChunkSize(addr, len) <= len
    ensures var next := addr + ChunkSize(addr, len);
      || TryFrom(next) == Ok(s)
      || (s < 7 && next == SectorStart(s + 1) && TryFrom(next) == Ok(s + 1))
      || (s == 7 && next == FLASH_END && TryFrom(next) == Err(Address))
  {
    SectorsTile(s);
    ChunkAligned(addr, len);
    TryFromRefinesTable(addr + ChunkSize(addr, len));
  }
}
