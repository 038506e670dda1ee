/** Exactly how many flash operations a block and a manifestation take. */
module Counts {
  import opened Bytes
  import opened Dfu
  import opened Platform
  import opened FlashSpec
  import opened ProgramSpec
  import opened Session
  import opened SessionSteps
  import opened Download

  /** 1 if the last of len bytes at addr lies outside the sector, so that one more is erased. */
  function Crossing(sector: SectorId, addr: int, len: nat): nat {
    if len > 0 && TryFrom(addr + len - 1) != Ok(sector) then 1 else 0
  }

  function BlockCost(sector: SectorId, addr: int, len: nat): nat {
    ChunkCount(addr, len) + Crossing(sector, addr, len)
  }

  function ManifestCost(d: Digest, sector: SectorId): nat {
    7 - sector + ManifestSize(d) / 4
  }

  /** The operations still to complete before the program waits for data or is done,
      counting the one in flight. */
  function Remaining(d: Digest, p: Prog): nat {
    match p.state
    case AwaitData => 0
    case AwaitEraseBeforeProgram(_, _) => 1 + ChunkCount(p.addr, |PendingBytes(p)|)
    case AwaitProgram(_, _) => BlockCost(p.sector, p.addr, |PendingBytes(p)|)
    case AwaitErase => 1 + ManifestCost(d, p.sector)
    case AwaitProgramManifest(data, wr) => if wr <= |data| then (|data| - wr) / 4 else 0
    case Done => 0
  }

  /** The pending block can be written out in full. */
  predicate Fits(p: Prog) {
    PendingBytes(p) != [] ==> FateAt(p.addr + |PendingBytes(p)|) == GoesWell
  }

  lemma BlockCostStep(sector: SectorId, addr: int, len: nat)
    requires InSector(addr, sector) && 0 < ChunkSize(addr, len) <= len
    ensures var n := ChunkSize(addr, len);
      BlockCost(sector, addr, len) == 1 + BlockCost(sector, addr + n, len - n)
  {
    ChunkAligned(addr, len);
    SectorsTile(sector);
    TryFromRefinesTable(addr + len - 1);
  }

  lemma IssueCost(d: Digest, m: Mem, p: Prog, data: seq<Byte>, wr: nat)
    requires wr < |data| <= TRANSFER_SIZE && p.addr + |data| - wr <= MANIFEST_REGION_START
    requires SectorStart(p.sector) <= p.addr <= SectorEnd(p.sector) && p.sector >= 2
    ensures var t := EraseOrProgram(m, p, data, wr, true);
      t.out.Pending? ==> Remaining(d, t.prog) == BlockCost(p.sector, p.addr, |data| - wr)
  {
    hide ChunkSize, ChunkCount, TryFrom, SectorStart, SectorLength;
    SectorsTile(p.sector);
    var last := p.addr + |data| - wr - 1;
    TryFromRefinesTable(p.addr);
    TryFromRefinesTable(last);
    if InSector(p.addr, p.sector) {
      assert TryFrom(p.addr) == Ok(p.sector);
    } else {
      SectorsTile(p.sector + 1);
      assert InSector(p.addr, p.sector + 1) && !InSector(last, p.sector);
    }
  }

  // ---- one completed operation ----

  lemma CleanBlockErased(d: Digest, m: Mem, p: Prog, m1: Mem)
    requires InSession(d, m, p) && p.state.AwaitEraseBeforeProgram? && Completed(m, m1)
    requires Fits(p) && PendingBytes(p) != []
    ensures var t := Continue(d, m1, p, 0, true);
      t.out.Pending? && Fits(t.prog) && PendingBytes(t.prog) != [] && Remaining(d, t.prog) + 1 == Remaining(d, p)
  {
    hide Kept, Chunkable, ChunkSize, ChunkCount, Surroundings, Ordered, Replay;
    SectorsTile(p.sector);
    PollBlockErased(d, m, p, m1, true);
    ChunkableIff(p.addr, |PendingBytes(p)|);
    TryFromRefinesTable(p.addr + |PendingBytes(p)| - 1);
  }

  lemma CleanLastWritten(d: Digest, m: Mem, p: Prog, m1: Mem, n: nat)
    requires InSession(d, m, p) && p.state.AwaitProgram? && Completed(m, m1)
    requires n == ChunkSize(p.addr, |PendingBytes(p)|) == |PendingBytes(p)|
    ensures var t := Continue(d, m1, p, n, true);
      t.out.Pending? && t.prog.state.AwaitData? && Remaining(d, p) == 1
  {
    BlockCostStep(p.sector, p.addr, n);
    PollLastChunk(d, m, p, m1, n, true);
  }

  lemma MoreCost(d: Digest, m: Mem, p: Prog, n: nat)
    requires p.state.AwaitProgram? && WellBuffered(p.state) && InSector(p.addr, p.sector) && p.sector >= 2
    requires n == ChunkSize(p.addr, |PendingBytes(p)|) < |PendingBytes(p)| && n > 0
    requires p.addr + |PendingBytes(p)| <= MANIFEST_REGION_START
    ensures var t := Continue(d, m, p, n, true);
      t.out.Pending? ==> Remaining(d, t.prog) + 1 == Remaining(d, p)
  {
    hide BlockCost, ChunkSize, SectorStart, SectorLength, Aligned;
    var len := |PendingBytes(p)|;
    BlockCostStep(p.sector, p.addr, len);
    ChunkAligned(p.addr, len);
    SectorsTile(p.sector);
    var p1 := p.(addr := p.addr + n);
    IssueCost(d, m, p1, p.state.data, p.state.wr + n);
    assert Continue(d, m, p, n, true) == EraseOrProgram(m, p1, p.state.data, p.state.wr + n, true);
    hide EraseOrProgram;
  }

  lemma CleanMoreWritten(d: Digest, m: Mem, p: Prog, m1: Mem, n: nat)
    requires InSession(d, m, p) && p.state.AwaitProgram? && Completed(m, m1)
    requires Fits(p) && n == ChunkSize(p.addr, |PendingBytes(p)|) < |PendingBytes(p)|
    ensures var t := Continue(d, m1, p, n, true);
      && t.out.Pending? && Fits(t.prog) && PendingBytes(t.prog) != []
      && Remaining(d, t.prog) + 1 == Remaining(d, p)
  {
    hide Kept, Chunkable, Continue, Remaining, Uncuttable, ChunkSize, ChunkCount, Aligned, Surroundings,
      Ordered, Replay;
    MoreCost(d, m1, p, n);
    ChunkAligned(p.addr, |PendingBytes(p)|);
    UncuttableEnd(p.addr + n, |PendingBytes(p)| - n);
    PollMoreChunks(d, m, p, m1, n, true);
  }

  lemma CleanChunkWritten(d: Digest, m: Mem, p: Prog, m1: Mem, n: nat)
    requires InSession(d, m, p) && p.state.AwaitProgram? && Completed(m, m1)
    requires Fits(p) && n == ChunkSize(p.addr, |PendingBytes(p)|)
    ensures var t := Continue(d, m1, p, n, true);
      && t.out.Pending? && Fits(t.prog) && (t.prog.state.AwaitData? || PendingBytes(t.prog) != [])
      && Remaining(d, t.prog) + 1 == Remaining(d, p)
  {
    hide Continue, BlockCost;
    if n == |PendingBytes(p)| { CleanLastWritten(d, m, p, m1, n); } else { CleanMoreWritten(d, m, p, m1, n); }
  }

  lemma CleanFinal(d: Digest, m: Mem, p: Prog, m1: Mem, n: nat)
    requires InSession(d, m, p) && !Receiving(p) && !p.state.Done? && Completed(m, m1)
    requires n == if m.state.Programming? then |m.state.src| else 0
    ensures var t := Continue(d, m1, p, n, true);
      && (t.out.Pending? || t.out.Ready?) && PendingBytes(t.prog) == []
      && Remaining(d, t.prog) + 1 == Remaining(d, p)
  {
    ManifestRegion(d);
    if p.state.AwaitErase? {
      ErasedComplete(d, m, m1, p);
      ManifestIssue(d, m1, p, true);
    } else if p.state.wr + 4 == |p.state.data| {
      LastManifestWord(d, m, m1, p);
    } else {
      NextManifestWord(d, m, m1, p);
    }
  }

  /** A session under way that nothing but a fault can stop. */
  predicate OnCourse(d: Digest, m: Mem, p: Prog) {
    && InSession(d, m, p) && Fits(p)
    && (Receiving(p) && !p.state.AwaitData? ==> PendingBytes(p) != [])
  }

  /** On working flash every completion brings a session one operation closer to its end,
      and no poll fails. */
  lemma CleanCounts(d: Digest, m: Mem, p: Prog)
    requires OnCourse(d, m, p) && !p.state.AwaitData? && !p.state.Done?
    ensures var t := PollProgram(d, m, p, Clean, true);
      && t.out == (if t.prog.state.Done? then Ready(0) else Pending) && OnCourse(d, t.mem, t.prog)
      && t.prog.hist == p.hist && Remaining(d, t.prog) + 1 == Remaining(d, p)
  {
    CleanReady(d, m, p);
    PollKeeps(d, m, p, Clean, true);
    var q := PollDriver(m, Clean);
    hide Continue, Remaining;
    if p.state.AwaitEraseBeforeProgram? { CleanBlockErased(d, m, p, q.mem); }
    else if p.state.AwaitProgram? { CleanChunkWritten(d, m, p, q.mem, q.out.n); }
    else { CleanFinal(d, m, p, q.mem, q.out.n); }
  }

  lemma RemainingZero(d: Digest, m: Mem, p: Prog)
    requires OnCourse(d, m, p)
    ensures Remaining(d, p) == 0 <==> p.state.AwaitData? || p.state.Done?
  {
  }

  /** Under every schedule, a block or a manifestation is through after exactly as many
      completions as were remaining, and not one earlier. */
  lemma {:induction false} DriveExact(d: Digest, m: Mem, p: Prog, replies: seq<Reply>)
    requires OnCourse(d, m, p) && !p.state.Done? && FaultFree(replies)
    ensures var t := Drive(d, m, p, replies);
      && OnCourse(d, t.mem, t.prog) && t.prog.hist == p.hist
      && Remaining(d, t.prog)
         == (if Completions(replies) < Remaining(d, p) then Remaining(d, p) - Completions(replies) else 0)
      && t.out == (if t.prog.state.Done? then Ready(0) else Pending)
    decreases |replies|
  {
    hide OnCourse, Remaining, PollProgram, Drive;
    RemainingZero(d, m, p);
    if p.state.AwaitData? {
      DriveRests(d, m, p, replies);
    } else if replies == [] {
      DriveStops(d, m, p);
    } else {
      DriveUnfolds(d, m, p, replies);
      if replies[0].Busy? {
        OnCourseWaits(d, m, p);
        DriveExact(d, m, p, replies[1..]);
      } else {
        CleanCounts(d, m, p);
        var t := PollProgram(d, m, p, Clean, true);
        RemainingZero(d, t.mem, t.prog);
        if t.out.Pending? { DriveExact(d, t.mem, t.prog, replies[1..]); }
      }
    }
  }

  lemma OnCourseWaits(d: Digest, m: Mem, p: Prog)
    requires OnCourse(d, m, p) && !p.state.Done?
    ensures PollProgram(d, m, p, Busy, true) == Turn(m, p, Pending)
  {
    BusyWaits(d, m, p, true);
  }

  // ---- what an operation costs when it starts ----

  /** Opening a session costs the erase of sector 2 and the pieces of the first block. */
  lemma NewCost(d: Digest, m: Mem, buf: seq<Byte>)
    ensures var o := New(m, buf, true);
      o.Opened? ==> Remaining(d, o.prog) == 1 + ChunkCount(APPLICATION_REGION_START, |buf|)
  {
  }

  /** A further block costs its pieces, and one erase exactly if it ends in a new sector. */
  lemma UpdateCost(d: Digest, m: Mem, p: Prog, buf: seq<Byte>)
    requires InSession(d, m, p) && p.state.AwaitData? && buf != []
    requires p.addr + |buf| <= MANIFEST_REGION_START
    ensures var t := Update(m, p, buf, true);
      t.out.Pending? ==> Remaining(d, t.prog) == BlockCost(p.sector, p.addr, |buf|)
  {
    if |buf| <= TRANSFER_SIZE { IssueCost(d, m, p, buf, 0); }
  }

  /** Finalising from sector k costs the erases of sectors k+1 to 7 and the manifest words. */
  lemma FinalizeCost(d: Digest, m: Mem, p: Prog)
    requires InSession(d, m, p) && p.state.AwaitData?
    ensures var t := Finalize(d, m, p, true);
      t.out.Pending? && Remaining(d, t.prog) == ManifestCost(d, p.sector)
  {
    ManifestRegion(d);
    AwaitDataComplete(d, m, p);
    ManifestIssue(d, m, p, true);
  }

  // ---- blocks of any fate ----

  /** How much of a block fits below the manifest. */
  function Room(addr: int, len: nat): nat {
    if addr + len <= MANIFEST_REGION_START then len
    else if addr <= MANIFEST_REGION_START then MANIFEST_REGION_START - addr
    else 0
  }

  /** The operations still to complete before the pending block is decided, one way or the other. */
  function Ahead(p: Prog): nat {
    match p.state
    case AwaitEraseBeforeProgram(_, _) => 1 + ChunkCount(p.addr, Room(p.addr, |PendingBytes(p)|))
    case AwaitProgram(_, _) => BlockCost(p.sector, p.addr, Room(p.addr, |PendingBytes(p)|))
    case _ => 0
  }

  /** A block that runs into the manifest is cut like the part of it that fits. */
  lemma RoomStep(addr: int, len: nat)
    requires addr < MANIFEST_REGION_START && 0 < ChunkSize(addr, len) <= len
    ensures var n := ChunkSize(addr, len);
      && ChunkSize(addr, Room(addr, len)) == n <= Room(addr, len)
      && Room(addr + n, len - n) == Room(addr, len) - n
  {
  }

  /** Where no piece can be cut nothing is left to complete. */
  lemma StuckCost(sector: SectorId, addr: int, len: nat)
    requires TryFrom(addr) == Ok(sector) && addr < MANIFEST_REGION_START && len > 0 && Uncuttable(addr, len)
    ensures BlockCost(sector, addr, Room(addr, len)) == 0
  {
    UncuttableEnd(addr, len);
    assert len == 1;
  }

  /** From the end of a sector on every byte lies in another one. */
  lemma CrossesHere(sector: SectorId, addr: int, n: nat)
    requires SectorStart(sector) <= addr <= SectorEnd(sector) && TryFrom(addr) != Ok(sector) && n > 0
    ensures Crossing(sector, addr, n) == 1
  {
    hide TryFrom, SectorStart, SectorLength;
    TryFromRefinesTable(addr);
    TryFromRefinesTable(addr + n - 1);
    assert !InSector(addr, sector);
    assert !InSector(addr + n - 1, sector);
  }

  lemma IssueAhead(m: Mem, p: Prog, data: seq<Byte>, wr: nat)
    requires wr < |data| <= TRANSFER_SIZE && p.addr <= MANIFEST_REGION_START
    requires SectorStart(p.sector) <= p.addr <= SectorEnd(p.sector) && p.sector >= 2
    ensures var t := EraseOrProgram(m, p, data, wr, true);
      var cost := BlockCost(p.sector, p.addr, Room(p.addr, |data| - wr));
      if t.out.Pending? then Ahead(t.prog) == cost else cost == 0
  {
    hide ChunkSize, ChunkCount, TryFrom, SectorStart, SectorLength, StartProgram, Uncuttable;
    var len := |data| - wr;
    var t := EraseOrProgram(m, p, data, wr, true);
    IssueCases(m, p, data, wr);
    if t.out.Panicked? {
      StuckCost(p.sector, p.addr, len);
    } else if t.out.Failed? {
      NoRoomLeft(p.sector, p.addr);
    } else if TryFrom(p.addr) != Ok(p.sector) {
      CrossesHere(p.sector, p.addr, Room(p.addr, len));
    }
  }

  lemma IssueCases(m: Mem, p: Prog, data: seq<Byte>, wr: nat)
    requires wr < |data| && p.addr <= MANIFEST_REGION_START
    ensures var t := EraseOrProgram(m, p, data, wr, true);
      && !t.out.Ready?
      && (t.out.Failed? ==> p.addr == MANIFEST_REGION_START)
      && (t.out.Panicked? ==> && p.addr < MANIFEST_REGION_START && TryFrom(p.addr) == Ok(p.sector)
                              && Uncuttable(p.addr, |data| - wr))
      && (t.out.Pending? ==>
            && p.addr < MANIFEST_REGION_START && t.prog.addr == p.addr && PendingBytes(t.prog) == data[wr..]
            && (if TryFrom(p.addr) == Ok(p.sector) then t.prog.state.AwaitProgram? && t.prog.sector == p.sector
                else t.prog.state.AwaitEraseBeforeProgram?))
  {
    hide TryFrom, ChunkSize;
    IssueOutcome(m, p, data, wr, true);
    TryFromRefinesTable(p.addr);
  }

  lemma NoRoomLeft(sector: SectorId, addr: int)
    ensures BlockCost(sector, addr, Room(addr, 0)) == 0
    ensures addr == MANIFEST_REGION_START ==> forall len :: BlockCost(sector, addr, Room(addr, len)) == 0
  {
  }

  /** Either one operation less is ahead, or this was the last. */
  predicate Closer(p: Prog, t: Turn) {
    if t.out.Pending? && PendingBytes(t.prog) != [] then Ahead(t.prog) + 1 == Ahead(p) else Ahead(p) == 1
  }

  lemma ErasedCloser(d: Digest, m: Mem, p: Prog, m1: Mem)
    requires InSession(d, m, p) && p.state.AwaitEraseBeforeProgram? && Completed(m, m1) && PendingBytes(p) != []
    ensures Closer(p, Continue(d, m1, p, 0, true))
  {
    hide Kept, Chunkable, ChunkCount, Surroundings, Ordered, Replay, Conserved;
    SectorsTile(p.sector);
    PollBlockErased(d, m, p, m1, true);
    assert p.addr % 4 == 0 && p.addr < MANIFEST_REGION_START;
    TryFromRefinesTable(p.addr + Room(p.addr, |PendingBytes(p)|) - 1);
  }

  lemma WrittenCloser(d: Digest, m: Mem, p: Prog, m1: Mem, n: nat)
    requires InSession(d, m, p) && p.state.AwaitProgram? && Completed(m, m1)
    requires n == ChunkSize(p.addr, |PendingBytes(p)|)
    ensures Closer(p, Continue(d, m1, p, n, true))
  {
    hide ChunkSize, ChunkCount, BlockCost, Kept, Chunkable, Surroundings, Ordered, Replay, Conserved, Aligned, Room,
      EraseOrProgram;
    var len := |PendingBytes(p)|;
    RoomStep(p.addr, len);
    BlockCostStep(p.sector, p.addr, Room(p.addr, len));
    ChunkAligned(p.addr, len);
    if n == len {
      PollLastChunk(d, m, p, m1, n, true);
      NoRoomLeft(p.sector, p.addr + n);
    } else {
      SectorsTile(p.sector);
      IssueAhead(m1, p.(addr := p.addr + n), p.state.data, p.state.wr + n);
      PollMoreChunks(d, m, p, m1, n, true);
      var p1 := p.(addr := p.addr + n);
      assert Continue(d, m1, p, n, true) == EraseOrProgram(m1, p1, p.state.data, p.state.wr + n, true);
    }
  }

  lemma CleanCloser(d: Digest, m: Mem, p: Prog)
    requires InSession(d, m, p) && Receiving(p) && PendingBytes(p) != []
    ensures Closer(p, PollProgram(d, m, p, Clean, true))
  {
    CleanReady(d, m, p);
    var q := PollDriver(m, Clean);
    hide Closer, Continue;
    if p.state.AwaitEraseBeforeProgram? { ErasedCloser(d, m, p, q.mem); }
    else { WrittenCloser(d, m, p, q.mem, q.out.n); }
  }

  /** Under every schedule a block, whatever becomes of it, is decided after exactly as many
      completions as it had ahead. */
  lemma {:induction false} DriveDecided(d: Digest, m: Mem, p: Prog, replies: seq<Reply>)
    requires InSession(d, m, p) && Receiving(p) && PendingBytes(p) != [] && FaultFree(replies)
    ensures Decided(Drive(d, m, p, replies)) <==> Completions(replies) >= Ahead(p)
    decreases |replies|
  {
    hide InSession, Full, PollProgram, PendingBytes, Effort, Drive, Ahead, Receiving;
    EffortPositive(p);
    AheadPositive(d, m, p);
    if replies == [] {
      DriveStops(d, m, p);
    } else {
      var t := PollProgram(d, m, p, replies[0], true);
      DriveUnfolds(d, m, p, replies);
      if replies[0].Busy? {
        BusyWaits(d, m, p, true);
        DriveDecided(d, m, p, replies[1..]);
      } else {
        CleanStep(d, m, p);
        CleanCloser(d, m, p);
        if t.out.Pending? {
          if PendingBytes(t.prog) != [] { DriveDecided(d, t.mem, t.prog, replies[1..]); }
          else { DriveRests(d, t.mem, t.prog, replies[1..]); }
        }
      }
    }
  }

  lemma AheadPositive(d: Digest, m: Mem, p: Prog)
    requires InSession(d, m, p) && Receiving(p) && PendingBytes(p) != []
    ensures Ahead(p) > 0
  {
    CleanCloser(d, m, p);
  }
}
