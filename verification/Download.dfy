/** Whole download sessions on working flash: what every list of blocks comes to, under
    every schedule of busy polls. */
module Download {
  import opened Dfu
  import opened Platform
  import opened FlashSpec
  import opened ProgramSpec
  import opened Session
  import opened SessionSteps

  // ---- working flash ----

  predicate FaultFree(replies: seq<Reply>) {
    forall i :: 0 <= i < |replies| ==> !replies[i].Fault?
  }

  /** The number of operations that complete in a schedule. */
  function Completions(replies: seq<Reply>): nat {
    if replies == [] then 0 else (if replies[0].Busy? then 0 else 1) + Completions(replies[1..])
  }

  /** Working flash never fails an operation of a session: what is about to be written is
      blank, and an erase leaves its sector blank. */
  lemma CleanReady(d: Digest, m: Mem, p: Prog)
    requires InSession(d, m, p) && !p.state.AwaitData? && !p.state.Done?
    ensures PollDriver(m, Clean).out.Ready? && Completed(m, PollDriver(m, Clean).mem)
    ensures PollDriver(m, Clean).out.n == if m.state.Programming? then |m.state.src| else 0
  {
    SectorsTile(p.sector);
    if p.state.AwaitProgram? { ChunkAligned(p.addr, |PendingBytes(p)|); }
    if p.state.AwaitProgramManifest? { ManifestRegion(d); }
    CleanSucceeds(m);
    PollVerified(m, Clean);
  }

  // ---- one block ----

  /** Poll until the program waits for data or stops. */
  function Drive(d: Digest, m: Mem, p: Prog, replies: seq<Reply>): Turn
    decreases |replies|
  {
    if p.state.AwaitData? || replies == [] then Turn(m, p, Pending)
    else
      var t := PollProgram(d, m, p, replies[0], true);
      if t.out.Pending? then Drive(d, t.mem, t.prog, replies[1..]) else t
  }

  /** Enough completions to see a block through, whatever becomes of it. */
  function Effort(p: Prog): nat {
    2 * |PendingBytes(p)| + if p.state.AwaitEraseBeforeProgram? then 1 else 0
  }

  lemma EffortPositive(p: Prog)
    requires PendingBytes(p) != []
    ensures Effort(p) > 0 && !p.state.AwaitData? && !p.state.Done?
  {
  }

  /** The application region is full to the last byte and nothing beyond it was touched. */
  predicate Full(d: Digest, m: Mem, h: History) {
    && |h.accepted| >= APPLICATION_LENGTH
    && InSession(d, m, Prog(7, MANIFEST_REGION_START, AwaitData, h.(accepted := h.accepted[..APPLICATION_LENGTH])))
  }

  datatype Fate = GoesWell | Overflows | Breaks

  /** What a block that ends at `end` comes to. */
  function FateAt(end: int): Fate {
    if end > MANIFEST_REGION_START then Overflows else if end % 4 == 3 then Breaks else GoesWell
  }

  predicate MeetsFate(d: Digest, h: History, fate: Fate, t: Turn) {
    && t.prog.hist == h
    && match fate {
         case GoesWell => t.out.Pending? && InSession(d, t.mem, t.prog) && t.prog.state.AwaitData?
         case Overflows => t.out == Failed(Address) && Full(d, t.mem, h)
         case Breaks => t.out.Panicked?
       }
  }

  /** The end of a block at which no piece can be cut is 3 modulo 4, and below the manifest. */
  lemma UncuttableEnd(addr: int, len: nat)
    requires addr < MANIFEST_REGION_START && len > 0
    ensures Uncuttable(addr, len) ==> (addr + len) % 4 == 3 && addr + len <= MANIFEST_REGION_START
  {
  }

  lemma FilledUp(d: Digest, m: Mem, p: Prog, m1: Mem, n: nat)
    requires InSession(d, m, p) && p.state.AwaitProgram? && Completed(m, m1)
    requires n == ChunkSize(p.addr, |PendingBytes(p)|) && p.addr + n == MANIFEST_REGION_START
    ensures Full(d, m1, p.hist)
  {
    SectorsTile(p.sector);
    WrittenChunk(d, m, m1, p, n);
    assert Written(p, n).sector == 7;
  }

  /** Either more of the same block remains, or its fate is sealed. */
  predicate Progressed(d: Digest, p: Prog, t: Turn) {
    if t.out.Pending? && PendingBytes(t.prog) != [] then
      && InSession(d, t.mem, t.prog) && Receiving(t.prog) && t.prog.hist == p.hist
      && t.prog.addr + |PendingBytes(t.prog)| == p.addr + |PendingBytes(p)| && Effort(t.prog) < Effort(p)
    else MeetsFate(d, p.hist, FateAt(p.addr + |PendingBytes(p)|), t)
  }

  lemma CleanLastChunk(d: Digest, m: Mem, p: Prog, m1: Mem, n: nat)
    requires InSession(d, m, p) && p.state.AwaitProgram? && Completed(m, m1)
    requires n == ChunkSize(p.addr, |PendingBytes(p)|) == |PendingBytes(p)|
    ensures Progressed(d, p, Continue(d, m1, p, n, true))
  {
    ChunkAligned(p.addr, |PendingBytes(p)|);
    PollLastChunk(d, m, p, m1, n, true);
    assert (p.addr + n) % 4 != 3;
  }

  lemma CleanMoreChunks(d: Digest, m: Mem, p: Prog, m1: Mem, n: nat)
    requires InSession(d, m, p) && p.state.AwaitProgram? && Completed(m, m1)
    requires n == ChunkSize(p.addr, |PendingBytes(p)|) < |PendingBytes(p)|
    ensures Progressed(d, p, Continue(d, m1, p, n, true))
  {
    hide Continue, Chunkable, Aligned, Full, Conserved, Surroundings, Ordered;
    ChunkAligned(p.addr, |PendingBytes(p)|);
    PollMoreChunks(d, m, p, m1, n, true);
    hide InSession;
    if p.addr + n == MANIFEST_REGION_START { FilledUp(d, m, p, m1, n); }
    else { UncuttableEnd(p.addr + n, |PendingBytes(p)| - n); }
  }

  lemma CleanStep(d: Digest, m: Mem, p: Prog)
    requires InSession(d, m, p) && Receiving(p) && PendingBytes(p) != []
    ensures Progressed(d, p, PollProgram(d, m, p, Clean, true))
  {
    CleanReady(d, m, p);
    var m1 := PollDriver(m, Clean).mem;
    if p.state.AwaitEraseBeforeProgram? {
      SectorsTile(p.sector);
      PollBlockErased(d, m, p, m1, true);
    } else {
      var n := ChunkSize(p.addr, |PendingBytes(p)|);
      if n == |PendingBytes(p)| { CleanLastChunk(d, m, p, m1, n); } else { CleanMoreChunks(d, m, p, m1, n); }
    }
  }

  /** The program waits for data again, or has stopped. */
  predicate Decided(t: Turn) {
    !t.out.Pending? || t.prog.state.AwaitData?
  }

  /** Any block, from any point of a session, under any schedule: when it is through, its end
      address has decided what became of it; and it is through after enough completions. */
  lemma {:induction false} DriveBlock(d: Digest, m: Mem, p: Prog, replies: seq<Reply>)
    requires InSession(d, m, p) && Receiving(p) && PendingBytes(p) != [] && FaultFree(replies)
    ensures var t := Drive(d, m, p, replies);
      && (Decided(t) ==> MeetsFate(d, p.hist, FateAt(p.addr + |PendingBytes(p)|), t))
      && (Completions(replies) >= Effort(p) ==> Decided(t))
    decreases |replies|
  {
    hide InSession, Full, PollProgram, PendingBytes, Effort, Drive;
    EffortPositive(p);
    if replies == [] {
      DriveStops(d, m, p);
      return;
    }
    var t := PollProgram(d, m, p, replies[0], true);
    DriveUnfolds(d, m, p, replies);
    if replies[0].Busy? {
      BusyWaits(d, m, p, true);
      DriveBlock(d, m, p, replies[1..]);
    } else {
      CleanStep(d, m, p);
      if t.out.Pending? {
        if PendingBytes(t.prog) != [] { DriveBlock(d, t.mem, t.prog, replies[1..]); }
        else { DriveRests(d, t.mem, t.prog, replies[1..]); }
      }
    }
  }

  lemma DriveUnfolds(d: Digest, m: Mem, p: Prog, replies: seq<Reply>)
    requires !p.state.AwaitData? && replies != []
    ensures var t := PollProgram(d, m, p, replies[0], true);
      Drive(d, m, p, replies) == if t.out.Pending? then Drive(d, t.mem, t.prog, replies[1..]) else t
  {
  }

  lemma DriveStops(d: Digest, m: Mem, p: Prog)
    ensures Drive(d, m, p, []) == Turn(m, p, Pending)
  {
  }

  lemma DriveRests(d: Digest, m: Mem, p: Prog, replies: seq<Reply>)
    requires p.state.AwaitData?
    ensures Drive(d, m, p, replies) == Turn(m, p, Pending)
  {
  }
}
