/** The invariant that ties the programming machine, the flash driver and the contents
    of flash together in a download session. It holds whatever the controller answers,
    as long as no step has failed. */
module Session {
  import opened Bytes
  import opened Dfu
  import opened Platform
  import opened FlashSpec
  import opened ProgramSpec

  // ---- the order of flash operations ----

  /** How far a session has got: the last sector erased and the end of the last write. */
  datatype Front = Nowhere | Front(erased: nat, next: int)

  /** An operation is in order when it erases the sector after the last one erased, ahead of
      everything written; or writes 1, 2 or 4 aligned bytes into the last erased sector, where
      the last write ended. Only the first manifest byte may skip ahead, and only once
      sector 7 is erased. */
  function Advance(fr: Front, op: FlashOp): Front {
    if fr.Nowhere? then Nowhere
    else match op
      case EraseOp(s) =>
        if s == fr.erased + 1 && fr.next <= SectorStart(s) then Front(s, fr.next) else Nowhere
      case WriteOp(a, bytes) =>
        if && Aligned(a, |bytes|)
           && (a == fr.next || (a == MANIFEST_REGION_START && fr.next <= a && fr.erased == 7))
           && fr.erased < 8 && SectorStart(fr.erased) <= a && a + |bytes| <= SectorEnd(fr.erased)
           && (a < MANIFEST_REGION_START ==> a + |bytes| <= MANIFEST_REGION_START)
        then Front(fr.erased, a + |bytes|) else Nowhere
  }

  function Replay(ops: seq<FlashOp>): Front {
    if ops == [] then Front(1, APPLICATION_REGION_START)
    else Advance(Replay(ops[..|ops| - 1]), ops[|ops| - 1])
  }

  lemma ReplaySnoc(ops: seq<FlashOp>, op: FlashOp)
    ensures Replay(ops + [op]) == Advance(Replay(ops), op)
  {
    assert (ops + [op])[..|ops|] == ops;
  }

  function SessionOps(m: Mem, h: History): seq<FlashOp> {
    if h.mark <= |m.log| then m.log[h.mark..] else []
  }

  // ---- the invariant ----

  function PendingBytes(p: Prog): seq<Byte> {
    match p.state
    case AwaitEraseBeforeProgram(data, wr) => if wr <= |data| then data[wr..] else []
    case AwaitProgram(data, wr) => if wr <= |data| then data[wr..] else []
    case _ => []
  }

  predicate Receiving(p: Prog) {
    p.state.AwaitData? || p.state.AwaitEraseBeforeProgram? || p.state.AwaitProgram?
  }

  predicate WellBuffered(st: ProgramState) {
    match st
    case AwaitEraseBeforeProgram(data, wr) => wr <= |data| <= TRANSFER_SIZE
    case AwaitProgram(data, wr) => wr < |data| <= TRANSFER_SIZE
    case _ => true
  }

  /** The operation the driver is busy with is the one the program waits for. */
  predicate InStep(d: Digest, m: Mem, p: Prog) {
    match p.state
    case AwaitData => m.state == DriverIdle
    case AwaitEraseBeforeProgram(_, _) => m.state == Erasing(p.sector)
    case AwaitProgram(_, _) =>
      var n := ChunkSize(p.addr, |PendingBytes(p)|);
      && 0 < n <= |PendingBytes(p)|
      && m.state == DriverState.Programming(p.addr, PendingBytes(p)[..n])
    case AwaitErase => m.state == Erasing(p.sector)
    case AwaitProgramManifest(data, wr) =>
      && wr % 4 == 0 && wr + 4 <= |data|
      && m.state == DriverState.Programming(p.addr, data[wr..wr + 4])
    case Done => m.state == DriverIdle
  }

  /** Where application bytes end in flash. */
  function Frontier(p: Prog): int {
    if Receiving(p) then p.addr else APPLICATION_REGION_START + |p.hist.accepted|
  }

  /** Every accepted byte is either in flash, in place, or still pending: none is lost,
      duplicated or moved. */
  predicate Conserved(m: Mem, p: Prog) {
    var written := Frontier(p) - APPLICATION_REGION_START;
    && Frontier(p) <= MANIFEST_REGION_START
    && written + |PendingBytes(p)| == |p.hist.accepted|
    && p.hist.accepted[written..] == PendingBytes(p)
    && Holds(m.flash, APPLICATION_REGION_START, p.hist.accepted[..written])
  }

  /** The sector an erase is running on is not blank yet. */
  predicate ErasingNow(p: Prog) { p.state.AwaitEraseBeforeProgram? || p.state.AwaitErase? }

  function BlankEnd(p: Prog): int {
    if ErasingNow(p) then SectorStart(p.sector) else SectorEnd(p.sector)
  }

  /** From the frontier to the end of the last erased sector flash is blank (but for the
      manifest); beyond it, and below the application, it is as the session found it. */
  predicate Surroundings(d: Digest, m: Mem, p: Prog) {
    && SameOn(m.flash, p.hist.origin, FLASH_BASE, APPLICATION_REGION_START)
    && SameOn(m.flash, p.hist.origin, BlankEnd(p), FLASH_END)
    && match p.state {
         case AwaitProgramManifest(data, wr) =>
           && Blank(m.flash, Frontier(p), MANIFEST_REGION_START)
           && Holds(m.flash, MANIFEST_REGION_START, data[..if wr <= |data| then wr else 0])
           && Blank(m.flash, MANIFEST_REGION_START + wr, FLASH_END)
         case Done =>
           && Blank(m.flash, Frontier(p), MANIFEST_REGION_START)
           && Holds(m.flash, MANIFEST_REGION_START, Manifest(d, p))
           && Blank(m.flash, MANIFEST_REGION_START + |Manifest(d, p)|, FLASH_END)
         case _ => Blank(m.flash, Frontier(p), BlankEnd(p))
       }
  }

  function Manifest(d: Digest, p: Prog): seq<Byte> {
    ManifestBytes(d, |p.hist.accepted|, p.hist.accepted)
  }

  /** Where the address and the sector stand relative to each other in each phase. */
  predicate Positioned(d: Digest, p: Prog) {
    && p.sector >= 2
    && match p.state {
         case AwaitData => SectorStart(p.sector) <= p.addr <= SectorEnd(p.sector)
         case AwaitEraseBeforeProgram(_, _) => p.addr == SectorStart(p.sector)
         case AwaitProgram(_, _) => p.addr < MANIFEST_REGION_START && InSector(p.addr, p.sector)
         case AwaitErase => Frontier(p) <= SectorStart(p.sector) && p.addr == Frontier(p)
         case AwaitProgramManifest(data, wr) =>
           p.sector == 7 && p.addr == MANIFEST_REGION_START + wr && data == Manifest(d, p)
         case Done => p.sector == 7 && p.addr == MANIFEST_REGION_START + ManifestSize(d)
       }
  }

  /** The operations of the session so far are in order, up to the one in flight. */
  predicate Ordered(m: Mem, p: Prog) {
    && p.hist.mark <= |m.log|
    && Replay(SessionOps(m, p.hist)) == Front(p.sector, if m.state.Programming? then TargetHi(m.state) else p.addr)
  }

  predicate InSession(d: Digest, m: Mem, p: Prog) {
    && WellBuffered(p.state)
    && InStep(d, m, p)
    && Conserved(m, p)
    && Positioned(d, p)
    && Surroundings(d, m, p)
    && Ordered(m, p)
  }

  // ---- steps that start an operation ----

  /** `p` is what `idle` becomes once `rest` is accepted on top. */
  predicate Accepts(idle: Prog, p: Prog, rest: seq<Byte>) {
    && idle.state.AwaitData? && p.sector == idle.sector && p.addr == idle.addr
    && p.hist == idle.hist.(accepted := idle.hist.accepted + rest)
  }

  lemma LogGrows(m: Mem, m1: Mem, h: History, op: FlashOp)
    requires h.mark <= |m.log| && m1.log == m.log + [op]
    ensures Replay(SessionOps(m1, h)) == Advance(Replay(SessionOps(m, h)), op)
  {
    assert SessionOps(m1, h) == SessionOps(m, h) + [op];
    ReplaySnoc(SessionOps(m, h), op);
  }

  lemma AcceptConserves(d: Digest, m: Mem, idle: Prog, p: Prog, rest: seq<Byte>)
    requires InSession(d, m, idle) && Accepts(idle, p, rest)
    requires Receiving(p) && PendingBytes(p) == rest
    ensures Conserved(m, p)
  {
    var written := p.addr - APPLICATION_REGION_START;
    assert p.hist.accepted[..written] == idle.hist.accepted[..written];
    assert p.hist.accepted[written..] == rest;
  }

  lemma IssueErase(d: Digest, m: Mem, idle: Prog, p: Prog)
    requires InSession(d, m, idle) && p.state.AwaitEraseBeforeProgram? && WellBuffered(p.state)
    requires Accepts(idle.(sector := p.sector), p, PendingBytes(p))
    requires TryFrom(p.addr) == Ok(p.sector) && p.sector != idle.sector && p.addr < MANIFEST_REGION_START
    ensures InSession(d, StartErase(m, p.sector, true).mem, p)
  {
    TryFromRefinesTable(p.addr);
    SectorsTile(idle.sector);
    assert p.sector == idle.sector + 1 && p.addr == SectorStart(p.sector);
    var m1 := StartErase(m, p.sector, true).mem;
    LogGrows(m, m1, p.hist, EraseOp(p.sector));
    var written := p.addr - APPLICATION_REGION_START;
    assert p.hist.accepted[..written] == idle.hist.accepted[..written];
    assert p.hist.accepted[written..] == PendingBytes(p);
  }

  lemma IssueProgram(d: Digest, m: Mem, idle: Prog, p: Prog)
    requires InSession(d, m, idle) && p.state.AwaitProgram? && WellBuffered(p.state)
    requires Accepts(idle, p, PendingBytes(p))
    requires InSector(p.addr, p.sector) && p.addr < MANIFEST_REGION_START
    requires 0 < ChunkSize(p.addr, |PendingBytes(p)|) <= |PendingBytes(p)|
    ensures InSession(d, StartProgram(m, p.addr, PendingBytes(p), true).mem, p)
  {
    hide Holds, Blank, SameOn, SectorLength, Replay, Aligned;
    var n := ChunkSize(p.addr, |PendingBytes(p)|);
    ChunkAligned(p.addr, |PendingBytes(p)|);
    var m1 := StartProgram(m, p.addr, PendingBytes(p), true).mem;
    AcceptConserves(d, m, idle, p, PendingBytes(p));
    ConservedIn(m, m1, p);
    IssueOrdered(m, m1, idle, p, PendingBytes(p)[..n]);
    hide Conserved, Ordered, ChunkSize, SectorStart;
  }

  lemma IssueOrdered(m: Mem, m1: Mem, idle: Prog, p: Prog, piece: seq<Byte>)
    requires Ordered(m, idle) && m.state == DriverIdle
    requires m1 == Mem(m.flash, DriverState.Programming(p.addr, piece), m.log + [WriteOp(p.addr, piece)])
    requires p.hist.mark == idle.hist.mark && p.sector == idle.sector && p.addr == idle.addr
    requires Aligned(p.addr, |piece|) && SectorStart(p.sector) <= p.addr && p.addr + |piece| <= SectorEnd(p.sector)
    requires p.addr < MANIFEST_REGION_START ==> p.addr + |piece| <= MANIFEST_REGION_START
    ensures Ordered(m1, p)
  {
    hide SectorStart, SectorLength, Replay, Aligned;
    LogGrows(m, m1, p.hist, WriteOp(p.addr, piece));
    assert SessionOps(m, p.hist) == SessionOps(m, idle.hist);
  }

  lemma ConservedIn(m: Mem, m1: Mem, p: Prog)
    requires Conserved(m, p) && m1.flash == m.flash
    ensures Conserved(m1, p)
  {
  }

  /** Going on with data[wr..] from a point where everything accepted before it is in place. */
  lemma IssueKeeps(d: Digest, m: Mem, idle: Prog, p: Prog, data: seq<Byte>, wr: nat)
    requires InSession(d, m, idle) && wr <= |data| <= TRANSFER_SIZE && Accepts(idle, p, data[wr..])
    ensures var t := EraseOrProgram(m, p, data, wr, true);
      t.out.Pending? ==>
        && InSession(d, t.mem, t.prog) && Receiving(t.prog) && !t.prog.state.AwaitData?
        && PendingBytes(t.prog) == data[wr..] && t.prog.addr == p.addr && t.prog.hist == p.hist
  {
    var t := EraseOrProgram(m, p, data, wr, true);
    if t.out.Pending? {
      TryFromRefinesTable(p.addr);
      if t.prog.sector == p.sector {
        IssueProgram(d, m, idle, t.prog);
      } else {
        IssueErase(d, m, idle, t.prog);
      }
    }
  }

  /** What issuing the next operation comes to, and that nothing is lost when it fails. */
  lemma IssueOutcome(m: Mem, p: Prog, data: seq<Byte>, wr: nat, unlocked: bool)
    requires wr <= |data| && p.addr <= MANIFEST_REGION_START
    ensures var t := EraseOrProgram(m, p, data, wr, unlocked);
      var n := ChunkSize(p.addr, |data| - wr);
      && t.prog.hist == p.hist && t.mem.flash == m.flash && !t.out.Ready?
      && (t.out.Failed? <==> p.addr == MANIFEST_REGION_START || !unlocked)
      && (t.out.Failed? ==> t.mem == m && t.out.error == if p.addr == MANIFEST_REGION_START then Address else Write)
      && (t.out.Panicked? <==> unlocked && p.addr < MANIFEST_REGION_START && TryFrom(p.addr) == Ok(p.sector)
                               && !(0 < n <= |data| - wr))
      && (t.out.Panicked? ==> t.mem.log == m.log)
      && (t.out.Panicked? ==> t.mem.state == m.state || (t.mem.state == Stray(p.addr) && p.addr % 4 == 2))
  {
    TryFromRefinesTable(p.addr);
  }

  // ---- steps that complete one ----

  /** p with everything still pending forgotten: what the session amounts to once the
      operation in flight has succeeded. */
  function Written(p: Prog, n: nat): Prog {
    Prog(p.sector, p.addr + n, AwaitData,
         p.hist.(accepted := Prefix(p.hist.accepted, p.addr + n - APPLICATION_REGION_START)))
  }

  lemma ErasedForBlock(d: Digest, m: Mem, m1: Mem, p: Prog)
    requires InSession(d, m, p) && p.state.AwaitEraseBeforeProgram? && Completed(m, m1)
    ensures InSession(d, m1, Written(p, 0))
    ensures Accepts(Written(p, 0), p, PendingBytes(p))
  {
    hide SectorStart, SectorLength, Replay, ChunkSize, Holds;
    SectorsTile(p.sector);
    ErasedConserves(m, m1, p);
    ErasedFlash(m, m1, p.sector, p.addr, p.hist.origin);
    assert SessionOps(m1, p.hist) == SessionOps(m, p.hist);
    hide Conserved, Completed, Blank, SameOn;
  }

  /** What a verified erase leaves: blank where it was, and the rest as it was. */
  lemma ErasedFlash(m: Mem, m1: Mem, s: SectorId, from: int, origin: Flash)
    requires Completed(m, m1) && m.state == Erasing(s)
    requires APPLICATION_REGION_START <= SectorStart(s) <= SectorEnd(s) && from <= SectorStart(s)
    requires Blank(m.flash, from, SectorStart(s))
    requires SameOn(m.flash, origin, FLASH_BASE, APPLICATION_REGION_START)
    requires SameOn(m.flash, origin, SectorStart(s), FLASH_END)
    ensures Blank(m1.flash, from, SectorEnd(s))
    ensures SameOn(m1.flash, origin, FLASH_BASE, APPLICATION_REGION_START)
    ensures SameOn(m1.flash, origin, SectorEnd(s), FLASH_END)
  {
    hide SectorStart, SectorLength, Holds;
  }

  lemma ErasedConserves(m: Mem, m1: Mem, p: Prog)
    requires p.state.AwaitEraseBeforeProgram? && WellBuffered(p.state) && Conserved(m, p)
    requires Completed(m, m1) && m.state == Erasing(p.sector) && p.addr <= SectorStart(p.sector)
    ensures Conserved(m1, Written(p, 0))
    ensures Accepts(Written(p, 0), p, PendingBytes(p))
  {
    hide Holds, SectorStart, SectorLength;
    var accepted, k := p.hist.accepted, p.addr - APPLICATION_REGION_START;
    HoldsCarries(m.flash, m1.flash, APPLICATION_REGION_START, accepted[..k]);
    assert accepted[..k][..k] == accepted[..k] && accepted == accepted[..k] + accepted[k..];
  }

  /** Another piece of a sequence that lies in flash up to k. */
  lemma HoldsMore(f: Flash, g: Flash, at: int, s: seq<Byte>, k: nat, n: nat)
    requires k + n <= |s| && Holds(f, at, s[..k]) && SameOn(g, f, at, at + k) && Holds(g, at + k, s[k..k + n])
    ensures Holds(g, at, s[..k + n])
  {
    assert s[..k + n] == s[..k] + s[k..k + n];
    HoldsCarries(f, g, at, s[..k]);
    HoldsJoin(g, at, s[..k], s[k..k + n]);
  }

  lemma WrittenConserves(d: Digest, m: Mem, m1: Mem, p: Prog, n: nat)
    requires InSession(d, m, p) && p.state.AwaitProgram? && Completed(m, m1)
    requires n == ChunkSize(p.addr, |PendingBytes(p)|)
    ensures Conserved(m1, Written(p, n))
    ensures Accepts(Written(p, n), p.(addr := p.addr + n), PendingBytes(p)[n..])
  {
    ChunkAligned(p.addr, |PendingBytes(p)|);
    hide ChunkSize, Aligned, Surroundings, Ordered, Conserved, Completed;
    ConservesMore(m, m1, p, n);
  }

  lemma ConservesMore(m: Mem, m1: Mem, p: Prog, n: nat)
    requires p.state.AwaitProgram? && Conserved(m, p) && Completed(m, m1) && n <= |PendingBytes(p)|
    requires m.state == DriverState.Programming(p.addr, PendingBytes(p)[..n]) && p.addr + n <= MANIFEST_REGION_START
    ensures Conserved(m1, Written(p, n))
    ensures Accepts(Written(p, n), p.(addr := p.addr + n), PendingBytes(p)[n..])
  {
    hide Holds;
    var k := p.addr - APPLICATION_REGION_START;
    TailSplits(p.hist.accepted, PendingBytes(p), k, n);
    HoldsMore(m.flash, m1.flash, APPLICATION_REGION_START, p.hist.accepted, k, n);
    assert p.hist.accepted[..k + n][..k + n] == p.hist.accepted[..k + n];
  }

  lemma TailSplits(s: seq<Byte>, tail: seq<Byte>, k: nat, n: nat)
    requires k <= |s| && s[k..] == tail && n <= |tail|
    ensures s[k..k + n] == tail[..n] && s[k + n..] == tail[n..] && s == s[..k + n] + tail[n..]
  {
  }

  /** After a piece the address is still in the last erased sector, or at its end. */
  lemma ChunkInSector(addr: int, len: nat, s: SectorId)
    requires InSector(addr, s) && 0 < ChunkSize(addr, len) <= len
    ensures SectorStart(s) <= addr + ChunkSize(addr, len) <= SectorEnd(s)
  {
    hide ChunkSize, TryFrom, SectorStart, SectorLength;
    ChunkStep(addr, len, s);
    SectorsTile(s);
    TryFromRefinesTable(addr + ChunkSize(addr, len));
  }

  lemma WrittenChunk(d: Digest, m: Mem, m1: Mem, p: Prog, n: nat)
    requires InSession(d, m, p) && p.state.AwaitProgram? && Completed(m, m1)
    requires n == ChunkSize(p.addr, |PendingBytes(p)|)
    ensures InSession(d, m1, Written(p, n))
    ensures Accepts(Written(p, n), p.(addr := p.addr + n), PendingBytes(p)[n..])
  {
    ChunkInSector(p.addr, |PendingBytes(p)|, p.sector);
    WrittenConserves(d, m, m1, p, n);
    assert SessionOps(m1, p.hist) == SessionOps(m, p.hist);
  }

  /** All accepted bytes are in place and flash is blank up to the end of the last erased
      sector: the next sector can be erased, or the manifest written. */
  predicate Complete(m: Mem, p: Prog) {
    && m.state == DriverIdle
    && p.sector >= 2
    && p.addr == APPLICATION_REGION_START + |p.hist.accepted|
    && p.addr <= MANIFEST_REGION_START && p.addr <= SectorEnd(p.sector)
    && Holds(m.flash, APPLICATION_REGION_START, p.hist.accepted)
    && Blank(m.flash, p.addr, SectorEnd(p.sector))
    && SameOn(m.flash, p.hist.origin, FLASH_BASE, APPLICATION_REGION_START)
    && SameOn(m.flash, p.hist.origin, SectorEnd(p.sector), FLASH_END)
    && p.hist.mark <= |m.log|
    && Replay(SessionOps(m, p.hist)) == Front(p.sector, p.addr)
  }

  lemma AwaitDataComplete(d: Digest, m: Mem, p: Prog)
    requires InSession(d, m, p) && p.state.AwaitData?
    ensures Complete(m, p)
  {
    assert p.hist.accepted[..|p.hist.accepted|] == p.hist.accepted;
  }

  lemma ErasedComplete(d: Digest, m: Mem, m1: Mem, p: Prog)
    requires InSession(d, m, p) && p.state.AwaitErase? && Completed(m, m1)
    ensures Complete(m1, p)
  {
    hide SectorStart, SectorLength, Replay;
    SectorsTile(p.sector);
    ErasedFlash(m, m1, p.sector, p.addr, p.hist.origin);
    assert p.hist.accepted[..|p.hist.accepted|] == p.hist.accepted;
    HoldsCarries(m.flash, m1.flash, APPLICATION_REGION_START, p.hist.accepted);
    assert SessionOps(m1, p.hist) == SessionOps(m, p.hist);
    hide Blank, SameOn, Holds;
  }

  lemma FinalErase(d: Digest, m: Mem, p: Prog)
    requires Complete(m, p) && p.sector < 7
    ensures var t := EraseOrProgramManifest(d, m, p, true);
      t.out.Pending? && t.prog.state.AwaitErase? && InSession(d, t.mem, t.prog)
  {
    SectorsTile(p.sector);
    assert p.hist.accepted[..|p.hist.accepted|] == p.hist.accepted;
    LogGrows(m, EraseOrProgramManifest(d, m, p, true).mem, p.hist, EraseOp(p.sector + 1));
  }

  lemma StartManifest(d: Digest, m: Mem, p: Prog)
    requires Complete(m, p) && p.sector == 7
    ensures var t := EraseOrProgramManifest(d, m, p, true);
      && t.out.Pending? && t.prog.state == AwaitProgramManifest(Manifest(d, p), 0)
      && InSession(d, t.mem, t.prog)
  {
    assert p.hist.accepted[..|p.hist.accepted|] == p.hist.accepted;
    HeldApplication(m.flash, p.hist.accepted);
    var manifest := Manifest(d, p);
    var t := EraseOrProgramManifest(d, m, p, true);
    assert manifest[..4] == manifest[0..4];
    LogGrows(m, t.mem, p.hist, WriteOp(MANIFEST_REGION_START, manifest[..4]));
  }

  /** Finalisation goes on: erase the next sector, or start the manifest. */
  lemma ManifestIssue(d: Digest, m: Mem, p: Prog, unlocked: bool)
    requires Complete(m, p)
    ensures var t := EraseOrProgramManifest(d, m, p, unlocked);
      && t.prog.hist == p.hist && t.mem.flash == m.flash
      && (unlocked ==> && t.out.Pending? && InSession(d, t.mem, t.prog)
                       && (if p.sector < 7 then t.prog.state.AwaitErase? && t.prog.sector == p.sector + 1
                           else t.prog.state == AwaitProgramManifest(Manifest(d, p), 0)))
      && (!unlocked ==> t.out == Failed(Write) && t.mem == m)
  {
    if unlocked {
      if p.sector < 7 { FinalErase(d, m, p); } else { StartManifest(d, m, p); }
    }
  }

  /** What flash holds once another manifest word is in place. */
  lemma ManifestGrows(d: Digest, m: Mem, m1: Mem, p: Prog)
    requires InSession(d, m, p) && p.state.AwaitProgramManifest? && Completed(m, m1)
    ensures Conserved(m1, p)
    ensures Holds(m1.flash, MANIFEST_REGION_START, p.state.data[..p.state.wr + 4])
    ensures Blank(m1.flash, MANIFEST_REGION_START + p.state.wr + 4, FLASH_END)
    ensures Blank(m1.flash, Frontier(p), MANIFEST_REGION_START)
    ensures SameOn(m1.flash, p.hist.origin, FLASH_BASE, APPLICATION_REGION_START)
  {
    HoldsMore(m.flash, m1.flash, MANIFEST_REGION_START, p.state.data, p.state.wr, 4);
  }

  lemma ManifestChunk(m: Mem, manifest: seq<Byte>, wr: nat)
    requires wr % 4 == 0 && wr + 4 <= |manifest|
    ensures (MANIFEST_REGION_START + wr) % 4 == 0
    ensures var bytes := manifest[wr..wr + 4];
      StartProgram(m, MANIFEST_REGION_START + wr, manifest[wr..], true)
      == Driven(Mem(m.flash, DriverState.Programming(MANIFEST_REGION_START + wr, bytes),
                    m.log + [WriteOp(MANIFEST_REGION_START + wr, bytes)]), Pending)
  {
    assert manifest[wr..][..4] == manifest[wr..wr + 4];
  }

  lemma ManifestAdvance(at: int, bytes: seq<Byte>)
    requires MANIFEST_REGION_START <= at && at % 4 == 0 && |bytes| == 4 && at + 4 <= FLASH_END
    ensures Advance(Front(7, at), WriteOp(at, bytes)) == Front(7, at + 4)
  {
  }

  lemma NextWordOrdered(d: Digest, m: Mem, m1: Mem, p: Prog)
    requires InSession(d, m, p) && p.state.AwaitProgramManifest? && Completed(m, m1)
    requires p.state.wr + 4 < |p.state.data|
    ensures var t := Continue(d, m1, p, 4, true); Ordered(t.mem, t.prog)
  {
    hide StartProgram, Surroundings, Conserved, Advance, Replay, EraseOrProgram, EraseOrProgramManifest, Aligned;
    ManifestRegion(d);
    ManifestChunk(m1, p.state.data, p.state.wr + 4);
    var word := p.state.data[p.state.wr + 4..p.state.wr + 8];
    var t := Continue(d, m1, p, 4, true);
    assert SessionOps(m1, p.hist) == SessionOps(m, p.hist);
    LogGrows(m1, t.mem, p.hist, WriteOp(p.addr + 4, word));
    ManifestAdvance(p.addr + 4, word);
  }

  lemma NextManifestWord(d: Digest, m: Mem, m1: Mem, p: Prog)
    requires InSession(d, m, p) && p.state.AwaitProgramManifest? && Completed(m, m1)
    requires p.state.wr + 4 < |p.state.data|
    ensures var t := Continue(d, m1, p, 4, true);
      && t.out.Pending? && t.prog.state == AwaitProgramManifest(p.state.data, p.state.wr + 4)
      && InSession(d, t.mem, t.prog)
  {
    hide StartProgram, Ordered, ManifestBytes, Replay, Advance, SessionOps, EraseOrProgram, EraseOrProgramManifest;
    ManifestRegion(d);
    ManifestGrows(d, m, m1, p);
    ManifestChunk(m1, p.state.data, p.state.wr + 4);
    NextWordOrdered(d, m, m1, p);
    var t := Continue(d, m1, p, 4, true);
    assert Conserved(t.mem, t.prog);
    assert Surroundings(d, t.mem, t.prog);
  }

  lemma LastManifestWord(d: Digest, m: Mem, m1: Mem, p: Prog)
    requires InSession(d, m, p) && p.state.AwaitProgramManifest? && Completed(m, m1)
    requires p.state.wr + 4 == |p.state.data|
    ensures var t := Continue(d, m1, p, 4, true);
      t.out == Ready(0) && t.prog.state.Done? && t.mem == m1 && InSession(d, m1, t.prog)
  {
    ManifestGrows(d, m, m1, p);
    assert p.state.data[..p.state.wr + 4] == p.state.data;
    assert SessionOps(m1, p.hist) == SessionOps(m, p.hist);
  }
}
