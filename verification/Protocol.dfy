/** A host that follows the protocol: it downloads an image block by block, waits for each,
    ends the download and waits for the manifestation. While it waits, polls and status
    requests come in any order and after any time. */
module Protocol {
  import opened Bytes
  import opened Dfu
  import opened Platform
  import opened FlashSpec
  import opened ProgramSpec
  import opened Session
  import opened SessionSteps
  import opened Download
  import opened Counts
  import opened Install
  import opened HandlerSpec
  import opened HandlerSteps
  import opened ClassSpec
  import opened Device
  import opened Waiting

  // ---- the host ----

  /** A block, with its number, and what happens until the host goes on. */
  datatype Shipment = Shipment(number: nat, block: seq<Byte>, beats: seq<Stimulus>)

  function Block(number: nat, block: seq<Byte>, env: Env := Env(Busy, true)): Stimulus {
    Stimulus(Out(DFU_DNLOAD, number, |block|, block), env)
  }

  const END_OF_DOWNLOAD: Stimulus := Stimulus(Out(DFU_DNLOAD, 0, 0, []), Env(Busy, true))

  function SendOne(d: Digest, caps: Capabilities, dev: Device, ship: Shipment): Device {
    Run(d, caps, Move(d, caps, dev, Block(ship.number, ship.block)).dev, ship.beats)
  }

  function SendBlocks(d: Digest, caps: Capabilities, dev: Device, ships: seq<Shipment>): Device
    decreases |ships|
  {
    if ships == [] then dev else SendBlocks(d, caps, SendOne(d, caps, dev, ships[0]), ships[1..])
  }

  function HostDownload(
    d: Digest, caps: Capabilities, dev: Device, ships: seq<Shipment>, closing: seq<Stimulus>): Device
  {
    Run(d, caps, Move(d, caps, SendBlocks(d, caps, dev, ships), END_OF_DOWNLOAD).dev, closing)
  }

  /** The host goes on only when the class no longer shows dfuDNLOAD-SYNC or dfuDNBUSY. */
  predicate WaitedOut(d: Digest, caps: Capabilities, dev: Device, ships: seq<Shipment>)
    decreases |ships|
  {
    ships == []
    || var after := SendOne(d, caps, dev, ships[0]); Over(after) && WaitedOut(d, caps, after, ships[1..])
  }

  predicate Over(dev: Device) { dev.halted || !Loading(dev.cls) }

  /** The download is through: every block was waited for, and so was the manifestation. */
  predicate Through(d: Digest, caps: Capabilities, dev: Device, ships: seq<Shipment>, closing: seq<Stimulus>) {
    && WaitedOut(d, caps, dev, ships)
    && var after := HostDownload(d, caps, dev, ships, closing); after.halted || !Manifested(after.cls)
  }

  // ---- what the program gets to see ----

  /** The status readings while a block is waited for. */
  function FeedOf(caps: Capabilities, ship: Shipment): Feed {
    Feed(ship.block, Polled(caps, DfuDnloadSync, ship.beats))
  }

  function Feeds(caps: Capabilities, ships: seq<Shipment>): seq<Feed>
    decreases |ships|
  {
    if ships == [] then [] else [FeedOf(caps, ships[0])] + Feeds(caps, ships[1..])
  }

  /** The status readings of a manifestation: the first status request starts it. */
  function ManifestPolls(caps: Capabilities, beats: seq<Stimulus>): seq<Reply>
    decreases |beats|
  {
    if beats == [] then []
    else if Asks(beats[0]) then Polled(caps, DfuManifest(caps.pollTimeout), beats[1..])
    else ManifestPolls(caps, beats[1..])
  }

  /** Blocks of at most one transfer, waited for with patience, on working flash. */
  predicate Shippable(caps: Capabilities, ships: seq<Shipment>) {
    forall i :: 0 <= i < |ships| ==> Shippable1(caps, ships[i])
  }

  predicate Shippable1(caps: Capabilities, ship: Shipment) {
    AllPatient(ship.beats) && Feedable1(FeedOf(caps, ship))
  }

  /** A schedule that is certainly long enough: more than two completed operations for each byte
      in dfuDNBUSY, and a status request after them. */
  predicate Timely(caps: Capabilities, ships: seq<Shipment>) {
    forall i :: 0 <= i < |ships| ==> Timely1(caps, ships[i])
  }

  predicate Timely1(caps: Capabilities, ship: Shipment) {
    Completions(FeedOf(caps, ship).replies) > 2 * |ship.block| && AskedLast(ship.beats)
  }

  /** Patience at the end of a download, on working flash. */
  predicate Closing(caps: Capabilities, closing: seq<Stimulus>) {
    AllPatient(closing) && FaultFree(ManifestPolls(caps, closing))
  }

  function PollRound(caps: Capabilities): Stimulus { Stimulus(Tick(caps.pollTimeout), Env(Clean, true)) }

  lemma TickRound(caps: Capabilities, rest: seq<Stimulus>)
    requires caps.manifestationTolerant
    ensures Polled(caps, DfuManifest(caps.pollTimeout), [PollRound(caps)] + rest)
            == [Clean] + Polled(caps, DfuManifestSync, rest)
  {
    hide Pace, Polls, Polled;
    OneManifestRound(caps);
    PolledFirst(caps, DfuManifest(caps.pollTimeout), PollRound(caps), rest);
  }

  lemma StatusRound(caps: Capabilities, rest: seq<Stimulus>)
    requires caps.manifestationTolerant
    ensures Polled(caps, DfuManifestSync, [STATUS_REQUEST] + rest)
            == [Busy] + Polled(caps, DfuManifest(caps.pollTimeout), rest)
  {
    hide Pace, Polls, Polled;
    OneManifestRound(caps);
    PolledFirst(caps, DfuManifestSync, STATUS_REQUEST, rest);
  }

  lemma RoundsUnfold(caps: Capabilities, n: nat)
    ensures Rounds(caps, n) == [STATUS_REQUEST] + if n == 0 then [] else [PollRound(caps)] + Rounds(caps, n - 1)
  {
  }

  /** Alternating requests and polls close a download as well, one operation a round. */
  lemma {:induction false} ManifestRounds(caps: Capabilities, n: nat)
    requires caps.manifestationTolerant
    ensures Closing(caps, Rounds(caps, n)) && AskedLast(Rounds(caps, n))
    ensures Completions(ManifestPolls(caps, Rounds(caps, n))) == n
  {
    hide Pace, Polls, Rounds, Completions, FaultFree, Polled, AllPatient, AskedLast, ManifestPolls;
    RoundsComplete(caps, n);
    RoundsUnfold(caps, n);
    PolledNothing(caps, DfuManifest(caps.pollTimeout));
    NothingPolled();
    if n == 0 {
      FirstAsked(caps, []);
    } else {
      var rest := Rounds(caps, n - 1);
      FirstAsked(caps, [PollRound(caps)] + rest);
      TickRound(caps, rest);
      SyncRounds(caps, n - 1);
      BusyThenClean(Polled(caps, DfuManifestSync, rest));
    }
  }

  lemma FirstAsked(caps: Capabilities, rest: seq<Stimulus>)
    ensures ManifestPolls(caps, [STATUS_REQUEST] + rest) == Polled(caps, DfuManifest(caps.pollTimeout), rest)
  {
    hide Polled;
    assert ([STATUS_REQUEST] + rest)[1..] == rest;
  }

  lemma NothingPolled()
    ensures FaultFree([]) && Completions([]) == 0 && FaultFree([Busy]) && Completions([Busy]) == 0
  {
    assert [Busy][1..] == [];
  }

  lemma {:induction false} SyncRounds(caps: Capabilities, n: nat)
    requires caps.manifestationTolerant
    ensures var replies := Polled(caps, DfuManifestSync, Rounds(caps, n));
      FaultFree(replies) && Completions(replies) == n
  {
    hide Pace, Polls, Rounds, Completions, FaultFree, Polled;
    RoundsUnfold(caps, n);
    if n == 0 {
      StatusRound(caps, []);
      PolledNothing(caps, DfuManifest(caps.pollTimeout));
      NothingPolled();
      assert [Busy] + [] == [Busy];
    } else {
      var rest := Rounds(caps, n - 1);
      SyncRounds(caps, n - 1);
      StatusRound(caps, [PollRound(caps)] + rest);
      TickRound(caps, rest);
      BusyThenClean(Polled(caps, DfuManifestSync, rest));
    }
  }

  lemma BusyThenClean(replies: seq<Reply>)
    ensures Completions([Clean] + replies) == 1 + Completions(replies)
    ensures Completions([Busy] + ([Clean] + replies)) == 1 + Completions(replies)
    ensures FaultFree(replies) ==> FaultFree([Clean] + replies) && FaultFree([Busy] + ([Clean] + replies))
  {
    assert ([Clean] + replies)[1..] == replies && ([Busy] + ([Clean] + replies))[1..] == [Clean] + replies;
  }

  lemma OneManifestRound(caps: Capabilities)
    requires caps.manifestationTolerant
    ensures Pace(caps, DfuManifestSync, STATUS_REQUEST.ev) == DfuManifest(caps.pollTimeout)
    ensures Polls(caps, DfuManifestSync, STATUS_REQUEST.ev)
    ensures Pace(caps, DfuManifest(caps.pollTimeout), Tick(caps.pollTimeout)) == DfuManifestSync
    ensures Polls(caps, DfuManifest(caps.pollTimeout), Tick(caps.pollTimeout))
  {
  }

  // ---- sending blocks is feeding the program ----

  /** The device after the host has waited, the program having made the turn t. */
  predicate Arrived(dev: Device, t: Turn) {
    match t.out
    case Pending => Standing(dev, DfuDnloadIdle, Downloading(t.prog), t.mem)
    case Failed(e) => Standing(dev, DfuError(e), Failing, t.mem)
    case Panicked => dev.halted
    case Ready(_) => false
  }

  /** The device right after a block was handed over. */
  predicate HandedOver(dev: Device, t: Turn) {
    match t.out
    case Pending => Standing(dev, DfuDnloadSync, Downloading(t.prog), t.mem)
    case Failed(e) => Standing(dev, DfuError(e), Failing, t.mem)
    case Panicked => dev.halted
    case Ready(_) => false
  }

  lemma HandOverBlock(
    d: Digest, caps: Capabilities, dev: Device, p: Prog, m: Mem, number: nat, block: seq<Byte>)
    requires Standing(dev, DfuDnloadIdle, Downloading(p), m)
             || (Standing(dev, DfuIdle, Downloading(p), m) && caps.canDownload)
    requires block != []
    ensures HandedOver(Move(d, caps, dev, Block(number, block)).dev, Update(m, p, block, true))
  {
    UpdateNeverReady(m, p, block);
    hide Update;
  }

  lemma UpdateNeverReady(m: Mem, p: Prog, buf: seq<Byte>)
    ensures !Update(m, p, buf, true).out.Ready?
  {
  }

  /** The wait for a block that was handed over. */
  lemma {:induction false} WaitForBlock(
    d: Digest, caps: Capabilities, sent: Device, t: Turn, beats: seq<Stimulus>)
    requires HandedOver(sent, t) && AllPatient(beats)
    ensures var u := if t.out.Pending? then Drive(d, t.mem, t.prog, Polled(caps, DfuDnloadSync, beats)) else t;
      var after := Run(d, caps, sent, beats);
      !u.out.Ready? ==>
        && (Over(after) ==> Decided(u) && Arrived(after, u))
        && (Decided(u) && AskedLast(beats) ==> Over(after))
        && (Decided(u) && !u.out.Pending? ==> Over(after))
  {
    hide Run, Drive, Polled, PaceAll;
    if t.out.Pending? { AwaitIsDrive(d, caps, sent, t.prog, t.mem, beats); }
    else { PausesAreQuiet(d, caps, sent, beats); }
  }

  /** A block sent by a host that waits, to a program that waits. */
  lemma {:induction false} SendAndAwait(
    d: Digest, caps: Capabilities, dev: Device, p: Prog, m: Mem, ship: Shipment)
    requires Standing(dev, DfuDnloadIdle, Downloading(p), m)
             || (Standing(dev, DfuIdle, Downloading(p), m) && caps.canDownload)
    requires InSession(d, m, p) && p.state.AwaitData? && Shippable1(caps, ship)
    ensures var u := FeedOne(d, m, p, FeedOf(caps, ship));
      var after := SendOne(d, caps, dev, ship);
      && (Over(after) ==> Decided(u) && Arrived(after, u))
      && (Timely1(caps, ship) ==> Over(after))
      && (AskedLast(ship.beats) ==>
            (Over(after) <==> Completions(FeedOf(caps, ship).replies)
                              >= BlockCost(p.sector, p.addr, Room(p.addr, |ship.block|))))
  {
    hide InSession, Update, Drive, Run, Move, Polled, FaultFree, Completions, BlockCost, Room;
    FeedDecided(d, m, p, FeedOf(caps, ship));
    HandOverBlock(d, caps, dev, p, m, ship.number, ship.block);
    FeedBlock(d, m, p, FeedOf(caps, ship));
    var sent := Move(d, caps, dev, Block(ship.number, ship.block)).dev;
    WaitForBlock(d, caps, sent, Update(m, p, ship.block, true), ship.beats);
    NotReady(d, p.hist, FeedOf(caps, ship), FateAt(p.addr + |ship.block|), FeedOne(d, m, p, FeedOf(caps, ship)));
  }

  lemma NotReady(d: Digest, h: History, feed: Feed, fate: Fate, t: Turn)
    requires Decided(t) ==> Fed(d, h, [feed], fate, t)
    ensures !t.out.Ready?
  {
  }

  /** After an error or a panic further blocks change nothing. */
  lemma {:induction false} StoppedSends(d: Digest, caps: Capabilities, dev: Device, ships: seq<Shipment>)
    requires (dev.halted || dev.cls.DfuError?) && Shippable(caps, ships)
    ensures SendBlocks(d, caps, dev, ships) == dev && WaitedOut(d, caps, dev, ships)
    decreases |ships|
  {
    if ships != [] {
      assert Shippable1(caps, ships[0]);
      assert Move(d, caps, dev, Block(ships[0].number, ships[0].block)).dev == dev;
      PausesAreQuiet(d, caps, dev, ships[0].beats);
      StoppedSends(d, caps, dev, ships[1..]);
    }
  }

  lemma FeedsFeedable(caps: Capabilities, ships: seq<Shipment>)
    requires Shippable(caps, ships)
    ensures Feedable(Feeds(caps, ships))
    decreases |ships|
  {
    if ships != [] {
      assert Shippable1(caps, ships[0]);
      FeedsFeedable(caps, ships[1..]);
    }
  }

  /** What SendIsFeed says of a list of shipments. */
  predicate Delivered(d: Digest, caps: Capabilities, dev: Device, ships: seq<Shipment>, t: Turn) {
    && (WaitedOut(d, caps, dev, ships) ==> Decided(t) && Arrived(SendBlocks(d, caps, dev, ships), t))
    && (Timely(caps, ships) ==> WaitedOut(d, caps, dev, ships))
  }

  /** One shipment, and the rest behind it. */
  lemma {:induction false} DeliveredFirst(
    d: Digest, caps: Capabilities, dev: Device, ships: seq<Shipment>, u: Turn, t: Turn)
    requires ships != [] && Shippable(caps, ships)
    requires var after := SendOne(d, caps, dev, ships[0]);
      && (Over(after) ==> Decided(u) && Arrived(after, u))
      && (Timely1(caps, ships[0]) ==> Over(after))
      && (Over(after) && Waits(u) ==> Delivered(d, caps, after, ships[1..], t))
    requires !Waits(u) ==> t == u
    ensures Delivered(d, caps, dev, ships, t)
  {
    hide SendOne, Timely1, Shippable1;
    var after := SendOne(d, caps, dev, ships[0]);
    if Timely(caps, ships) { assert Timely1(caps, ships[0]); }
    if Over(after) && !Waits(u) { StoppedSends(d, caps, after, ships[1..]); }
  }

  lemma {:induction false} SendIsFeed(
    d: Digest, caps: Capabilities, dev: Device, p: Prog, m: Mem, ships: seq<Shipment>)
    requires Standing(dev, DfuDnloadIdle, Downloading(p), m)
             || (Standing(dev, DfuIdle, Downloading(p), m) && caps.canDownload && ships != [])
    requires InSession(d, m, p) && p.state.AwaitData? && Shippable(caps, ships)
    ensures Delivered(d, caps, dev, ships, FeedAll(d, m, p, Feeds(caps, ships)))
    decreases |ships|
  {
    hide InSession, SendOne, FeedOne, Full, Image, FeedOf, Timely1, Over, Delivered;
    if ships == [] {
      DeliveredNothing(d, caps, dev, p, m);
    } else {
      var feeds := Feeds(caps, ships);
      assert Shippable1(caps, ships[0]);
      assert feeds[1..] == Feeds(caps, ships[1..]);
      FeedAllUnfolds(d, m, p, feeds);
      SendAndAwait(d, caps, dev, p, m, ships[0]);
      FeedBlock(d, m, p, feeds[0]);
      var u := FeedOne(d, m, p, feeds[0]);
      var after := SendOne(d, caps, dev, ships[0]);
      if Over(after) && Waits(u) { SendIsFeed(d, caps, after, u.prog, u.mem, ships[1..]); }
      DeliveredFirst(d, caps, dev, ships, u, FeedAll(d, m, p, feeds));
    }
  }

  lemma DeliveredNothing(d: Digest, caps: Capabilities, dev: Device, p: Prog, m: Mem)
    requires Standing(dev, DfuDnloadIdle, Downloading(p), m) && p.state.AwaitData?
    ensures Delivered(d, caps, dev, [], FeedAll(d, m, p, Feeds(caps, [])))
  {
  }

  /** From a resting handler the first block opens a session. */
  lemma OpenOne(d: Digest, caps: Capabilities, dev: Device, m: Mem, number: nat, block: seq<Byte>)
    requires Standing(dev, DfuIdle, Resting, m) && caps.canDownload && 0 < |block| <= TRANSFER_SIZE
    ensures var o := New(m, block, true);
      && o.Opened? && HandedOver(Move(d, caps, dev, Block(number, block)).dev, Turn(o.mem, o.prog, Pending))
  {
    NewOpens(d, m, block, true);
    hide New;
  }

  lemma {:induction false} SendIsLoad(d: Digest, caps: Capabilities, dev: Device, m: Mem, ships: seq<Shipment>)
    requires Standing(dev, DfuIdle, Resting, m) && caps.canDownload && ships != [] && Shippable(caps, ships)
    ensures var feeds := Feeds(caps, ships);
      var o := New(m, ships[0].block, true);
      && o.Opened? && Delivered(d, caps, dev, ships, Load(d, o.mem, o.prog, feeds))
      && (Decided(Load(d, o.mem, o.prog, feeds)) ==>
            Fed(d, History(m.flash, |m.log|, []), feeds, FateOf(APPLICATION_REGION_START, feeds),
                Load(d, o.mem, o.prog, feeds)))
  {
    hide Move, Run, InSession, New, Drive, Full, FeedAll, Polled, Image, Over, Delivered, FaultFree, Completions,
      FateOf;
    var feeds := Feeds(caps, ships);
    var ship := ships[0];
    assert Shippable1(caps, ship);
    assert feeds[1..] == Feeds(caps, ships[1..]);
    FeedsFeedable(caps, ships);
    OpenOne(d, caps, dev, m, ship.number, ship.block);
    NewOpens(d, m, ship.block, true);
    NewAddr(m, ship.block);
    var o := New(m, ship.block, true);
    assert [] + ship.block == ship.block;
    LoadFate(d, o.mem, o.prog, History(m.flash, |m.log|, []), feeds);
    OpenedWait(d, caps, dev, o, ship);
    var u := Drive(d, o.mem, o.prog, feeds[0].replies);
    var after := SendOne(d, caps, dev, ship);
    if Over(after) && Waits(u) {
      DriveBlock(d, o.mem, o.prog, feeds[0].replies);
      SendIsFeed(d, caps, after, u.prog, u.mem, ships[1..]);
    }
    DeliveredFirst(d, caps, dev, ships, u, Load(d, o.mem, o.prog, feeds));
  }

  /** The wait for the first block of a session is over, once the host asks, after exactly the erase
      of sector 2 and the block's pieces. */
  lemma {:induction false} OpeningTakes(
    d: Digest, caps: Capabilities, dev: Device, m: Mem, ship: Shipment)
    requires Standing(dev, DfuIdle, Resting, m) && caps.canDownload
    requires Shippable1(caps, ship) && AskedLast(ship.beats)
    ensures Over(SendOne(d, caps, dev, ship))
            <==> Completions(FeedOf(caps, ship).replies) >= 1 + ChunkCount(APPLICATION_REGION_START, |ship.block|)
  {
    hide Move, Run, New, Drive, InSession, Polled, FaultFree, Completions, ChunkCount, PendingBytes, Full, MeetsFate;
    OpenOne(d, caps, dev, m, ship.number, ship.block);
    NewOpens(d, m, ship.block, true);
    NewAddr(m, ship.block);
    FirstDecided(d, m, FeedOf(caps, ship));
    var o := New(m, ship.block, true);
    OpenedNotReady(d, o.mem, o.prog, FeedOf(caps, ship).replies);
    var sent := Move(d, caps, dev, Block(ship.number, ship.block)).dev;
    WaitForBlock(d, caps, sent, Turn(o.mem, o.prog, Pending), ship.beats);
  }

  lemma {:induction false} OpenedNotReady(d: Digest, m: Mem, p: Prog, replies: seq<Reply>)
    requires InSession(d, m, p) && Receiving(p) && PendingBytes(p) != [] && FaultFree(replies)
    ensures !Drive(d, m, p, replies).out.Ready?
  {
    hide InSession, Drive, Full;
    DriveBlock(d, m, p, replies);
  }

  lemma {:induction false} OpenedWait(d: Digest, caps: Capabilities, dev: Device, o: Opened, ship: Shipment)
    requires o.Opened? && InSession(d, o.mem, o.prog) && Receiving(o.prog) && PendingBytes(o.prog) == ship.block
    requires Shippable1(caps, ship)
    requires HandedOver(Move(d, caps, dev, Block(ship.number, ship.block)).dev, Turn(o.mem, o.prog, Pending))
    ensures var u := Drive(d, o.mem, o.prog, FeedOf(caps, ship).replies);
      var after := SendOne(d, caps, dev, ship);
      && (Over(after) ==> Decided(u) && Arrived(after, u))
      && (Timely1(caps, ship) ==> Over(after))
  {
    hide InSession, Drive, Run, Move, Polled, FaultFree, Completions, Effort, PendingBytes;
    EffortBound(o.prog);
    DriveBlock(d, o.mem, o.prog, FeedOf(caps, ship).replies);
    var sent := Move(d, caps, dev, Block(ship.number, ship.block)).dev;
    WaitForBlock(d, caps, sent, Turn(o.mem, o.prog, Pending), ship.beats);
  }

  // ---- ending a download ----

  lemma EndOfDownload(d: Digest, caps: Capabilities, dev: Device, p: Prog, m: Mem)
    requires Standing(dev, DfuDnloadIdle, Downloading(p), m) && p.state.AwaitData?
    ensures Standing(Move(d, caps, dev, END_OF_DOWNLOAD).dev, DfuManifestSync, Downloading(p), m)
  {
  }

  lemma BeforeStatus(d: Digest, caps: Capabilities, dev: Device, p: Prog, m: Mem, st: Stimulus)
    requires Standing(dev, DfuManifestSync, Downloading(p), m) && Patient(st) && !Asks(st)
    ensures Standing(Move(d, caps, dev, st).dev, DfuManifestSync, Downloading(p), m)
  {
  }

  lemma StartOfManifest(d: Digest, caps: Capabilities, dev: Device, p: Prog, m: Mem, st: Stimulus)
    requires Standing(dev, DfuManifestSync, Downloading(p), m) && Patient(st) && Asks(st)
    ensures var t := Finalize(d, m, p, true);
      t.out.Pending? ==>
        Standing(Move(d, caps, dev, st).dev, DfuManifest(caps.pollTimeout), Manifesting(t.prog), t.mem)
  {
    hide Finalize;
  }

  /** Where the device stands when the manifestation that starts from u has taken the turn t. */
  predicate Closes(caps: Capabilities, closing: seq<Stimulus>, dev: Device, u: Turn, t: Turn) {
    && (dev.handler.phase.Resting? <==> t.out.Ready?)
    && !dev.halted && (ShowsDone(caps, dev.cls) || Manifested(dev.cls))
    && (t.out.Ready? ==>
          && dev.handler == Handler(Resting, t.mem) && ShowsDone(caps, dev.cls)
          && (AskedLast(closing) && caps.manifestationTolerant ==> dev.cls.DfuIdle?))
    && (!t.out.Ready? ==> Manifested(dev.cls))
  }

  lemma {:induction false} CloseIsDrive(
    d: Digest, caps: Capabilities, dev: Device, p: Prog, m: Mem, closing: seq<Stimulus>)
    requires Standing(dev, DfuManifestSync, Downloading(p), m)
    requires InSession(d, m, p) && p.state.AwaitData? && Closing(caps, closing)
    ensures Closes(caps, closing, Run(d, caps, dev, closing), Turn(m, p, Pending),
                   Close(d, Turn(m, p, Pending), ManifestPolls(caps, closing)))
    decreases |closing|
  {
    hide InSession, Run, Move, Drive, Finalize, Polled, FaultFree, Completions, ManifestCost, PaceAll;
    CloseInstalls(d, Turn(m, p, Pending), ManifestPolls(caps, closing));
    if closing == [] {
      RunNothing(d, caps, dev);
      NoPollsYet(d, m, p);
    } else {
      var st, rest, next := closing[0], closing[1..], Move(d, caps, dev, closing[0]).dev;
      RunFront(d, caps, dev, closing);
      if |rest| > 0 { AskedTail(closing); } else { RunNothing(d, caps, next); }
      if Asks(st) {
        StartOfManifest(d, caps, dev, p, m, st);
        FinalizeStarts(d, m, p);
        var t := Finalize(d, m, p, true);
        AwaitManifestIsDrive(d, caps, next, t.prog, t.mem, rest);
        if rest == [] {
          DriveStops(d, t.mem, t.prog);
          PolledNothing(caps, next.cls);
        }
      } else {
        BeforeStatus(d, caps, dev, p, m, st);
        CloseIsDrive(d, caps, next, p, m, rest);
        if rest == [] { NoPollsYet(d, m, p); }
      }
    }
  }

  lemma PolledNothing(caps: Capabilities, s: State)
    ensures Polled(caps, s, []) == []
  {
  }

  lemma NoPollsYet(d: Digest, m: Mem, p: Prog)
    requires InSession(d, m, p) && p.state.AwaitData?
    ensures !Close(d, Turn(m, p, Pending), []).out.Ready?
  {
    hide ManifestBytes;
    CloseInstalls(d, Turn(m, p, Pending), []);
    assert ManifestCost(d, p.sector) > 0;
  }

  /** A host that ends its download and waits: the handler rests after exactly as many
      completions as the manifestation costs, with the session installed; and once the class has
      been asked for its status after that, it is in dfuIDLE. */
  lemma {:induction false} CloseByHost(
    d: Digest, caps: Capabilities, dev: Device, p: Prog, m: Mem, closing: seq<Stimulus>)
    requires Standing(dev, DfuDnloadIdle, Downloading(p), m) && caps.manifestationTolerant
    requires InSession(d, m, p) && p.state.AwaitData? && Closing(caps, closing)
    ensures var after := Run(d, caps, Move(d, caps, dev, END_OF_DOWNLOAD).dev, closing);
      && !after.halted && (Manifested(after.cls) || after.cls.DfuIdle?)
      && (after.handler.phase.Resting? <==> Completions(ManifestPolls(caps, closing)) >= ManifestCost(d, p.sector))
      && (after.handler.phase.Resting? && AskedLast(closing) ==> after.cls.DfuIdle?)
      && (after.cls.DfuIdle? ==> after.handler.phase.Resting?)
      && (after.handler.phase.Resting? ==>
            && |p.hist.accepted| <= APPLICATION_LENGTH && after.handler.mem.state == DriverIdle
            && after.handler.mem.flash == Installed(d, p.hist.origin, p.hist.accepted))
  {
    hide InSession, Run, Move, Close, Installed, FaultFree, Completions, ManifestCost, ManifestPolls;
    EndOfDownload(d, caps, dev, p, m);
    CloseIsDrive(d, caps, Move(d, caps, dev, END_OF_DOWNLOAD).dev, p, m, closing);
    CloseInstalls(d, Turn(m, p, Pending), ManifestPolls(caps, closing));
    var t := Close(d, Turn(m, p, Pending), ManifestPolls(caps, closing));
    if t.out.Ready? { DoneInstalled(d, t.mem, t.prog); }
  }

  lemma {:induction false} StoppedEnds(d: Digest, caps: Capabilities, dev: Device, closing: seq<Stimulus>)
    requires (dev.halted || dev.cls.DfuError?) && AllPatient(closing)
    ensures Run(d, caps, Move(d, caps, dev, END_OF_DOWNLOAD).dev, closing) == dev
  {
    assert Move(d, caps, dev, END_OF_DOWNLOAD).dev == dev;
    PausesAreQuiet(d, caps, dev, closing);
  }

  // ---- a whole download from dfuIDLE ----

  /** The handler accepts a block: it rests, or waits for data in a session that was left. */
  predicate Takes(h: Handler) {
    h.phase.Resting? || (h.phase.Downloading? && h.phase.prog.state.AwaitData?)
  }

  /** What the blocks are appended to: nothing, or the session that was left. */
  function Before(h: Handler): History
    requires Takes(h)
  {
    if h.phase.Resting? then History(h.mem.flash, |h.mem.log|, []) else h.phase.prog.hist
  }

  /** What a download that is through has come to. */
  predicate CameTo(d: Digest, h: History, image: seq<Byte>, fate: Fate, dev: Device) {
    var all := h.accepted + image;
    match fate
    case GoesWell =>
      && Standing(dev, DfuIdle, Resting, dev.handler.mem) && dev.handler.mem.state == DriverIdle
      && |all| <= APPLICATION_LENGTH && dev.handler.mem.flash == Installed(d, h.origin, all)
    case Overflows =>
      Standing(dev, DfuError(Address), Failing, dev.handler.mem) && Full(d, dev.handler.mem, Accepting(h, image))
    case Breaks => dev.halted
  }

  /** What the blocks make of the program, whichever session they belong to. */
  lemma {:induction false} SendFate(
    d: Digest, caps: Capabilities, dev: Device, ships: seq<Shipment>) returns (t: Turn)
    requires !dev.halted && dev.cls.DfuIdle? && caps.canDownload && ships != [] && Shippable(caps, ships)
    requires Coherent(d, dev.handler) && Takes(dev.handler)
    ensures Delivered(d, caps, dev, ships, t)
    ensures var h := Before(dev.handler);
      var feeds := Feeds(caps, ships);
      Decided(t) ==> Fed(d, h, feeds, FateOf(APPLICATION_REGION_START + |h.accepted|, feeds), t)
    ensures Timely(caps, ships) ==> Decided(t)
  {
    hide InSession, Fed, Feeds, FateOf, FeedAll, Load, New, AllConfined, Full, Delivered;
    var h, feeds := dev.handler, Feeds(caps, ships);
    if h.phase.Resting? {
      SendIsLoad(d, caps, dev, h.mem, ships);
      var o := New(h.mem, ships[0].block, true);
      FeedsNonEmpty(caps, ships);
      t := Load(d, o.mem, o.prog, feeds);
    } else {
      var p := h.phase.prog;
      SendIsFeed(d, caps, dev, p, h.mem, ships);
      FeedsFeedable(caps, ships);
      FeedAllFate(d, h.mem, p, feeds);
      AwaitDataAddr(d, h.mem, p);
      t := FeedAll(d, h.mem, p, feeds);
    }
    DeliveredDecides(d, caps, dev, ships, t);
  }

  lemma FeedsNonEmpty(caps: Capabilities, ships: seq<Shipment>)
    requires ships != []
    ensures Feeds(caps, ships) != [] && Feeds(caps, ships)[0] == FeedOf(caps, ships[0])
  {
  }

  lemma DeliveredDecides(d: Digest, caps: Capabilities, dev: Device, ships: seq<Shipment>, t: Turn)
    requires Delivered(d, caps, dev, ships, t)
    ensures Timely(caps, ships) ==> Decided(t)
    ensures WaitedOut(d, caps, dev, ships) ==> Decided(t) && Arrived(SendBlocks(d, caps, dev, ships), t)
    ensures Timely(caps, ships) ==> WaitedOut(d, caps, dev, ships)
  {
  }

  /** A host that finds the device in dfuIDLE, sends any list of blocks, ends its download and
      waits, on working flash. If the handler takes blocks, the device ends idle with exactly
      these blocks - behind those of the session that was left, if any - installed; or in
      dfuERROR with errADDRESS and the application region full; or the firmware has panicked.
      If it does not, the download ends in dfuERROR with errUNKNOWN and flash is as it was. */
  lemma {:induction false} HostDownloadFate(
    d: Digest, caps: Capabilities, dev: Device, ships: seq<Shipment>, closing: seq<Stimulus>)
    requires !dev.halted && dev.cls.DfuIdle? && caps.canDownload && caps.manifestationTolerant
    requires Coherent(d, dev.handler) && ships != [] && Shippable(caps, ships) && Closing(caps, closing)
    requires Through(d, caps, dev, ships, closing)
    ensures var after := HostDownload(d, caps, dev, ships, closing);
      var feeds := Feeds(caps, ships);
      if Takes(dev.handler) then
        var h := Before(dev.handler);
        CameTo(d, h, Image(feeds), FateOf(APPLICATION_REGION_START + |h.accepted|, feeds), after)
      else Standing(after, DfuError(Unknown), Failing, dev.handler.mem)
  {
    hide InSession, Move, Run, Feeds, FateOf, Full, Installed, AllConfined, SendBlocks, WaitedOut, Coherent,
      Image, ManifestPolls, Completions, ManifestCost;
    var loaded := SendBlocks(d, caps, dev, ships);
    if Takes(dev.handler) {
      var t := SendFate(d, caps, dev, ships);
      DeliveredDecides(d, caps, dev, ships, t);
      if t.out.Pending? { CloseByHost(d, caps, loaded, t.prog, t.mem, closing); }
      else { StoppedEnds(d, caps, loaded, closing); }
    } else {
      RefusedSends(d, caps, dev, ships);
      StoppedEnds(d, caps, loaded, closing);
    }
  }

  lemma RefusesBlock(d: Digest, caps: Capabilities, dev: Device, number: nat, block: seq<Byte>)
    requires !dev.halted && dev.cls.DfuIdle? && caps.canDownload && block != [] && !Takes(dev.handler)
    ensures Standing(Move(d, caps, dev, Block(number, block)).dev, DfuError(Unknown), Failing, dev.handler.mem)
  {
  }

  lemma {:induction false} RefusedSends(d: Digest, caps: Capabilities, dev: Device, ships: seq<Shipment>)
    requires !dev.halted && dev.cls.DfuIdle? && caps.canDownload && !Takes(dev.handler)
    requires ships != [] && Shippable(caps, ships)
    ensures Standing(SendBlocks(d, caps, dev, ships), DfuError(Unknown), Failing, dev.handler.mem)
    ensures WaitedOut(d, caps, dev, ships)
  {
    assert Shippable1(caps, ships[0]);
    RefusesBlock(d, caps, dev, ships[0].number, ships[0].block);
    hide Move;
    PausesAreQuiet(d, caps, Move(d, caps, dev, Block(ships[0].number, ships[0].block)).dev, ships[0].beats);
    StoppedSends(d, caps, SendOne(d, caps, dev, ships[0]), ships[1..]);
  }

  /** Such a download is through whenever its schedule is long enough. */
  lemma {:induction false} TimelyIsThrough(
    d: Digest, caps: Capabilities, dev: Device, ships: seq<Shipment>, closing: seq<Stimulus>)
    requires !dev.halted && dev.cls.DfuIdle? && caps.canDownload && caps.manifestationTolerant
    requires Coherent(d, dev.handler) && ships != [] && Shippable(caps, ships) && Closing(caps, closing)
    requires Timely(caps, ships) && Completions(ManifestPolls(caps, closing)) >= 14 && AskedLast(closing)
    ensures Through(d, caps, dev, ships, closing)
  {
    hide InSession, Move, Run, Feeds, FateOf, Full, Installed, AllConfined, SendBlocks, WaitedOut, Coherent,
      Image, ManifestPolls, Completions, ManifestCost, Timely, Shippable;
    var loaded := SendBlocks(d, caps, dev, ships);
    if Takes(dev.handler) {
      var t := SendFate(d, caps, dev, ships);
      DeliveredDecides(d, caps, dev, ships, t);
      if t.out.Pending? {
        CloseByHost(d, caps, loaded, t.prog, t.mem, closing);
        SectorAbove(d, t.mem, t.prog);
        CostBound(d, t.prog.sector);
      } else {
        StoppedEnds(d, caps, loaded, closing);
      }
    } else {
      RefusedSends(d, caps, dev, ships);
      StoppedEnds(d, caps, loaded, closing);
    }
  }
}
