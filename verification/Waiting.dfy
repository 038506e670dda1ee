/** Waiting for the device: whatever the main loop polls and whatever the host asks in the
    meantime, the program is driven exactly as if it were polled directly. */
module Waiting {
  import opened Dfu
  import opened Platform
  import opened FlashSpec
  import opened ProgramSpec
  import opened Session
  import opened Download
  import opened HandlerSpec
  import opened ClassSpec
  import opened Device

  predicate Standing(dev: Device, s: State, phase: Phase, m: Mem) {
    !dev.halted && dev.cls == s && dev.handler == Handler(phase, m)
  }

  // ---- schedules ----

  predicate Asks(st: Stimulus) {
    st.ev.In? && st.ev.request == DFU_GETSTATUS
  }

  /** A poll of the class after any time, or a request for its status or state; the
      controller unlocks when it has to. */
  predicate Patient(st: Stimulus) {
    st.env.unlocked && (st.ev.Tick? || Asks(st) || (st.ev.In? && st.ev.request == DFU_GETSTATE))
  }

  predicate AllPatient(beats: seq<Stimulus>) {
    forall i :: 0 <= i < |beats| ==> Patient(beats[i])
  }

  predicate AskedLast(beats: seq<Stimulus>) {
    beats != [] && Asks(beats[|beats| - 1])
  }

  /** The answer of a handler that is not through yet. */
  function NotYet(call: Call): Answer {
    match call
    case AskComplete => No
    case AskManifest => Yes
    case _ => Okay
  }

  /** The class in front of such a handler: the clock of the waiting states. */
  function Pace(caps: Capabilities, s: State, ev: Event): State {
    Resume(caps, s, ev, NotYet(CallOf(caps, s, ev))).state
  }

  function PaceAll(caps: Capabilities, s: State, beats: seq<Stimulus>): State
    decreases |beats|
  {
    if beats == [] then s else PaceAll(caps, Pace(caps, s, beats[0].ev), beats[1..])
  }

  /** An event on which the handler polls its program. */
  predicate Polls(caps: Capabilities, s: State, ev: Event) {
    var call := CallOf(caps, s, ev); call.CallPoll? || call.AskManifest?
  }

  /** The status readings a program gets to see during a wait, as long as it is not through. They
      are fixed by the schedule alone. */
  function Polled(caps: Capabilities, s: State, beats: seq<Stimulus>): seq<Reply>
    decreases |beats|
  {
    if beats == [] then []
    else (if Polls(caps, s, beats[0].ev) then [beats[0].env.reply] else [])
         + Polled(caps, Pace(caps, s, beats[0].ev), beats[1..])
  }

  const STATUS_REQUEST: Stimulus := Stimulus(In(DFU_GETSTATUS, 0, 6), Env(Busy, true))

  /** A schedule of n rounds: ask for the status, let the poll timeout pass, poll. */
  function Rounds(caps: Capabilities, n: nat): seq<Stimulus> {
    if n == 0 then [STATUS_REQUEST]
    else [STATUS_REQUEST] + ([Stimulus(Tick(caps.pollTimeout), Env(Clean, true))] + Rounds(caps, n - 1))
  }

  lemma OneRound(caps: Capabilities)
    ensures Pace(caps, DfuDnloadSync, STATUS_REQUEST.ev) == DfuDnloadBusy(caps.pollTimeout)
    ensures !Polls(caps, DfuDnloadSync, STATUS_REQUEST.ev)
    ensures Pace(caps, DfuDnloadBusy(caps.pollTimeout), Tick(caps.pollTimeout)) == DfuDnloadSync
    ensures Polls(caps, DfuDnloadBusy(caps.pollTimeout), Tick(caps.pollTimeout))
  {
  }

  lemma PolledFirst(caps: Capabilities, s: State, st: Stimulus, rest: seq<Stimulus>)
    ensures Polled(caps, s, [st] + rest)
            == (if Polls(caps, s, st.ev) then [st.env.reply] else []) + Polled(caps, Pace(caps, s, st.ev), rest)
  {
    hide Polls, Pace;
    assert ([st] + rest)[1..] == rest;
  }

  /** It is patient, ends with a request, and completes one operation a round. */
  lemma {:induction false} RoundsComplete(caps: Capabilities, n: nat)
    ensures AllPatient(Rounds(caps, n)) && AskedLast(Rounds(caps, n))
    ensures var replies := Polled(caps, DfuDnloadSync, Rounds(caps, n));
      FaultFree(replies) && Completions(replies) == n
  {
    hide Polls, Pace;
    OneRound(caps);
    if n == 0 {
      assert [STATUS_REQUEST] == [STATUS_REQUEST] + [];
      PolledFirst(caps, DfuDnloadSync, STATUS_REQUEST, []);
    } else {
      RoundsComplete(caps, n - 1);
      var tick, rest := Stimulus(Tick(caps.pollTimeout), Env(Clean, true)), Rounds(caps, n - 1);
      PolledFirst(caps, DfuDnloadSync, STATUS_REQUEST, [tick] + rest);
      PolledFirst(caps, DfuDnloadBusy(caps.pollTimeout), tick, rest);
      CleanFirst(Polled(caps, DfuDnloadSync, rest));
    }
  }

  lemma CleanFirst(replies: seq<Reply>)
    ensures Completions([] + ([Clean] + replies)) == 1 + Completions(replies)
  {
    assert ([Clean] + replies)[1..] == replies && [] + ([Clean] + replies) == [Clean] + replies;
  }

  // ---- runs ----

  lemma {:induction false} RunFront(d: Digest, caps: Capabilities, dev: Device, run: seq<Stimulus>)
    requires run != []
    ensures Run(d, caps, dev, run) == Run(d, caps, Move(d, caps, dev, run[0]).dev, run[1..])
  {
    hide Move;
    var n := |run|;
    if n > 1 {
      RunFront(d, caps, dev, run[..n - 1]);
      assert run[..n - 1][1..] == run[1..][..n - 2];
    } else {
      assert run[..0] == [] && run[1..] == [];
    }
  }

  /** States in which patience changes nothing. */
  predicate AtRest(dev: Device) {
    || dev.halted || dev.cls.DfuIdle? || dev.cls.DfuDnloadIdle? || dev.cls.DfuUploadIdle? || dev.cls.DfuError?
    || dev.cls.DfuManifestWaitReset?
  }

  lemma QuietBeat(d: Digest, caps: Capabilities, dev: Device, st: Stimulus)
    requires AtRest(dev) && Patient(st)
    ensures Move(d, caps, dev, st).dev == dev
  {
  }

  /** Polls and status requests have no effect in any state that waits for the host. */
  lemma {:induction false} PausesAreQuiet(d: Digest, caps: Capabilities, dev: Device, beats: seq<Stimulus>)
    requires AtRest(dev) && AllPatient(beats)
    ensures Run(d, caps, dev, beats) == dev
  {
    if beats != [] {
      PausesAreQuiet(d, caps, dev, beats[..|beats| - 1]);
      QuietBeat(d, caps, dev, beats[|beats| - 1]);
    }
  }

  // ---- waiting for a block ----

  predicate Loading(s: State) { s.DfuDnloadSync? || s.DfuDnloadBusy? }

  /** A device that waits for its program p to write a block. */
  predicate LoadingAt(dev: Device, p: Prog, m: Mem) {
    !dev.halted && Loading(dev.cls) && dev.handler == Handler(Downloading(p), m)
  }

  lemma LoadingBeat(d: Digest, caps: Capabilities, dev: Device, p: Prog, m: Mem, st: Stimulus)
    requires LoadingAt(dev, p, m) && !p.state.AwaitData? && Patient(st)
    ensures Polls(caps, dev.cls, st.ev) ==> !Asks(st)
    ensures var after := Move(d, caps, dev, st).dev;
      if Polls(caps, dev.cls, st.ev) then
        var t := PollProgram(d, m, p, st.env.reply, true);
        match t.out
        case Pending => LoadingAt(after, t.prog, t.mem) && after.cls == Pace(caps, dev.cls, st.ev)
        case Failed(e) => Standing(after, DfuError(e), Failing, t.mem)
        case Panicked => after.halted
        case Ready(_) => true
      else LoadingAt(after, p, m) && after.cls == Pace(caps, dev.cls, st.ev)
  {
    hide PollProgram;
  }

  /** Where the device stands after a wait in which the program has made the turn t. */
  predicate Follows(caps: Capabilities, s: State, beats: seq<Stimulus>, dev: Device, t: Turn) {
    match t.out
    case Pending =>
      && !dev.halted && dev.handler == Handler(Downloading(t.prog), t.mem)
      && (if t.prog.state.AwaitData? then
            (Loading(dev.cls) || dev.cls.DfuDnloadIdle?) && (AskedLast(beats) ==> dev.cls.DfuDnloadIdle?)
          else dev.cls == PaceAll(caps, s, beats) && Loading(dev.cls))
    case Failed(e) => Standing(dev, DfuError(e), Failing, t.mem)
    case Panicked => dev.halted
    case Ready(_) => true
  }

  lemma WrittenBeat(d: Digest, caps: Capabilities, dev: Device, p: Prog, m: Mem, st: Stimulus)
    requires !dev.halted && (Loading(dev.cls) || dev.cls.DfuDnloadIdle?)
    requires dev.handler == Handler(Downloading(p), m) && p.state.AwaitData? && Patient(st)
    ensures var after := Move(d, caps, dev, st).dev;
      && !after.halted && after.handler == dev.handler && (Loading(after.cls) || after.cls.DfuDnloadIdle?)
      && (Asks(st) ==> after.cls.DfuDnloadIdle?)
  {
    assert PollProgram(d, m, p, st.env.reply, true) == Turn(m, p, Pending);
    hide PollProgram;
  }

  lemma {:induction false} WrittenWaits(
    d: Digest, caps: Capabilities, dev: Device, p: Prog, m: Mem, beats: seq<Stimulus>)
    requires !dev.halted && (Loading(dev.cls) || dev.cls.DfuDnloadIdle?)
    requires dev.handler == Handler(Downloading(p), m) && p.state.AwaitData? && AllPatient(beats)
    ensures var after := Run(d, caps, dev, beats);
      && !after.halted && after.handler == dev.handler && (Loading(after.cls) || after.cls.DfuDnloadIdle?)
      && (AskedLast(beats) ==> after.cls.DfuDnloadIdle?)
  {
    if beats != [] {
      hide Move;
      WrittenWaits(d, caps, dev, p, m, beats[..|beats| - 1]);
      WrittenBeat(d, caps, Run(d, caps, dev, beats[..|beats| - 1]), p, m, beats[|beats| - 1]);
    }
  }

  lemma AskedTail(beats: seq<Stimulus>)
    requires |beats| > 1
    ensures AskedLast(beats) <==> AskedLast(beats[1..])
  {
  }

  /** Any mixture of polls and requests, with any times between them, drives the program with
      the status readings of those polls that come in dfuDNBUSY; and the class shows
      dfuDNLOAD-IDLE only once the block is written. */
  lemma {:induction false} AwaitIsDrive(
    d: Digest, caps: Capabilities, dev: Device, p: Prog, m: Mem, beats: seq<Stimulus>)
    requires LoadingAt(dev, p, m) && AllPatient(beats)
    ensures Follows(caps, dev.cls, beats, Run(d, caps, dev, beats),
                    Drive(d, m, p, Polled(caps, dev.cls, beats)))
    decreases |beats|
  {
    hide Run, PollProgram, Drive, Move, Pace, Polls;
    if p.state.AwaitData? {
      DriveRests(d, m, p, Polled(caps, dev.cls, beats));
      WrittenWaits(d, caps, dev, p, m, beats);
    } else if beats == [] {
      DriveStops(d, m, p);
      RunNothing(d, caps, dev);
    } else {
      var st, rest, next := beats[0], beats[1..], Move(d, caps, dev, beats[0]).dev;
      RunFront(d, caps, dev, beats);
      LoadingBeat(d, caps, dev, p, m, st);
      if |rest| > 0 { AskedTail(beats); }
      if Polls(caps, dev.cls, st.ev) {
        var replies := Polled(caps, dev.cls, beats);
        DriveUnfolds(d, m, p, replies);
        assert replies[1..] == Polled(caps, Pace(caps, dev.cls, st.ev), rest);
        var t := PollProgram(d, m, p, st.env.reply, true);
        match t.out
        case Pending =>
          AwaitIsDrive(d, caps, next, t.prog, t.mem, rest);
        case Failed(_) => PausesAreQuiet(d, caps, next, rest);
        case Panicked => PausesAreQuiet(d, caps, next, rest);
        case Ready(_) =>
      } else {
        assert Polled(caps, dev.cls, beats) == Polled(caps, Pace(caps, dev.cls, st.ev), rest);
        AwaitIsDrive(d, caps, next, p, m, rest);
        if rest == [] { DriveStops(d, m, p); }
      }
    }
  }

  lemma RunNothing(d: Digest, caps: Capabilities, dev: Device)
    ensures Run(d, caps, dev, []) == dev
  {
  }

  // ---- waiting for a manifestation ----

  /** A device that waits for its program p to finish a manifestation. */
  predicate ManifestingAt(dev: Device, p: Prog, m: Mem) {
    !dev.halted && Manifested(dev.cls) && dev.handler == Handler(Manifesting(p), m) && !Receiving(p)
  }

  /** What the class may show once the handler rests after a manifestation. */
  predicate ShowsDone(caps: Capabilities, s: State) {
    || s.DfuManifestSync? || s.DfuManifest?
    || (if caps.manifestationTolerant then s.DfuIdle? else s.DfuManifestWaitReset? || s == DfuError(StalledPkt))
  }

  lemma ManifestingBeat(d: Digest, caps: Capabilities, dev: Device, p: Prog, m: Mem, st: Stimulus)
    requires ManifestingAt(dev, p, m) && Patient(st)
    ensures var after := Move(d, caps, dev, st).dev;
      if Polls(caps, dev.cls, st.ev) then
        var t := PollProgram(d, m, p, st.env.reply, true);
        match t.out
        case Pending => ManifestingAt(after, t.prog, t.mem) && after.cls == Pace(caps, dev.cls, st.ev)
        case Ready(_) =>
          && !after.halted && after.handler == Handler(Resting, t.mem) && ShowsDone(caps, after.cls)
          && (Asks(st) && caps.manifestationTolerant ==> after.cls.DfuIdle?)
        case Failed(e) => Standing(after, DfuError(if st.ev.Tick? then e else StalledPkt), Failing, t.mem)
        case Panicked => after.halted
      else ManifestingAt(after, p, m) && after.cls == Pace(caps, dev.cls, st.ev)
  {
    StaysFinalUnlocked(d, m, p, st.env.reply);
    hide PollProgram;
  }

  lemma StaysFinalUnlocked(d: Digest, m: Mem, p: Prog, reply: Reply)
    requires !Receiving(p)
    ensures !Receiving(PollProgram(d, m, p, reply, true).prog)
  {
  }

  lemma DoneBeat(d: Digest, caps: Capabilities, dev: Device, st: Stimulus)
    requires !dev.halted && dev.handler.phase.Resting? && ShowsDone(caps, dev.cls) && Patient(st)
    ensures var after := Move(d, caps, dev, st).dev;
      && !after.halted && after.handler == dev.handler && ShowsDone(caps, after.cls)
      && (Asks(st) && caps.manifestationTolerant ==> after.cls.DfuIdle?)
  {
    hide PollProgram, Finalize, New, Update, StatusBytes, AfterOut;
  }

  lemma {:induction false} DoneWaits(d: Digest, caps: Capabilities, dev: Device, beats: seq<Stimulus>)
    requires !dev.halted && dev.handler.phase.Resting? && ShowsDone(caps, dev.cls) && AllPatient(beats)
    ensures var after := Run(d, caps, dev, beats);
      && !after.halted && after.handler == dev.handler && ShowsDone(caps, after.cls)
      && (AskedLast(beats) && caps.manifestationTolerant ==> after.cls.DfuIdle?)
  {
    if beats != [] {
      hide Move, ShowsDone;
      DoneWaits(d, caps, dev, beats[..|beats| - 1]);
      DoneBeat(d, caps, Run(d, caps, dev, beats[..|beats| - 1]), beats[|beats| - 1]);
    }
  }

  predicate ManifestFollows(caps: Capabilities, s: State, beats: seq<Stimulus>, dev: Device, t: Turn) {
    match t.out
    case Pending =>
      ManifestingAt(dev, t.prog, t.mem) && dev.cls == PaceAll(caps, s, beats)
    case Ready(_) =>
      && !dev.halted && dev.handler == Handler(Resting, t.mem) && ShowsDone(caps, dev.cls)
      && (AskedLast(beats) && caps.manifestationTolerant ==> dev.cls.DfuIdle?)
    case Failed(e) =>
      && !dev.halted && dev.handler == Handler(Failing, t.mem)
      && (dev.cls == DfuError(e) || dev.cls == DfuError(StalledPkt))
    case Panicked => dev.halted
  }

  /** The same for manifestation, where a request for the status polls the program as well. */
  lemma {:induction false} AwaitManifestIsDrive(
    d: Digest, caps: Capabilities, dev: Device, p: Prog, m: Mem, beats: seq<Stimulus>)
    requires ManifestingAt(dev, p, m) && AllPatient(beats)
    ensures ManifestFollows(caps, dev.cls, beats, Run(d, caps, dev, beats),
                            Drive(d, m, p, Polled(caps, dev.cls, beats)))
    decreases |beats|
  {
    hide Run, PollProgram, Drive, Move, Pace, Polls;
    if beats == [] {
      DriveStops(d, m, p);
      RunNothing(d, caps, dev);
    } else {
      var st, rest, next := beats[0], beats[1..], Move(d, caps, dev, beats[0]).dev;
      RunFront(d, caps, dev, beats);
      ManifestingBeat(d, caps, dev, p, m, st);
      if |rest| > 0 { AskedTail(beats); } else { RunNothing(d, caps, next); }
      if Polls(caps, dev.cls, st.ev) {
        var replies := Polled(caps, dev.cls, beats);
        DriveUnfolds(d, m, p, replies);
        assert replies[1..] == Polled(caps, Pace(caps, dev.cls, st.ev), rest);
        var t := PollProgram(d, m, p, st.env.reply, true);
        match t.out
        case Pending => AwaitManifestIsDrive(d, caps, next, t.prog, t.mem, rest);
        case Ready(_) => DoneWaits(d, caps, next, rest);
        case Failed(_) => PausesAreQuiet(d, caps, next, rest);
        case Panicked => PausesAreQuiet(d, caps, next, rest);
      } else {
        assert Polled(caps, dev.cls, beats) == Polled(caps, Pace(caps, dev.cls, st.ev), rest);
        AwaitManifestIsDrive(d, caps, next, p, m, rest);
      }
    }
  }
}
