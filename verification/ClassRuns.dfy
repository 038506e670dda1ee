/** Properties of the class over every run, for every handler: the handler's answers are
    arbitrary. */
module ClassRuns {
  import opened Bytes
  import opened Dfu
  import opened HandlerSpec
  import opened ClassSpec

  datatype Step = Step(ev: Event, answer: Answer)

  /** The class starts idle, or in dfuERROR if the handler finds no valid firmware. */
  predicate Initial(s: State) {
    s == DfuIdle || s == DfuError(Firmware)
  }

  function After(caps: Capabilities, s: State, run: seq<Step>): State {
    if run == [] then s
    else
      var last := run[|run| - 1];
      Resume(caps, After(caps, s, run[..|run| - 1]), last.ev, last.answer).state
  }

  function CallAt(caps: Capabilities, s: State, run: seq<Step>, i: nat): Call
    requires i < |run|
  {
    CallOf(caps, After(caps, s, run[..i]), run[i].ev)
  }

  lemma AfterStep(caps: Capabilities, s: State, run: seq<Step>, i: nat)
    requires i < |run|
    ensures After(caps, s, run[..i + 1]) == Resume(caps, After(caps, s, run[..i]), run[i].ev, run[i].answer).state
  {
    assert run[..i + 1][..i] == run[..i];
  }

  // ---- the order of handler calls ----

  /** The handler has just confirmed that a block is written. */
  predicate Confirmed(caps: Capabilities, s: State, run: seq<Step>, k: nat)
    requires k < |run|
  {
    CallAt(caps, s, run, k) == AskComplete && run[k].answer == Yes
  }

  predicate Clears(ev: Event) {
    ev.Out? && ev.request == DFU_CLRSTATUS
  }

  predicate Busy(s: State) { s.DfuDnloadSync? || s.DfuDnloadBusy? || s.DfuError? }

  lemma BlockMakesBusy(caps: Capabilities, s: State, ev: Event, a: Answer)
    requires CallOf(caps, s, ev).CallDownload?
    ensures Busy(Resume(caps, s, ev, a).state)
  {
  }

  lemma StaysBusy(caps: Capabilities, s: State, ev: Event, a: Answer)
    requires Busy(s) && !Clears(ev) && !(CallOf(caps, s, ev) == AskComplete && a == Yes)
    ensures Busy(Resume(caps, s, ev, a).state) && !CallOf(caps, s, ev).CallDownload?
  {
  }

  lemma {:induction false} Locked(caps: Capabilities, s: State, run: seq<Step>, i: nat, j: nat)
    requires i < j <= |run| && CallAt(caps, s, run, i).CallDownload?
    requires forall k :: i < k < j ==> !Confirmed(caps, s, run, k) && !Clears(run[k].ev)
    ensures Busy(After(caps, s, run[..j]))
  {
    hide Resume, CallOf, Busy;
    AfterStep(caps, s, run, j - 1);
    if j > i + 1 {
      Locked(caps, s, run, i, j - 1);
      assert !Confirmed(caps, s, run, j - 1);
      StaysBusy(caps, After(caps, s, run[..j - 1]), run[j - 1].ev, run[j - 1].answer);
    } else {
      BlockMakesBusy(caps, After(caps, s, run[..i]), run[i].ev, run[i].answer);
    }
  }

  /** Between two blocks handed to the handler, unless the host clears an error, the handler
      has confirmed that the first one is written. */
  lemma {:induction false} DownloadsAreConfirmed(caps: Capabilities, s: State, run: seq<Step>, i: nat, j: nat)
    requires i < j < |run|
    requires CallAt(caps, s, run, i).CallDownload? && CallAt(caps, s, run, j).CallDownload?
    ensures exists k :: i < k < j && (Confirmed(caps, s, run, k) || Clears(run[k].ev))
  {
    if forall k :: i < k < j ==> !Confirmed(caps, s, run, k) && !Clears(run[k].ev) {
      Locked(caps, s, run, i, j);
      assert false;
    }
  }

  predicate Unfinished(s: State) { Busy(s) || s.DfuIdle? || s.DfuUploadIdle? }

  lemma StaysUnfinished(caps: Capabilities, s: State, ev: Event, a: Answer)
    requires Unfinished(s) && !(CallOf(caps, s, ev) == AskComplete && a == Yes)
    ensures Unfinished(Resume(caps, s, ev, a).state) && !CallOf(caps, s, ev).AskManifest?
  {
  }

  lemma {:induction false} NotFinalised(caps: Capabilities, s: State, run: seq<Step>, i: nat, j: nat)
    requires i < j <= |run| && CallAt(caps, s, run, i).CallDownload?
    requires forall k :: i < k < j ==> !Confirmed(caps, s, run, k)
    ensures Unfinished(After(caps, s, run[..j]))
  {
    hide Resume, CallOf, Busy;
    AfterStep(caps, s, run, j - 1);
    if j > i + 1 {
      NotFinalised(caps, s, run, i, j - 1);
      assert !Confirmed(caps, s, run, j - 1);
      StaysUnfinished(caps, After(caps, s, run[..j - 1]), run[j - 1].ev, run[j - 1].answer);
    } else {
      BlockMakesBusy(caps, After(caps, s, run[..i]), run[i].ev, run[i].answer);
    }
  }

  /** Manifestation is never asked for before the handler has confirmed the last block,
      whether or not errors were cleared on the way. */
  lemma {:induction false} ManifestationIsConfirmed(caps: Capabilities, s: State, run: seq<Step>, i: nat, j: nat)
    requires i < j < |run|
    requires CallAt(caps, s, run, i).CallDownload? && CallAt(caps, s, run, j).AskManifest?
    ensures exists k :: i < k < j && Confirmed(caps, s, run, k)
  {
    if forall k :: i < k < j ==> !Confirmed(caps, s, run, k) {
      NotFinalised(caps, s, run, i, j);
      assert false;
    }
  }

  // ---- states the capabilities close off ----

  predicate Allowed(caps: Capabilities, s: State) {
    && !s.AppIdle? && !s.AppDetach?
    && (!caps.canDownload ==> s.DfuIdle? || s.DfuUploadIdle? || s.DfuError?)
    && (!caps.canUpload ==> !s.DfuUploadIdle?)
    && (caps.manifestationTolerant ==> !s.DfuManifestWaitReset?)
  }

  /** A device that cannot download never reaches a download or manifest state, one that
      cannot upload never dfuUPLOAD-IDLE, and a manifestation-tolerant one never
      dfuMANIFEST-WAIT-RESET. */
  lemma {:induction false} OnlyAllowedStates(caps: Capabilities, s: State, run: seq<Step>)
    requires Initial(s)
    ensures Allowed(caps, After(caps, s, run))
  {
    if run != [] {
      hide Resume, Allowed;
      OnlyAllowedStates(caps, s, run[..|run| - 1]);
      AllowedStep(caps, After(caps, s, run[..|run| - 1]), run[|run| - 1].ev, run[|run| - 1].answer);
    } else {
      assert Allowed(caps, s);
    }
  }

  lemma AllowedStep(caps: Capabilities, s: State, ev: Event, a: Answer)
    requires Allowed(caps, s)
    ensures Allowed(caps, Resume(caps, s, ev, a).state)
  {
    hide StatusBytes;
  }

  /** Nor does it ever call the handler for what it cannot do; and the handler is polled only
      in dfuDNBUSY and dfuMANIFEST. */
  lemma OnlyAllowedCalls(caps: Capabilities, s: State, run: seq<Step>, i: nat)
    requires Initial(s) && i < |run|
    ensures CallAt(caps, s, run, i).CallDownload? ==> caps.canDownload
    ensures CallAt(caps, s, run, i).CallUpload? ==> caps.canUpload
    ensures CallAt(caps, s, run, i).CallPoll? ==>
      var t := After(caps, s, run[..i]); caps.canDownload && (t.DfuDnloadBusy? || t.DfuManifest?)
  {
    OnlyAllowedStates(caps, s, run[..i]);
  }

  /** dfuMANIFEST-WAIT-RESET is left only by a reset. */
  lemma {:induction false} WaitResetIsFinal(caps: Capabilities, run: seq<Step>)
    ensures After(caps, DfuManifestWaitReset, run) == DfuManifestWaitReset
    ensures forall i :: 0 <= i < |run| ==> CallAt(caps, DfuManifestWaitReset, run, i) == NoCall
  {
    if run != [] {
      WaitResetIsFinal(caps, run[..|run| - 1]);
      forall i | 0 <= i < |run| ensures CallAt(caps, DfuManifestWaitReset, run, i) == NoCall {
        if i < |run| - 1 {
          assert run[..|run| - 1][..i] == run[..i];
          assert CallAt(caps, DfuManifestWaitReset, run[..|run| - 1], i) == NoCall;
        }
      }
    }
  }

  // ---- errors ----

  /** An error is kept, and the handler left alone, until the host clears the status; clearing
      it leads to dfuIDLE whatever the error. */
  lemma {:induction false} ErrorLatched(caps: Capabilities, e: Error, run: seq<Step>)
    requires forall i :: 0 <= i < |run| ==> !Clears(run[i].ev)
    ensures After(caps, DfuError(e), run) == DfuError(e)
    ensures forall i :: 0 <= i < |run| ==> CallAt(caps, DfuError(e), run, i) == NoCall
    ensures forall ev, a :: Clears(ev) ==>
      Resume(caps, After(caps, DfuError(e), run), ev, a) == Outcome(DfuIdle, Accept([]))
  {
    if run != [] {
      ErrorLatched(caps, e, run[..|run| - 1]);
      forall i | 0 <= i < |run| ensures CallAt(caps, DfuError(e), run, i) == NoCall {
        if i < |run| - 1 {
          assert run[..|run| - 1][..i] == run[..i];
          assert CallAt(caps, DfuError(e), run[..|run| - 1], i) == NoCall;
        }
      }
    }
  }

  /** The time a host is told to wait in each state. */
  function Advertised(caps: Capabilities, s: State): nat {
    if s.DfuIdle? || s.DfuUploadIdle? || s.DfuError? then 1 else caps.pollTimeout
  }

  /** The one status request that is not answered: the handler is asked for its manifestation, and
      fails, or is through on a device that is not manifestation-tolerant. */
  predicate Unanswered(caps: Capabilities, s: State, a: Answer) {
    (s.DfuManifestSync? || s.DfuManifest?) && !a.Yes? && !(a.No? && caps.manifestationTolerant)
  }

  /** Where an answered status request leads. */
  predicate StatusLeads(caps: Capabilities, s: State, a: Answer, next: State) {
    if s.DfuDnloadSync? || s.DfuDnloadBusy? then
      if a.Fails? then next == DfuError(a.error)
      else if a.Yes? then next == DfuDnloadIdle
      else next == DfuDnloadBusy(caps.pollTimeout)
    else if s.DfuManifestSync? || s.DfuManifest? then
      if a.Yes? then next == DfuManifest(caps.pollTimeout) else next == DfuIdle
    else next == s
  }

  /** Every GETSTATUS of a run is answered, but for dfuMANIFEST-WAIT-RESET, which keeps silent, and
      for a manifestation that has failed or will not be reported, which stalls. The six bytes tell
      the state the class is in after answering, an error code exactly in dfuERROR, and the low 24
      bits of the time to wait. */
  lemma StatusTellsTruth(caps: Capabilities, s: State, run: seq<Step>, i: nat)
    requires Initial(s) && i < |run| && run[i].ev.In? && run[i].ev.request == 3
    ensures var before := After(caps, s, run[..i]);
      var after := After(caps, s, run[..i + 1]);
      var xfer := Resume(caps, before, run[i].ev, run[i].answer).xfer;
      if before.DfuManifestWaitReset? then xfer == Accept([]) && after == before
      else if Unanswered(caps, before, run[i].answer) then xfer == Reject && after == DfuError(StalledPkt)
      else
        && StatusLeads(caps, before, run[i].answer, after)
        && xfer.Accept? && TellsStatus(xfer.bytes, after, Advertised(caps, before))
  {
    AfterStep(caps, s, run, i);
    OnlyAllowedStates(caps, s, run[..i]);
    var before := After(caps, s, run[..i]);
    var after := Resume(caps, before, run[i].ev, run[i].answer).state;
    StatusLayout(after, Advertised(caps, before));
    hide StatusBytes, TellsStatus, After;
  }

  /** bStatus, three bytes of bwPollTimeout, bState, iString. */
  predicate TellsStatus(bytes: seq<Byte>, s: State, timeout: nat) {
    && |bytes| == 6
    && bytes[4] == StateCode(s)
    && (bytes[0] != 0 <==> bytes[4] == 10)
    && (s.DfuError? ==> bytes[0] == ErrorCode(s.error))
    && bytes[1] as int + 0x100 * (bytes[2] as int) + 0x1_0000 * (bytes[3] as int) == timeout % 0x100_0000
    && bytes[5] == 0
  }

  /** The same state, up to a time or an error. */
  predicate SameKind(s: State, t: State) {
    match s
    case AppIdle => t.AppIdle?
    case AppDetach(_) => t.AppDetach?
    case DfuIdle => t.DfuIdle?
    case DfuDnloadSync => t.DfuDnloadSync?
    case DfuDnloadBusy(_) => t.DfuDnloadBusy?
    case DfuDnloadIdle => t.DfuDnloadIdle?
    case DfuManifestSync => t.DfuManifestSync?
    case DfuManifest(_) => t.DfuManifest?
    case DfuManifestWaitReset => t.DfuManifestWaitReset?
    case DfuUploadIdle => t.DfuUploadIdle?
    case DfuError(_) => t.DfuError?
  }

  /** Every request for the state in a run leaves the state and the handler alone, and its one byte
      tells the host which state the class is in; only dfuMANIFEST-WAIT-RESET keeps silent. */
  lemma StateTellsTruth(caps: Capabilities, s: State, run: seq<Step>, i: nat)
    requires Initial(s) && i < |run| && run[i].ev.In? && run[i].ev.request == 5
    ensures var before := After(caps, s, run[..i]);
      var o := Resume(caps, before, run[i].ev, run[i].answer);
      && After(caps, s, run[..i + 1]) == before && CallAt(caps, s, run, i) == NoCall && o.xfer.Accept?
      && |o.xfer.bytes| == (if before.DfuManifestWaitReset? then 0 else 1)
      && (!before.DfuManifestWaitReset? ==>
            forall t: State :: StateCode(t) == o.xfer.bytes[0] <==> SameKind(t, before))
  {
    AfterStep(caps, s, run, i);
    OnlyAllowedStates(caps, s, run[..i]);
    hide After;
  }

  lemma StatusLayout(s: State, timeout: nat)
    ensures TellsStatus(StatusBytes(s, timeout), s, timeout)
  {
    var low, mid := timeout / 256, timeout / 256 / 256;
    assert Le(timeout, 3) == [timeout % 256] + Le(low, 2);
    assert Le(low, 2) == [low % 256] + Le(mid, 1);
    assert Le(mid, 1) == [mid % 256] + Le(mid / 256, 0);
    assert timeout % 0x100_0000 == timeout % 256 + 0x100 * (low % 256) + 0x1_0000 * (mid % 256);
  }

  // ---- the poll timeout ----

  predicate Ticks(run: seq<Step>) {
    forall i :: 0 <= i < |run| ==> run[i].ev.Tick? && !run[i].answer.Fails?
  }

  function Elapsed(run: seq<Step>): nat {
    if run == [] then 0
    else Elapsed(run[..|run| - 1]) + if run[|run| - 1].ev.Tick? then run[|run| - 1].ev.elapsed else 0
  }

  /** However the time is cut into polls, dfuDNBUSY and dfuMANIFEST are left at the first poll by
      which the whole timeout has passed; before that exactly the rest of it remains. */
  lemma {:induction false} TicksCountDown(caps: Capabilities, timeout: nat, run: seq<Step>)
    requires Ticks(run)
    ensures var left := run != [] && Elapsed(run) >= timeout;
      && After(caps, DfuDnloadBusy(timeout), run)
         == (if left then DfuDnloadSync else DfuDnloadBusy(timeout - Elapsed(run)))
      && After(caps, DfuManifest(timeout), run)
         == (if !left then DfuManifest(timeout - Elapsed(run))
             else if caps.manifestationTolerant then DfuManifestSync else DfuManifestWaitReset)
  {
    if run != [] { TicksCountDown(caps, timeout, run[..|run| - 1]); }
  }

  /** A poll that finds the handler failing shows its error, whatever time has passed; in every other
      state a poll does nothing at all. */
  lemma TickAnswers(caps: Capabilities, s: State, elapsed: nat, a: Answer)
    ensures var o := Resume(caps, s, Tick(elapsed), a);
      if s.DfuDnloadBusy? || s.DfuManifest? then
        CallOf(caps, s, Tick(elapsed)) == CallPoll && (a.Fails? ==> o == Outcome(DfuError(a.error), NoXfer))
      else CallOf(caps, s, Tick(elapsed)) == NoCall && o == Outcome(s, NoXfer)
  {
  }

  // ---- which requests are served ----

  /** What becomes of a request a state does not serve. */
  predicate Turned(s: State, o: Outcome) {
    if s.DfuManifestWaitReset? then o == Outcome(s, Accept([]))
    else if s.DfuError? then o == Outcome(s, Reject)
    else o == Outcome(DfuError(StalledPkt), Reject)
  }

  /** The IN requests a state serves: DFU_UPLOAD 2, DFU_GETSTATUS 3, DFU_GETSTATE 5. */
  predicate ServesIn(caps: Capabilities, s: State, request: int, length: nat) {
    !s.DfuManifestWaitReset? &&
    (request == 3 || request == 5
     || (request == 2 && (s.DfuUploadIdle? || (s.DfuIdle? && caps.canUpload && length <= caps.transferSize))))
  }

  /** Of the IN requests only these reach the handler or get data; every other one stalls. An upload
      the handler refuses is answered with nothing, and shows the handler's error. */
  lemma InAnswers(caps: Capabilities, s: State, request: int, value: nat, length: nat, a: Answer)
    requires !s.AppIdle? && !s.AppDetach?
    ensures var ev := In(request, value, length);
      var o := Resume(caps, s, ev, a);
      && (!ServesIn(caps, s, request, length) ==> CallOf(caps, s, ev) == NoCall && Turned(s, o))
      && (ServesIn(caps, s, request, length) && request == 2 ==>
            && CallOf(caps, s, ev) == CallUpload(value)
            && (a.Fails? ==> o == Outcome(DfuError(a.error), Accept([])))
            && (a.Sent? ==> o == Outcome(if |a.bytes| < length then DfuIdle else DfuUploadIdle, Accept(a.bytes))))
  {
    hide StatusBytes;
  }

  /** Of the OUT requests DFU_DNLOAD 1, DFU_CLRSTATUS 4 and DFU_ABORT 6 are served where they make
      sense, with an empty reply; every other one stalls. */
  lemma OutAnswers(caps: Capabilities, s: State, request: int, value: nat, length: nat, data: seq<Byte>, a: Answer)
    requires !s.AppIdle? && !s.AppDetach?
    ensures var ev := Out(request, value, length, data);
      var o := Resume(caps, s, ev, a);
      var call := CallOf(caps, s, ev);
      if request == 1 && length > 0 && (s.DfuDnloadIdle? || (s.DfuIdle? && caps.canDownload)) then
        && call == (if s.DfuIdle? && length != |data| then AssertFails else CallDownload(value, data))
        && o == Outcome(if a.Fails? then DfuError(a.error) else DfuDnloadSync, Accept([]))
      else if request == 1 && length == 0 && s.DfuDnloadIdle? then
        call == AskComplete && if a.Yes? then o == Outcome(DfuManifestSync, Accept([])) else Turned(s, o)
      else if (request == 4 && s.DfuError?) || (request == 6 && (s.DfuIdle? || s.DfuUploadIdle?)) then
        call == NoCall && o == Outcome(DfuIdle, Accept([]))
      else call == NoCall && Turned(s, o)
  {
  }
}
