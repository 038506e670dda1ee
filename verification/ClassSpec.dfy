/** The USB class of usbd-dfu/src/mode.rs as a machine that turns an event into at most
    one call of the handler, and the handler's answer into the next state and a reply. The
    handler is not part of it: its answers are inputs. */
module ClassSpec {
  import opened Bytes
  import opened Dfu
  import opened HandlerSpec

  /** A class request addressed to the interface, as the USB stack delivers it, or a call of
      the class's own `poll`. */
  datatype Event =
    | In(request: int, value: nat, length: nat)
    | Out(request: int, value: nat, length: nat, data: seq<Byte>)
    | Tick(elapsed: nat)

  datatype Call =
    | NoCall
    | AskComplete
    | AskManifest
    | CallPoll
    | CallUpload(block: nat)
    | CallDownload(block: nat, data: seq<Byte>)
    | AssertFails

  /** What is handed back to the USB stack. */
  datatype Xfer = Accept(bytes: seq<Byte>) | Reject | NoXfer

  datatype Outcome = Outcome(state: State, xfer: Xfer)

  function CallOf(caps: Capabilities, s: State, ev: Event): Call {
    match ev
    case Tick(_) => if s.DfuDnloadBusy? || s.DfuManifest? then CallPoll else NoCall
    case In(request, value, length) =>
      if request == DFU_UPLOAD && s.DfuUploadIdle? then CallUpload(value)
      else if request == DFU_UPLOAD && s.DfuIdle? && caps.canUpload && length <= caps.transferSize
      then CallUpload(value)
      else if request == DFU_GETSTATUS && (s.DfuDnloadSync? || s.DfuDnloadBusy?) then AskComplete
      else if request == DFU_GETSTATUS && (s.DfuManifestSync? || s.DfuManifest?) then AskManifest
      else NoCall
    case Out(request, value, length, data) =>
      if request == DFU_DNLOAD && s.DfuIdle? && caps.canDownload && length > 0
      then if length == |data| then CallDownload(value, data) else AssertFails
      else if request == DFU_DNLOAD && s.DfuDnloadIdle?
      then if length > 0 then CallDownload(value, data) else AskComplete
      else NoCall
  }

  // ---- replies ----

  /** bStatus, bwPollTimeout, bState, iString. */
  function StatusBytes(s: State, timeout: nat): seq<Byte> {
    [if s.DfuError? then ErrorCode(s.error) else 0] + Le(timeout, 3) + [StateCode(s), 0]
  }

  function Status(s: State, timeout: nat): Outcome {
    Outcome(s, Accept(StatusBytes(s, timeout)))
  }

  function Stall(): Outcome {
    Outcome(DfuError(StalledPkt), Reject)
  }

  function Subtract(a: nat, b: nat): nat { if b <= a then a - b else 0 }

  function Resume(caps: Capabilities, s: State, ev: Event, a: Answer): Outcome {
    match ev
    case Tick(elapsed) => Outcome(AfterPoll(caps, s, elapsed, a), NoXfer)
    case In(request, _, length) => AfterIn(caps, s, request, length, a)
    case Out(request, _, length, _) => AfterOut(caps, s, request, length, a)
  }

  function AfterPoll(caps: Capabilities, s: State, elapsed: nat, a: Answer): State {
    match s
    case DfuDnloadBusy(timeout) =>
      if a.Fails? then DfuError(a.error)
      else if Subtract(timeout, elapsed) == 0 then DfuDnloadSync
      else DfuDnloadBusy(Subtract(timeout, elapsed))
    case DfuManifest(timeout) =>
      if a.Fails? then DfuError(a.error)
      else if Subtract(timeout, elapsed) != 0 then DfuManifest(Subtract(timeout, elapsed))
      else if caps.manifestationTolerant then DfuManifestSync
      else DfuManifestWaitReset
    case _ => s
  }

  function AfterUpload(length: nat, a: Answer): Outcome {
    if a.Fails? then Outcome(DfuError(a.error), Accept([]))
    else
      var bytes := if a.Sent? then a.bytes else [];
      Outcome(if |bytes| < length then DfuIdle else DfuUploadIdle, Accept(bytes))
  }

  function AfterDownload(a: Answer): Outcome {
    Outcome(if a.Fails? then DfuError(a.error) else DfuDnloadSync, Accept([]))
  }

  function AfterIn(caps: Capabilities, s: State, request: int, length: nat, a: Answer): Outcome {
    match s
    case DfuIdle =>
      if request == DFU_UPLOAD && caps.canUpload && length <= caps.transferSize then AfterUpload(length, a)
      else if request == DFU_GETSTATUS then Status(s, 1)
      else if request == DFU_GETSTATE then Outcome(s, Accept([StateCode(s)]))
      else Stall()
    case DfuUploadIdle =>
      if request == DFU_UPLOAD then AfterUpload(length, a)
      else if request == DFU_GETSTATUS then Status(s, 1)
      else if request == DFU_GETSTATE then Outcome(s, Accept([StateCode(s)]))
      else Stall()
    case DfuDnloadSync => AfterSyncIn(caps, s, request, a)
    case DfuDnloadBusy(_) => AfterSyncIn(caps, s, request, a)
    case DfuDnloadIdle =>
      if request == DFU_GETSTATE then Outcome(s, Accept([StateCode(s)]))
      else if request == DFU_GETSTATUS then Status(s, caps.pollTimeout)
      else Stall()
    case DfuManifestSync => AfterManifestIn(caps, s, request, a)
    case DfuManifest(_) => AfterManifestIn(caps, s, request, a)
    case DfuManifestWaitReset => Outcome(s, Accept([]))
    case DfuError(_) =>
      if request == DFU_GETSTATE then Outcome(s, Accept([StateCode(s)]))
      else if request == DFU_GETSTATUS then Status(s, 1)
      else Outcome(s, Reject)
    case _ => Stall()
  }

  function AfterSyncIn(caps: Capabilities, s: State, request: int, a: Answer): Outcome {
    if request == DFU_GETSTATE then Outcome(s, Accept([StateCode(s)]))
    else if request == DFU_GETSTATUS then
      Status(if a.Fails? then DfuError(a.error)
             else if a.Yes? then DfuDnloadIdle
             else DfuDnloadBusy(caps.pollTimeout),
             caps.pollTimeout)
    else Stall()
  }

  function AfterManifestIn(caps: Capabilities, s: State, request: int, a: Answer): Outcome {
    if request == DFU_GETSTATE then Outcome(s, Accept([StateCode(s)]))
    else if request == DFU_GETSTATUS then
      if a.Yes? then Status(DfuManifest(caps.pollTimeout), caps.pollTimeout)
      else if a.No? && caps.manifestationTolerant then Status(DfuIdle, caps.pollTimeout)
      else Stall()
    else Stall()
  }

  function AfterOut(caps: Capabilities, s: State, request: int, length: nat, a: Answer): Outcome {
    match s
    case DfuIdle =>
      if request == DFU_DNLOAD && caps.canDownload && length > 0 then AfterDownload(a)
      else if request == DFU_ABORT then Outcome(s, Accept([]))
      else Stall()
    case DfuDnloadIdle =>
      if request == DFU_DNLOAD && length > 0 then AfterDownload(a)
      else if request == DFU_DNLOAD && a.Yes? then Outcome(DfuManifestSync, Accept([]))
      else Stall()
    case DfuManifestWaitReset => Outcome(s, Accept([]))
    case DfuUploadIdle =>
      if request == DFU_ABORT then Outcome(DfuIdle, Accept([])) else Stall()
    case DfuError(_) =>
      if request == DFU_CLRSTATUS then Outcome(DfuIdle, Accept([])) else Outcome(s, Reject)
    case _ => Stall()
  }
}
