/** The USB class in its own form: an object that holds the interface state and calls its
    handler. */
module DfuClass {
  import opened Bytes
  import opened Dfu
  import opened Platform
  import opened DfuHandler
  import opened ClassSpec
  import HandlerSpec
  import Device

  class DfuModeClass {
    const handler: DfuModeImpl
    const caps: Capabilities
    var state: State
    /** The firmware has panicked: nothing runs any more. */
    var halted: bool
    ghost var origin: Flash
    ghost var received: seq<Byte>

    ghost predicate Valid()
      reads this, handler, handler.memory
    {
      handler.Valid()
    }

    ghost function Frame(): set<object>
      reads this, handler
    {
      {this, handler, handler.memory, handler.memory.cells} + handler.Owned()
    }

    ghost function View(): Device.Device
      requires Valid()
      reads this, handler, handler.memory, handler.memory.cells, handler.Owned()
    {
      Device.Device(state, handler.View(), halted, origin, received)
    }

    /** What the model makes of an event in the present state. */
    ghost function Expected(ev: Event, env: HandlerSpec.Env): Device.Moved
      requires Valid()
      reads this, handler, handler.memory, handler.memory.cells, handler.Owned()
    {
      Device.Move(handler.digest, caps, View(), Device.Stimulus(ev, env))
    }

    constructor (handler: DfuModeImpl, caps: Capabilities, bootPinLow: bool)
      requires handler.Valid() && handler.state.Idle? && handler.memory.state.DriverIdle? && handler.memory.log == []
      ensures Valid() && this.handler == handler && this.caps == caps
      ensures View() == Device.PowerOn(handler.digest, handler.memory.cells[..], bootPinLow)
    {
      var valid := handler.IsFirmwareValid(bootPinLow);
      this.handler := handler;
      this.caps := caps;
      state := if valid then DfuIdle else DfuError(Firmware);
      halted := false;
      origin := handler.memory.cells[..];
      received := [];
    }

    // ---- replies ----

    /** Answers DFU_GETSTATE in every state that does. */
    method AcceptGetState(value: nat, length: nat, ghost env: HandlerSpec.Env) returns (xfer: Xfer)
      requires Valid() && !halted && !state.AppIdle? && !state.AppDetach? && !state.DfuManifestWaitReset?
      ensures Device.Moved(View(), xfer) == Expected(In(DFU_GETSTATE, value, length), env)
    {
      xfer := Accept([StateCode(state)]);
    }

    method AcceptGetStatus(pollTimeout: nat) returns (xfer: Xfer)
      ensures xfer == Accept(StatusBytes(state, pollTimeout))
    {
      var code := if state.DfuError? then ErrorCode(state.error) else 0;
      var timeout := Le(pollTimeout, 3);
      var status := [code, timeout[0], timeout[1], timeout[2], StateCode(state), 0];
      assert status == StatusBytes(state, pollTimeout);
      xfer := Accept(status);
    }

    method Stall() returns (xfer: Xfer)
      modifies this`state
      ensures state == DfuError(StalledPkt) && xfer == Reject
    {
      state := DfuError(StalledPkt);
      xfer := Reject;
    }

    method AcceptDownload(value: nat, length: nat, data: seq<Byte>, env: HandlerSpec.Env) returns (xfer: Xfer)
      requires Valid() && !halted && state.DfuIdle? && caps.canDownload && length > 0
      modifies Frame()
      ensures Valid() && fresh(Frame() - old(Frame()))
      ensures Device.Moved(View(), xfer) == old(Expected(Out(DFU_DNLOAD, value, length, data), env))
    {
      if length != |data| {
        halted := true;
        return NoXfer;
      }
      xfer := HandOver(value, length, data, env);
    }

    /** Hand a block to the handler and wait for the status request. */
    method HandOver(value: nat, length: nat, data: seq<Byte>, env: HandlerSpec.Env) returns (xfer: Xfer)
      requires Valid() && !halted && length > 0
      requires (state.DfuIdle? && caps.canDownload && length == |data|) || state.DfuDnloadIdle?
      modifies Frame()
      ensures Valid() && fresh(Frame() - old(Frame()))
      ensures Device.Moved(View(), xfer) == old(Expected(Out(DFU_DNLOAD, value, length, data), env))
    {
      hide HandlerSpec.TransferComplete, HandlerSpec.ManifestationInProgress, HandlerSpec.PollHandler,
        HandlerSpec.UploadBlock, HandlerSpec.DownloadBlock, StatusBytes, AfterIn, AfterPoll;
      ghost var resting, flash := handler.state.Idle?, handler.memory.cells[..];
      var answer := handler.Download(value, data, env);
      if answer.Panics? {
        halted := true;
        return NoXfer;
      }
      state := DfuDnloadSync;
      if answer.Fails? {
        state := DfuError(answer.error);
      } else {
        received := if resting then data else received + data;
        origin := if resting then flash else origin;
      }
      xfer := Accept([]);
    }

    method AcceptUpload(value: nat, length: nat, buf: array<Byte>, ghost env: HandlerSpec.Env) returns (xfer: Xfer)
      requires Valid() && !halted && buf.Length == Device.CONTROL_BUFFER && buf !in Frame()
      requires state.DfuUploadIdle? || (state.DfuIdle? && caps.canUpload && length <= caps.transferSize)
      modifies Frame(), buf
      ensures Valid() && fresh(Frame() - old(Frame()))
      ensures Device.Moved(View(), xfer) == old(Expected(In(DFU_UPLOAD, value, length), env))
    {
      hide HandlerSpec.TransferComplete, HandlerSpec.ManifestationInProgress, HandlerSpec.PollHandler,
        HandlerSpec.UploadBlock, HandlerSpec.DownloadBlock, StatusBytes, AfterOut, AfterPoll;
      state := DfuUploadIdle;
      var answer := handler.Upload(value, buf);
      if answer.Ok? {
        if answer.value < length {
          state := DfuIdle;
        }
        xfer := Accept(buf[..answer.value]);
      } else {
        state := DfuError(answer.error);
        xfer := Accept([]);
      }
    }

    // ---- requests, state by state ----

    method IdleIn(request: int, value: nat, length: nat, buf: array<Byte>, ghost env: HandlerSpec.Env)
      returns (xfer: Xfer)
      requires Valid() && !halted && state.DfuIdle? && buf.Length == Device.CONTROL_BUFFER && buf !in Frame()
      modifies Frame(), buf
      ensures Valid() && fresh(Frame() - old(Frame()))
      ensures Device.Moved(View(), xfer) == old(Expected(In(request, value, length), env))
    {
      if request == DFU_UPLOAD && caps.canUpload && length <= caps.transferSize {
        xfer := AcceptUpload(value, length, buf, env);
      } else if request == DFU_GETSTATUS {
        xfer := AcceptGetStatus(1);
      } else if request == DFU_GETSTATE {
        xfer := AcceptGetState(value, length, env);
      } else {
        xfer := Stall();
      }
    }

    method IdleOut(request: int, value: nat, length: nat, data: seq<Byte>, env: HandlerSpec.Env) returns (xfer: Xfer)
      requires Valid() && !halted && state.DfuIdle?
      modifies Frame()
      ensures Valid() && fresh(Frame() - old(Frame()))
      ensures Device.Moved(View(), xfer) == old(Expected(Out(request, value, length, data), env))
    {
      if request == DFU_DNLOAD && caps.canDownload && length > 0 {
        xfer := AcceptDownload(value, length, data, env);
      } else if request == DFU_ABORT {
        xfer := Accept([]);
      } else {
        xfer := Stall();
      }
    }

    method DownloadSyncIn(request: int, value: nat, length: nat, ghost env: HandlerSpec.Env) returns (xfer: Xfer)
      requires Valid() && !halted && (state.DfuDnloadSync? || state.DfuDnloadBusy?)
      modifies this`state
      ensures Valid()
      ensures Device.Moved(View(), xfer) == old(Expected(In(request, value, length), env))
    {
      hide HandlerSpec.ManifestationInProgress, HandlerSpec.PollHandler, HandlerSpec.UploadBlock,
        HandlerSpec.DownloadBlock, StatusBytes, AfterOut, AfterPoll, AfterUpload, AfterManifestIn;
      if request == DFU_GETSTATE {
        xfer := AcceptGetState(value, length, env);
      } else if request == DFU_GETSTATUS {
        var answer := handler.IsTransferComplete();
        state :=
          if answer.Fails? then DfuError(answer.error)
          else if answer.Yes? then DfuDnloadIdle
          else DfuDnloadBusy(caps.pollTimeout);
        xfer := AcceptGetStatus(caps.pollTimeout);
      } else {
        xfer := Stall();
      }
    }

    method DownloadIdleIn(request: int, value: nat, length: nat, ghost env: HandlerSpec.Env) returns (xfer: Xfer)
      requires Valid() && !halted && state.DfuDnloadIdle?
      modifies this`state
      ensures Valid()
      ensures Device.Moved(View(), xfer) == old(Expected(In(request, value, length), env))
    {
      if request == DFU_GETSTATE {
        xfer := AcceptGetState(value, length, env);
      } else if request == DFU_GETSTATUS {
        xfer := AcceptGetStatus(caps.pollTimeout);
      } else {
        xfer := Stall();
      }
    }

    method DownloadIdleOut(request: int, value: nat, length: nat, data: seq<Byte>, env: HandlerSpec.Env)
      returns (xfer: Xfer)
      requires Valid() && !halted && state.DfuDnloadIdle?
      modifies Frame()
      ensures Valid() && fresh(Frame() - old(Frame()))
      ensures Device.Moved(View(), xfer) == old(Expected(Out(request, value, length, data), env))
    {
      if request == DFU_DNLOAD && length > 0 {
        xfer := HandOver(value, length, data, env);
      } else if request == DFU_DNLOAD {
        var answer := handler.IsTransferComplete();
        if answer.Yes? {
          state := DfuManifestSync;
          xfer := Accept([]);
        } else {
          xfer := Stall();
        }
      } else {
        xfer := Stall();
      }
    }

    method ManifestSyncIn(request: int, value: nat, length: nat, env: HandlerSpec.Env) returns (xfer: Xfer)
      requires Valid() && !halted && (state.DfuManifestSync? || state.DfuManifest?)
      modifies Frame()
      ensures Valid() && fresh(Frame() - old(Frame()))
      ensures Device.Moved(View(), xfer) == old(Expected(In(request, value, length), env))
    {
      hide HandlerSpec.ManifestationInProgress;
      if request == DFU_GETSTATE {
        xfer := AcceptGetState(value, length, env);
      } else if request == DFU_GETSTATUS {
        xfer := AskManifestation(value, length, env);
      } else {
        xfer := Stall();
      }
    }

    method AskManifestation(value: nat, length: nat, env: HandlerSpec.Env) returns (xfer: Xfer)
      requires Valid() && !halted && (state.DfuManifestSync? || state.DfuManifest?)
      modifies Frame()
      ensures Valid() && fresh(Frame() - old(Frame()))
      ensures Device.Moved(View(), xfer) == old(Expected(In(DFU_GETSTATUS, value, length), env))
    {
      hide HandlerSpec.TransferComplete, HandlerSpec.ManifestationInProgress, HandlerSpec.PollHandler,
        HandlerSpec.UploadBlock, HandlerSpec.DownloadBlock, StatusBytes, AfterOut, AfterPoll;
      var answer := handler.IsManifestationInProgress(env);
      if answer.Panics? {
        halted := true;
        xfer := NoXfer;
      } else if answer.Yes? {
        state := DfuManifest(caps.pollTimeout);
        xfer := AcceptGetStatus(caps.pollTimeout);
      } else if answer.No? && caps.manifestationTolerant {
        state := DfuIdle;
        xfer := AcceptGetStatus(caps.pollTimeout);
      } else {
        xfer := Stall();
      }
    }

    method UploadIn(request: int, value: nat, length: nat, buf: array<Byte>, ghost env: HandlerSpec.Env)
      returns (xfer: Xfer)
      requires Valid() && !halted && state.DfuUploadIdle? && buf.Length == Device.CONTROL_BUFFER && buf !in Frame()
      modifies Frame(), buf
      ensures Valid() && fresh(Frame() - old(Frame()))
      ensures Device.Moved(View(), xfer) == old(Expected(In(request, value, length), env))
    {
      if request == DFU_UPLOAD {
        xfer := AcceptUpload(value, length, buf, env);
      } else if request == DFU_GETSTATUS {
        xfer := AcceptGetStatus(1);
      } else if request == DFU_GETSTATE {
        xfer := AcceptGetState(value, length, env);
      } else {
        xfer := Stall();
      }
    }

    method UploadOut(request: int, value: nat, length: nat, data: seq<Byte>, ghost env: HandlerSpec.Env)
      returns (xfer: Xfer)
      requires Valid() && !halted && state.DfuUploadIdle?
      modifies this`state
      ensures Valid()
      ensures Device.Moved(View(), xfer) == old(Expected(Out(request, value, length, data), env))
    {
      if request == DFU_ABORT {
        state := DfuIdle;
        xfer := Accept([]);
      } else {
        xfer := Stall();
      }
    }

    method ErrorIn(request: int, value: nat, length: nat, ghost env: HandlerSpec.Env) returns (xfer: Xfer)
      requires Valid() && !halted && state.DfuError?
      ensures Device.Moved(View(), xfer) == Expected(In(request, value, length), env)
    {
      if request == DFU_GETSTATE {
        xfer := AcceptGetState(value, length, env);
      } else if request == DFU_GETSTATUS {
        xfer := AcceptGetStatus(1);
      } else {
        xfer := Reject;
      }
    }

    method ErrorOut(request: int, value: nat, length: nat, data: seq<Byte>, ghost env: HandlerSpec.Env)
      returns (xfer: Xfer)
      requires Valid() && !halted && state.DfuError?
      modifies this`state
      ensures Valid()
      ensures Device.Moved(View(), xfer) == old(Expected(Out(request, value, length, data), env))
    {
      if request == DFU_CLRSTATUS {
        state := DfuIdle;
        xfer := Accept([]);
      } else {
        xfer := Reject;
      }
    }

    // ---- entry points ----

    /** UsbClass::control_in, for a class request addressed to the interface. */
    method ControlIn(request: int, value: nat, length: nat, buf: array<Byte>, env: HandlerSpec.Env) returns (xfer: Xfer)
      requires Valid() && !halted && buf.Length == Device.CONTROL_BUFFER && buf !in Frame()
      modifies Frame(), buf
      ensures Valid() && fresh(Frame() - old(Frame()))
      ensures Device.Moved(View(), xfer) == old(Expected(In(request, value, length), env))
    {
      hide Device.React;
      match state
      case DfuIdle => xfer := IdleIn(request, value, length, buf, env);
      case DfuDnloadBusy(_) => xfer := DownloadSyncIn(request, value, length, env);
      case DfuDnloadSync => xfer := DownloadSyncIn(request, value, length, env);
      case DfuDnloadIdle => xfer := DownloadIdleIn(request, value, length, env);
      case DfuManifest(_) => xfer := ManifestSyncIn(request, value, length, env);
      case DfuManifestSync => xfer := ManifestSyncIn(request, value, length, env);
      case DfuManifestWaitReset => xfer := QuietIn(request, value, length, env);
      case DfuUploadIdle => xfer := UploadIn(request, value, length, buf, env);
      case DfuError(_) => xfer := ErrorIn(request, value, length, env);
      case AppIdle => xfer := StrayIn(request, value, length, env);
      case AppDetach(_) => xfer := StrayIn(request, value, length, env);
    }

    method QuietIn(request: int, value: nat, length: nat, ghost env: HandlerSpec.Env) returns (xfer: Xfer)
      requires Valid() && !halted && state.DfuManifestWaitReset?
      ensures Device.Moved(View(), xfer) == Expected(In(request, value, length), env)
    {
      xfer := Accept([]);
    }

    method StrayIn(request: int, value: nat, length: nat, ghost env: HandlerSpec.Env) returns (xfer: Xfer)
      requires Valid() && !halted && (state.AppIdle? || state.AppDetach?)
      modifies this`state
      ensures Valid()
      ensures Device.Moved(View(), xfer) == old(Expected(In(request, value, length), env))
    {
      xfer := Stall();
    }

    /** UsbClass::control_out, likewise. */
    method ControlOut(request: int, value: nat, length: nat, data: seq<Byte>, env: HandlerSpec.Env) returns (xfer: Xfer)
      requires Valid() && !halted
      modifies Frame()
      ensures Valid() && fresh(Frame() - old(Frame()))
      ensures Device.Moved(View(), xfer) == old(Expected(Out(request, value, length, data), env))
    {
      if state.DfuIdle? {
        xfer := IdleOut(request, value, length, data, env);
      } else if state.DfuDnloadIdle? {
        xfer := DownloadIdleOut(request, value, length, data, env);
      } else if state.DfuManifestWaitReset? {
        xfer := Accept([]);
      } else if state.DfuUploadIdle? {
        xfer := UploadOut(request, value, length, data, env);
      } else if state.DfuError? {
        xfer := ErrorOut(request, value, length, data, env);
      } else {
        xfer := Stall();
      }
    }

    /** DFUModeClass::poll. */
    method Poll(elapsed: nat, env: HandlerSpec.Env)
      requires Valid() && !halted
      modifies Frame()
      ensures Valid() && fresh(Frame() - old(Frame()))
      ensures Device.Moved(View(), NoXfer) == old(Expected(Tick(elapsed), env))
    {
      hide HandlerSpec.TransferComplete, HandlerSpec.ManifestationInProgress, HandlerSpec.PollHandler,
        HandlerSpec.UploadBlock, HandlerSpec.DownloadBlock, StatusBytes, AfterOut, AfterIn;
      if state.DfuDnloadBusy? || state.DfuManifest? {
        var answer := handler.Poll(env);
        if answer.Panics? {
          halted := true;
        } else if answer.Fails? {
          state := DfuError(answer.error);
        } else {
          var remaining := Subtract(state.timeout, elapsed);
          if state.DfuDnloadBusy? {
            state := if remaining == 0 then DfuDnloadSync else DfuDnloadBusy(remaining);
          } else if remaining != 0 {
            state := DfuManifest(remaining);
          } else if caps.manifestationTolerant {
            state := DfuManifestSync;
          } else {
            state := DfuManifestWaitReset;
          }
        }
      }
    }
  }
}
