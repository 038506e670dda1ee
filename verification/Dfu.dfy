/** The vocabulary of the DFU crate: error and state codes, request numbers and
    capabilities (usbd-dfu/src/lib.rs). */
module Dfu {
  import opened Bytes

  datatype Result<+T> = Ok(value: T) | Err(error: Error)

  datatype Error =
    | Target | File | Write | Erase | CheckErased | Programming | Verify | Address
    | NotDone | Firmware | Vendor | UsbReset | PowerOnReset | Unknown | StalledPkt

  function ErrorCode(e: Error): Byte {
    match e
    case Target => 0x01
    case File => 0x02
    case Write => 0x03
    case Erase => 0x04
    case CheckErased => 0x05
    case Programming => 0x06
    case Verify => 0x07
    case Address => 0x08
    case NotDone => 0x09
    case Firmware => 0x0A
    case Vendor => 0x0B
    case UsbReset => 0x0C
    case PowerOnReset => 0x0D
    case Unknown => 0x0E
    case StalledPkt => 0x0F
  }

  /** Timeouts are milliseconds held in a u32. */
  datatype State =
    | AppIdle
    | AppDetach(since: nat)
    | DfuIdle
    | DfuDnloadSync
    | DfuDnloadBusy(timeout: nat)
    | DfuDnloadIdle
    | DfuManifestSync
    | DfuManifest(timeout: nat)
    | DfuManifestWaitReset
    | DfuUploadIdle
    | DfuError(error: Error)

  function StateCode(s: State): Byte {
    match s
    case AppIdle => 0
    case AppDetach(_) => 1
    case DfuIdle => 2
    case DfuDnloadSync => 3
    case DfuDnloadBusy(_) => 4
    case DfuDnloadIdle => 5
    case DfuManifestSync => 6
    case DfuManifest(_) => 7
    case DfuManifestWaitReset => 8
    case DfuUploadIdle => 9
    case DfuError(_) => 10
  }

  /** The codes are those of the specification: errors count from 1 in the order of its table. */
  lemma ErrorCodes()
    ensures var errors := [Target, File, Write, Erase, CheckErased, Programming, Verify, Address, NotDone, Firmware,
                           Vendor, UsbReset, PowerOnReset, Unknown, StalledPkt];
      forall i :: 0 <= i < |errors| ==> ErrorCode(errors[i]) == i + 1
  {
  }

  /** States count from 0. */
  lemma StateCodes(t: nat, e: Error)
    ensures var states := [AppIdle, AppDetach(t), DfuIdle, DfuDnloadSync, DfuDnloadBusy(t), DfuDnloadIdle,
                           DfuManifestSync, DfuManifest(t), DfuManifestWaitReset, DfuUploadIdle, DfuError(e)];
      forall i :: 0 <= i < |states| ==> StateCode(states[i]) == i
  {
  }

  /** The constants a handler type supplies to the class. */
  datatype Capabilities = Capabilities(
    canUpload: bool,
    canDownload: bool,
    manifestationTolerant: bool,
    transferSize: nat,
    pollTimeout: nat)

  const DFU_DNLOAD := 1
  const DFU_UPLOAD := 2
  const DFU_GETSTATUS := 3
  const DFU_CLRSTATUS := 4
  const DFU_GETSTATE := 5
  const DFU_ABORT := 6
}
