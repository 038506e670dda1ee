/** The DFU handler of src/nucleo_f401re/dfu/mode.rs (`DFUModeImpl`), as functions on
    values. */
module HandlerSpec {
  import opened Bytes
  import opened Dfu
  import opened Platform
  import opened FlashSpec
  import opened ProgramSpec

  datatype Slice = Slice(from: int, len: nat)

  /** A slice of the application region. */
  type AppSlice = s: Slice | APPLICATION_REGION_START <= s.from && s.from + s.len <= MANIFEST_REGION_START
    witness Slice(APPLICATION_REGION_START, 0)

  /** DFUModeState. An upload holds the part of the application still to be sent. */
  datatype Phase =
    | Downloading(prog: Prog)
    | Manifesting(prog: Prog)
    | Uploading(rest: AppSlice)
    | Resting
    | Failing

  datatype Handler = Handler(phase: Phase, mem: Mem)

  /** What the hardware contributes to one handler call: at most one status read and one
      unlock. */
  datatype Env = Env(reply: Reply, unlocked: bool)

  /** What a handler method returns, for all methods; `Panics` if it does not return. */
  datatype Answer = Yes | No | Okay | Sent(bytes: seq<Byte>) | Fails(error: Error) | Panics

  datatype Reaction = Reaction(handler: Handler, answer: Answer)

  // ---- the manifest and the application in flash ----

  function FlashBytes(f: Flash, addr: int, n: nat): (bytes: seq<Byte>)
    requires FLASH_BASE <= addr && addr + n <= FLASH_END
    ensures |bytes| == n
  {
    f[addr - FLASH_BASE..addr - FLASH_BASE + n]
  }

  function ManifestLength(f: Flash): nat {
    FromLe(FlashBytes(f, MANIFEST_REGION_START, 4))
  }

  function ManifestHash(d: Digest, f: Flash): seq<Byte> {
    FlashBytes(f, MANIFEST_REGION_START + 4, d.Length())
  }

  function Word(f: Flash, addr: int): nat
    requires FLASH_BASE <= addr && addr + 4 <= FLASH_END
  {
    FromLe(FlashBytes(f, addr, 4))
  }

  /** Initial stack pointer in RAM, reset vector in the application region. */
  predicate BootVectors(f: Flash) {
    && 0x2000_0000 <= Word(f, APPLICATION_REGION_START) < 0x2002_0000
    && APPLICATION_REGION_START <= Word(f, APPLICATION_REGION_START + 4) < MANIFEST_REGION_START
  }

  function FirmwareValid(d: Digest, h: Handler, bootPinLow: bool): bool {
    if bootPinLow then false
    else
      var app := ApplicationBytes(h.mem.flash, ManifestLength(h.mem.flash));
      d.Of(app) == ManifestHash(d, h.mem.flash) && BootVectors(h.mem.flash)
  }

  // ---- the methods ----

  function TransferComplete(h: Handler): Reaction {
    Reaction(h, if h.phase.Downloading? then (if h.phase.prog.state.AwaitData? then Yes else No)
                else Fails(Unknown))
  }

  function ManifestationInProgress(d: Digest, h: Handler, env: Env): Reaction {
    match h.phase
    case Downloading(p) =>
      var t := Finalize(d, h.mem, p, env.unlocked);
      if t.out.Panicked? then Reaction(Handler(Downloading(t.prog), t.mem), Panics)
      else if t.out.Failed? then Reaction(Handler(Failing, t.mem), Fails(t.out.error))
      else Reaction(Handler(Manifesting(t.prog), t.mem), Yes)
    case Manifesting(p) =>
      var t := PollProgram(d, h.mem, p, env.reply, env.unlocked);
      (match t.out
       case Ready(_) => Reaction(Handler(Resting, t.mem), No)
       case Failed(e) => Reaction(Handler(Failing, t.mem), Fails(e))
       case Pending => Reaction(Handler(Manifesting(t.prog), t.mem), Yes)
       case Panicked => Reaction(Handler(Manifesting(t.prog), t.mem), Panics))
    case Resting => Reaction(h, No)
    case _ => Reaction(h.(phase := Failing), Fails(Unknown))
  }

  function PollHandler(d: Digest, h: Handler, env: Env): Reaction {
    if !h.phase.Downloading? && !h.phase.Manifesting? then Reaction(h, Okay)
    else
      var t := PollProgram(d, h.mem, h.phase.prog, env.reply, env.unlocked);
      match t.out
      case Pending => Reaction(Handler(h.phase.(prog := t.prog), t.mem), Okay)
      case Ready(_) => Reaction(Handler(Resting, t.mem), Okay)
      case Failed(e) => Reaction(Handler(Failing, t.mem), Fails(e))
      case Panicked => Reaction(Handler(h.phase.(prog := t.prog), t.mem), Panics)
  }

  /** `room` is the length of the buffer to fill. */
  function UploadBlock(h: Handler, room: nat): Reaction {
    var phase :=
      if h.phase.Resting?
      then Uploading(Slice(APPLICATION_REGION_START, |ApplicationBytes(h.mem.flash, ManifestLength(h.mem.flash))|))
      else h.phase;
    if !phase.Uploading? then Reaction(h, Fails(Unknown))
    else
      var size := if room < phase.rest.len then room else phase.rest.len;
      var next := if size != 0 then Uploading(Slice(phase.rest.from + size, phase.rest.len - size)) else Resting;
      Reaction(h.(phase := next),
               Sent(FlashBytes(h.mem.flash, phase.rest.from, size)))
  }

  function DownloadBlock(h: Handler, buf: seq<Byte>, env: Env): Reaction {
    match h.phase
    case Resting =>
      (match New(h.mem, buf, env.unlocked)
       case Refused(m, e) => Reaction(h.(mem := m), Fails(e))
       case Crashed(m) => Reaction(h.(mem := m), Panics)
       case Opened(m, p) => Reaction(Handler(Downloading(p), m), Okay))
    case Downloading(p) =>
      var t := Update(h.mem, p, buf, env.unlocked);
      if t.out.Panicked? then Reaction(Handler(Downloading(t.prog), t.mem), Panics)
      else if t.out.Failed? then Reaction(Handler(Failing, t.mem), Fails(t.out.error))
      else Reaction(Handler(Downloading(t.prog), t.mem), Okay)
    case _ => Reaction(h.(phase := Failing), Fails(Unknown))
  }
}
