/** Reading the firmware back through the protocol. */
module Upload {
  import opened Bytes
  import opened Dfu
  import opened Platform
  import opened HandlerSpec
  import opened FlashSpec
  import opened ProgramSpec
  import opened ClassSpec
  import opened Device
  import opened Firmware

  /** What of the bytes handed to the USB stack reaches a host that asked for `length`. */
  function OnTheWire(xfer: Xfer, length: nat): seq<Byte> {
    if xfer.Accept? then Prefix(xfer.bytes, length) else []
  }

  datatype Read = Read(bytes: seq<Byte>, dev: Device, requests: nat)

  /** A host that sends DFU_UPLOAD with the same wLength until it gets a short block, or has
      sent `tries` requests. */
  function ReadBack(d: Digest, caps: Capabilities, dev: Device, length: nat, env: Env, tries: nat): Read
    decreases tries
  {
    if tries == 0 then Read([], dev, 0)
    else
      var m := Move(d, caps, dev, UploadRequest(0, length, env));
      var block := OnTheWire(m.xfer, length);
      if |block| < length then Read(block, m.dev, 1)
      else
        var r := ReadBack(d, caps, m.dev, length, env, tries - 1);
        Read(block + r.bytes, r.dev, 1 + r.requests)
  }

  // ---- what a handler has to send ----

  function Application(h: Handler): seq<Byte> {
    ApplicationBytes(h.mem.flash, ManifestLength(h.mem.flash))
  }

  /** A handler that sends: the whole application if it rests, what is left of it if it has begun. */
  predicate Sends(h: Handler) { h.phase.Resting? || h.phase.Uploading? }

  function Left(h: Handler): seq<Byte>
    requires Sends(h)
  {
    if h.phase.Resting? then Application(h) else FlashBytes(h.mem.flash, h.phase.rest.from, h.phase.rest.len)
  }

  /** A device in dfuIDLE or dfuUPLOAD-IDLE whose handler has `rest` to send. */
  predicate Offers(caps: Capabilities, dev: Device, rest: seq<Byte>) {
    && !dev.halted && (dev.cls.DfuUploadIdle? || (dev.cls.DfuIdle? && caps.canUpload))
    && Sends(dev.handler) && rest == Left(dev.handler)
  }

  /** Only dfuIDLE looks at wLength. */
  predicate Admits(caps: Capabilities, dev: Device, length: nat) {
    dev.cls.DfuIdle? ==> length <= caps.transferSize
  }

  /** Ready to send the whole application. */
  predicate ReadyToSend(caps: Capabilities, dev: Device, app: seq<Byte>) {
    dev.cls.DfuIdle? && dev.handler.phase.Resting? && Offers(caps, dev, app)
  }

  function Min(a: nat, b: nat): nat { if a < b then a else b }

  /** One call: the handler gives up at most a buffer of what is left. */
  lemma UploadStep(h: Handler, room: nat)
    requires Sends(h)
    ensures var r := UploadBlock(h, room);
      var size := Min(room, |Left(h)|);
      && r.answer == Sent(Left(h)[..size]) && r.handler.mem == h.mem
      && (if size == 0 then r.handler.phase.Resting?
          else r.handler.phase.Uploading? && Left(r.handler) == Left(h)[size..])
  {
    hide FlashBytes, ManifestLength;
    var f, rest := h.mem.flash, Left(h);
    if h.phase.Resting? {
      ApplicationSlice(f, ManifestLength(f));
      assert rest == FlashBytes(f, APPLICATION_REGION_START, |rest|);
      SliceSplits(f, APPLICATION_REGION_START, |rest|, Min(room, |rest|));
    } else {
      SliceSplits(f, h.phase.rest.from, |rest|, Min(room, |rest|));
    }
  }

  lemma ApplicationSlice(f: Flash, length: nat)
    ensures var app := ApplicationBytes(f, length); app == FlashBytes(f, APPLICATION_REGION_START, |app|)
  {
  }

  lemma SliceSplits(f: Flash, from: int, len: nat, n: nat)
    requires FLASH_BASE <= from && from + len <= FLASH_END && n <= len
    ensures FlashBytes(f, from, len)[..n] == FlashBytes(f, from, n)
    ensures FlashBytes(f, from, len)[n..] == FlashBytes(f, from + n, len - n)
  {
  }

  function UploadRequest(number: nat, length: nat, env: Env): Stimulus {
    Stimulus(In(DFU_UPLOAD, number, length), env)
  }

  /** One request. */
  lemma UploadMove(
    d: Digest, caps: Capabilities, dev: Device, number: nat, length: nat, env: Env, rest: seq<Byte>)
    requires Offers(caps, dev, rest) && Admits(caps, dev, length)
    ensures var m := Move(d, caps, dev, UploadRequest(number, length, env));
      var size := Min(CONTROL_BUFFER, |rest|);
      && m.xfer == Accept(rest[..size]) && !m.dev.halted
      && m.dev.handler.mem == dev.handler.mem
      && m.dev.cls == (if size < length then DfuIdle else DfuUploadIdle)
      && (if size == 0 then m.dev.handler.phase.Resting? else m.dev.handler.phase.Uploading?)
      && Offers(caps, m.dev.(cls := DfuUploadIdle), if size == 0 then Application(dev.handler) else rest[size..])
  {
    UploadStep(dev.handler, CONTROL_BUFFER);
    hide UploadBlock, ApplicationBytes, FlashBytes, ManifestLength;
  }

  /** With requests as long as the control buffer the host reads exactly the bytes that were
      left, in one request more than it takes full blocks; the last is short, the class is idle
      again, and the handler rests again exactly if that last block was empty. */
  lemma {:induction false} ReadBackAll(
    d: Digest, caps: Capabilities, dev: Device, env: Env, rest: seq<Byte>, tries: nat)
    requires Offers(caps, dev, rest) && Admits(caps, dev, CONTROL_BUFFER)
    requires tries > |rest| / CONTROL_BUFFER
    ensures var r := ReadBack(d, caps, dev, CONTROL_BUFFER, env, tries);
      && r.bytes == rest && r.requests == |rest| / CONTROL_BUFFER + 1
      && r.dev.cls == DfuIdle && r.dev.handler.mem == dev.handler.mem
      && !r.dev.halted
      && (if |rest| % CONTROL_BUFFER == 0 then r.dev.handler.phase.Resting? else r.dev.handler.phase.Uploading?)
    decreases |rest|
  {
    hide Move, Offers, Application;
    UploadMove(d, caps, dev, 0, CONTROL_BUFFER, env, rest);
    var m := Move(d, caps, dev, UploadRequest(0, CONTROL_BUFFER, env));
    if |rest| >= CONTROL_BUFFER {
      assert m.dev.(cls := DfuUploadIdle) == m.dev;
      ReadBackAll(d, caps, m.dev, env, rest[CONTROL_BUFFER..], tries - 1);
      assert rest[..CONTROL_BUFFER] + rest[CONTROL_BUFFER..] == rest;
    }
  }

  // ---- any wLength ----

  /** The handler gives up a whole buffer per request, whatever wLength is: bytes beyond wLength are
      lost, and a wLength beyond the buffer makes every block look like the last. What a host
      gets of `rest`: */
  function Shown(length: nat, rest: seq<Byte>): seq<Byte>
    decreases |rest|
  {
    var size := Min(CONTROL_BUFFER, |rest|);
    if size < length then rest[..size]
    else if size == 0 then []
    else rest[..length] + Shown(length, rest[size..])
  }

  lemma {:induction false} ShownAll(length: nat, rest: seq<Byte>)
    ensures |Shown(length, rest)| <= |rest|
    ensures Shown(length, rest) == rest <==> length == CONTROL_BUFFER || |rest| <= Min(length, CONTROL_BUFFER)
    decreases |rest|
  {
    var size := Min(CONTROL_BUFFER, |rest|);
    if size >= length && size > 0 {
      ShownAll(length, rest[size..]);
      assert length == size ==> rest[..length] + rest[size..] == rest;
    }
  }

  /** n bytes, counted in control buffers, the last one possibly partial. */
  function Buffers(n: nat): nat { (n + CONTROL_BUFFER - 1) / CONTROL_BUFFER }

  lemma {:induction false} ReadsNothing(d: Digest, caps: Capabilities, dev: Device, env: Env, tries: nat)
    ensures ReadBack(d, caps, dev, 0, env, tries).bytes == []
    decreases tries
  {
    if tries > 0 {
      hide Move;
      var m := Move(d, caps, dev, UploadRequest(0, 0, env));
      ReadsNothing(d, caps, m.dev, env, tries - 1);
    }
  }

  lemma {:induction false} ShowsNothing(rest: seq<Byte>)
    ensures Shown(0, rest) == []
    decreases |rest|
  {
    if rest != [] { ShowsNothing(rest[Min(CONTROL_BUFFER, |rest|)..]); }
  }

  lemma OnTheWireOf(bytes: seq<Byte>, length: nat)
    ensures OnTheWire(Accept(bytes), length) == if length <= |bytes| then bytes[..length] else bytes
  {
  }

  lemma ReadBackUnfolds(
    d: Digest, caps: Capabilities, dev: Device, length: nat, env: Env, block: seq<Byte>, tries: nat)
    requires tries > 0
    requires Move(d, caps, dev, UploadRequest(0, length, env)).xfer == Accept(block)
    ensures var m := Move(d, caps, dev, UploadRequest(0, length, env));
      ReadBack(d, caps, dev, length, env, tries)
      == if |block| < length then Read(block, m.dev, 1)
         else
           var r := ReadBack(d, caps, m.dev, length, env, tries - 1);
           Read(block[..length] + r.bytes, r.dev, 1 + r.requests)
  {
    hide Move;
    OnTheWireOf(block, length);
  }

  lemma ShownUnfolds(length: nat, rest: seq<Byte>)
    requires length > 0
    ensures var size := Min(CONTROL_BUFFER, |rest|);
      Shown(length, rest)
      == if size < length then rest[..size] else rest[..length] + Shown(length, rest[size..])
  {
  }

  lemma BuffersStep(n: nat)
    requires n > 0
    ensures Buffers(n) == 1 + Buffers(n - Min(CONTROL_BUFFER, n))
  {
  }

  /** One request of a read-back that goes on. */
  lemma GoesOn(
    d: Digest, caps: Capabilities, dev: Device, length: nat, env: Env, rest: seq<Byte>)
    requires Offers(caps, dev, rest) && Admits(caps, dev, length) && 0 < length <= Min(CONTROL_BUFFER, |rest|)
    ensures var m := Move(d, caps, dev, UploadRequest(0, length, env));
      Offers(caps, m.dev, rest[Min(CONTROL_BUFFER, |rest|)..]) && m.dev.cls == DfuUploadIdle
  {
    hide Move, Left, Application;
    UploadMove(d, caps, dev, 0, length, env, rest);
  }

  /** Every byte a host gets with a fixed wLength of any size, of whatever the handler has left: from
      the start of an upload, in the middle of one, or in dfuIDLE after one was aborted. */
  lemma {:induction false} ReadBackBytes(
    d: Digest, caps: Capabilities, dev: Device, length: nat, env: Env, rest: seq<Byte>, tries: nat)
    requires Offers(caps, dev, rest) && Admits(caps, dev, length)
    requires tries > Buffers(|rest|)
    ensures ReadBack(d, caps, dev, length, env, tries).bytes == Shown(length, rest)
    decreases |rest|
  {
    hide Move, Offers, ReadBack, Shown, Buffers, Application;
    if length == 0 {
      ReadsNothing(d, caps, dev, env, tries);
      ShowsNothing(rest);
    } else {
      var size := Min(CONTROL_BUFFER, |rest|);
      UploadMove(d, caps, dev, 0, length, env, rest);
      ReadBackUnfolds(d, caps, dev, length, env, rest[..size], tries);
      ShownUnfolds(length, rest);
      if size >= length {
        GoesOn(d, caps, dev, length, env, rest);
        BuffersStep(|rest|);
        var next := Move(d, caps, dev, UploadRequest(0, length, env)).dev;
        ReadBackBytes(d, caps, next, length, env, rest[size..], tries - 1);
        assert rest[..size][..length] == rest[..length];
      }
    }
  }

  /** The handler has noticed the end of a complete read-back of n bytes. */
  predicate Notices(length: nat, n: nat) {
    || (n % CONTROL_BUFFER == 0 && (n == 0 || length <= CONTROL_BUFFER))
    || length <= n % CONTROL_BUFFER
  }

  /** A read-back with any wLength but 0 ends in dfuIDLE, and the handler rests again exactly if
      the last, short block was empty. */
  lemma {:induction false} ReadBackEnds(
    d: Digest, caps: Capabilities, dev: Device, length: nat, env: Env, rest: seq<Byte>, tries: nat)
    requires Offers(caps, dev, rest) && Admits(caps, dev, length)
    requires length > 0 && tries > Buffers(|rest|)
    ensures var after := ReadBack(d, caps, dev, length, env, tries).dev;
      && !after.halted && after.cls == DfuIdle && after.handler.mem == dev.handler.mem
      && (if Notices(length, |rest|) then after.handler.phase.Resting? else after.handler.phase.Uploading?)
    decreases |rest|
  {
    hide Move, Offers, ReadBack, Buffers, Application;
    var size := Min(CONTROL_BUFFER, |rest|);
    UploadMove(d, caps, dev, 0, length, env, rest);
    ReadBackUnfolds(d, caps, dev, length, env, rest[..size], tries);
    if size >= length {
      GoesOn(d, caps, dev, length, env, rest);
      BuffersStep(|rest|);
      var next := Move(d, caps, dev, UploadRequest(0, length, env)).dev;
      ReadBackEnds(d, caps, next, length, env, rest[size..], tries - 1);
    }
  }

  // ---- from dfuIDLE, in every run ----

  /** An uploading handler has sent something already: it holds a proper tail of the application. */
  predicate TailLeft(h: Handler) {
    h.phase.Uploading? ==>
      && APPLICATION_REGION_START < h.phase.rest.from
      && h.phase.rest.from + h.phase.rest.len == APPLICATION_REGION_START + |Application(h)|
  }

  lemma {:induction false} TailKept(d: Digest, caps: Capabilities, dev: Device, st: Stimulus)
    requires TailLeft(dev.handler)
    ensures TailLeft(Move(d, caps, dev, st).dev.handler)
  {
    hide ManifestLength, PollProgram, Finalize, Update, New, Resume;
  }

  lemma {:induction false} TailInEveryRun(
    d: Digest, caps: Capabilities, flash: Flash, pin: bool, run: seq<Stimulus>)
    ensures TailLeft(Run(d, caps, PowerOn(d, flash, pin), run).handler)
  {
    if run != [] {
      hide Move, TailLeft;
      TailInEveryRun(d, caps, flash, pin, run[..|run| - 1]);
      TailKept(d, caps, Run(d, caps, PowerOn(d, flash, pin), run[..|run| - 1]), run[|run| - 1]);
    } else {
      hide FirmwareValid;
    }
  }

  lemma TailIsProper(h: Handler)
    requires TailLeft(h) && Sends(h)
    ensures |Left(h)| <= |Application(h)|
    ensures h.phase.Uploading? ==> |Left(h)| < |Application(h)|
  {
    hide ManifestLength;
  }

  /** A read-back that dfuIDLE does not admit, or the handler does not answer, gets nothing. */
  lemma Refused(d: Digest, caps: Capabilities, dev: Device, length: nat, env: Env)
    requires !dev.halted && dev.cls.DfuIdle?
    requires length > caps.transferSize || !caps.canUpload || !Sends(dev.handler)
    ensures OnTheWire(Move(d, caps, dev, UploadRequest(0, length, env)).xfer, length) == []
  {
  }

  /** What a host gets in dfuIDLE, whatever its wLength and whatever the device did before. */
  lemma {:induction false} ReadBackFromIdle(
    d: Digest, caps: Capabilities, dev: Device, length: nat, env: Env, tries: nat)
    requires !dev.halted && dev.cls.DfuIdle? && TailLeft(dev.handler)
    requires tries > Buffers(|Application(dev.handler)|)
    ensures ReadBack(d, caps, dev, length, env, tries).bytes
            == if caps.canUpload && length <= caps.transferSize && Sends(dev.handler)
               then Shown(length, Left(dev.handler)) else []
  {
    hide Move, ManifestLength, ApplicationBytes;
    if caps.canUpload && length <= caps.transferSize && Sends(dev.handler) {
      TailIsProper(dev.handler);
      ReadBackBytes(d, caps, dev, length, env, Left(dev.handler), tries);
    } else if length == 0 {
      ReadsNothing(d, caps, dev, env, tries);
    } else {
      Refused(d, caps, dev, length, env);
    }
  }

  /** The host gets the application exactly if the handler rests and wLength is the control buffer,
      or the application fits in one request and one buffer; or if there is no application. */
  lemma {:induction false} ReadBackIff(
    d: Digest, caps: Capabilities, dev: Device, length: nat, env: Env, tries: nat)
    requires !dev.halted && dev.cls.DfuIdle? && TailLeft(dev.handler)
    requires tries > Buffers(|Application(dev.handler)|)
    ensures var app := Application(dev.handler);
      ReadBack(d, caps, dev, length, env, tries).bytes == app
      <==> app == [] || (&& caps.canUpload && dev.handler.phase.Resting? && length <= caps.transferSize
                         && (length == CONTROL_BUFFER || |app| <= Min(length, CONTROL_BUFFER)))
  {
    hide ReadBack, ManifestLength, ApplicationBytes;
    ReadBackFromIdle(d, caps, dev, length, env, tries);
    if Sends(dev.handler) {
      TailIsProper(dev.handler);
      ShownAll(length, Left(dev.handler));
    }
  }

  /** The same in every run from power-on. */
  lemma {:induction false} ReadBackInEveryRun(
    d: Digest, caps: Capabilities, flash: Flash, pin: bool, run: seq<Stimulus>, length: nat, env: Env, tries: nat)
    requires var dev := Run(d, caps, PowerOn(d, flash, pin), run);
      !dev.halted && dev.cls.DfuIdle? && tries > Buffers(|Application(dev.handler)|)
    ensures var dev := Run(d, caps, PowerOn(d, flash, pin), run);
      var app := Application(dev.handler);
      ReadBack(d, caps, dev, length, env, tries).bytes == app
      <==> app == [] || (&& caps.canUpload && dev.handler.phase.Resting? && length <= caps.transferSize
                         && (length == CONTROL_BUFFER || |app| <= Min(length, CONTROL_BUFFER)))
  {
    hide Run, PowerOn, ReadBack, ManifestLength, ApplicationBytes, TailLeft;
    TailInEveryRun(d, caps, flash, pin, run);
    ReadBackIff(d, caps, Run(d, caps, PowerOn(d, flash, pin), run), length, env, tries);
  }

  /** Which cells they are: a read-back from a resting handler returns the region from its first byte
      on, as far as the manifest's length word says, but no further than it goes. */
  lemma {:induction false} ReadBackCells(d: Digest, caps: Capabilities, dev: Device, env: Env, tries: nat)
    requires !dev.halted && dev.cls.DfuIdle? && dev.handler.phase.Resting?
    requires caps.canUpload && CONTROL_BUFFER <= caps.transferSize && tries > 3839
    ensures var f := dev.handler.mem.flash;
      var n := if WordAt(f, 0x7_FF80) <= 491_392 then WordAt(f, 0x7_FF80) else 491_392;
      ReadBack(d, caps, dev, CONTROL_BUFFER, env, tries).bytes == f[0x8000..0x8000 + n]
  {
    var f := dev.handler.mem.flash;
    var n := if WordAt(f, 0x7_FF80) <= 491_392 then WordAt(f, 0x7_FF80) else 491_392;
    WordReads(f, 0x7_FF80);
    hide Move, ReadBack, WordAt, FromLe, ApplicationBytes, FlashBytes;
    ApplicationCells(f, WordAt(f, 0x7_FF80));
    var app := Application(dev.handler);
    assert app == f[0x8000..0x8000 + n];
    ReadBackAll(d, caps, dev, env, app, tries);
  }

  /** Without a manifest that is the whole region. */
  lemma {:induction false} BlankManifestReadBack(d: Digest, caps: Capabilities, dev: Device, env: Env, tries: nat)
    requires !dev.halted && dev.cls.DfuIdle? && dev.handler.phase.Resting?
    requires caps.canUpload && CONTROL_BUFFER <= caps.transferSize && tries > 3839
    requires Blank(dev.handler.mem.flash, MANIFEST_REGION_START, FLASH_END)
    ensures ReadBack(d, caps, dev, CONTROL_BUFFER, env, tries).bytes == dev.handler.mem.flash[0x8000..0x7_FF80]
  {
    assert WordAt(dev.handler.mem.flash, 0x7_FF80) == 0xFFFF_FFFF;
    hide WordAt, ReadBack;
    ReadBackCells(d, caps, dev, env, tries);
  }

  /** An upload the handler cannot serve - a session is open, or it has failed - leaves the handler as
      it is and shows errUNKNOWN. */
  lemma UploadRefused(d: Digest, caps: Capabilities, dev: Device, number: nat, length: nat, env: Env)
    requires !dev.halted && dev.cls.DfuIdle? && caps.canUpload && length <= caps.transferSize
    requires !dev.handler.phase.Resting? && !dev.handler.phase.Uploading?
    ensures Move(d, caps, dev, UploadRequest(number, length, env))
            == Moved(dev.(cls := DfuError(Unknown)), Accept([]))
  {
  }

  // ---- examples ----

  /** Half a buffer at a time: of 200 bytes the host gets the first 64 of each buffer. */
  lemma HalfABuffer(d: Digest, caps: Capabilities, dev: Device, env: Env, app: seq<Byte>)
    requires ReadyToSend(caps, dev, app) && caps.transferSize >= CONTROL_BUFFER && |app| == 200
    ensures ReadBack(d, caps, dev, 64, env, 4).bytes == app[..64] + app[128..192]
  {
    hide Move, Offers, ReadBack;
    ReadBackBytes(d, caps, dev, 64, env, app, 4);
    var tail := app[128..];
    assert Shown(64, tail) == tail[..64] + Shown(64, tail[72..]);
    assert tail[72..] == [] && Shown(64, []) == [];
    assert tail[..64] == app[128..192];
  }

  const ABORT: Stimulus := Stimulus(Out(DFU_ABORT, 0, 0, []), Env(Busy, true))

  /** ABORT takes the class back to dfuIDLE and leaves the handler in its upload. */
  lemma AbortKeepsUpload(d: Digest, caps: Capabilities, dev: Device)
    requires !dev.halted && dev.cls.DfuUploadIdle?
    ensures Move(d, caps, dev, ABORT).dev == dev.(cls := DfuIdle)
  {
  }

  /** One block of a 200-byte application, ABORT, and a fresh read-back: the host takes the last
      72 bytes for the firmware. */
  lemma {:induction false} AbortedUploadExample(
    d: Digest, caps: Capabilities, dev: Device, env: Env, app: seq<Byte>)
    requires ReadyToSend(caps, dev, app) && caps.transferSize >= CONTROL_BUFFER && |app| == 200
    ensures var begun := Move(d, caps, dev, UploadRequest(0, CONTROL_BUFFER, env)).dev;
      var aborted := Move(d, caps, begun, ABORT).dev;
      aborted.cls == DfuIdle && ReadBack(d, caps, aborted, CONTROL_BUFFER, env, 2).bytes == app[128..]
  {
    UploadMove(d, caps, dev, 0, CONTROL_BUFFER, env, app);
    var begun := Move(d, caps, dev, UploadRequest(0, CONTROL_BUFFER, env)).dev;
    AbortKeepsUpload(d, caps, begun);
    var aborted := Move(d, caps, begun, ABORT).dev;
    hide Move, ReadBack, Left, Application;
    assert Offers(caps, aborted, app[128..]);
    ReadBackAll(d, caps, aborted, env, app[128..], 2);
  }

  /** A 100-byte application read back twice: the second time the host gets nothing. */
  lemma {:induction false} SecondReadExample(
    d: Digest, caps: Capabilities, dev: Device, env: Env, app: seq<Byte>)
    requires ReadyToSend(caps, dev, app) && caps.transferSize >= CONTROL_BUFFER && |app| == 100
    ensures var first := ReadBack(d, caps, dev, CONTROL_BUFFER, env, 1);
      first.bytes == app && ReadBack(d, caps, first.dev, CONTROL_BUFFER, env, 1).bytes == []
  {
    UploadMove(d, caps, dev, 0, CONTROL_BUFFER, env, app);
    var m := Move(d, caps, dev, UploadRequest(0, CONTROL_BUFFER, env));
    hide Move, Left, Application;
    assert ReadBack(d, caps, dev, CONTROL_BUFFER, env, 1) == Read(app, m.dev, 1);
    assert Offers(caps, m.dev, []);
    hide ReadBack;
    ReadBackAll(d, caps, m.dev, env, [], 1);
  }

  // ---- any list of requests ----

  datatype Request = Request(number: nat, length: nat, env: Env)

  /** The block each of a list of requests gets. */
  function Blocks(d: Digest, caps: Capabilities, dev: Device, requests: seq<Request>): seq<seq<Byte>>
    decreases |requests|
  {
    if requests == [] then []
    else
      var m := Move(d, caps, dev, UploadRequest(requests[0].number, requests[0].length, requests[0].env));
      [OnTheWire(m.xfer, requests[0].length)] + Blocks(d, caps, m.dev, requests[1..])
  }

  /** The same from what is left alone: each request takes a buffer off it and shows its beginning;
      one that finds nothing left starts over; one that is too long for dfuIDLE ends it all. */
  function Given(caps: Capabilities, app: seq<Byte>, left: seq<Byte>, idle: bool, requests: seq<Request>)
    : seq<seq<Byte>>
    decreases |requests|
  {
    if requests == [] then []
    else
      var length, size := requests[0].length, Min(CONTROL_BUFFER, |left|);
      if idle && length > caps.transferSize then seq(|requests|, _ => [])
      else [left[..Min(length, size)]]
           + Given(caps, app, if size == 0 then app else left[size..], size < length, requests[1..])
  }

  lemma {:induction false} StalledBlocks(d: Digest, caps: Capabilities, dev: Device, requests: seq<Request>)
    requires !dev.halted && dev.cls.DfuError?
    ensures Blocks(d, caps, dev, requests) == seq(|requests|, _ => [])
    decreases |requests|
  {
    if requests != [] { StalledBlocks(d, caps, dev, requests[1..]); }
  }

  lemma OneRequest(d: Digest, caps: Capabilities, dev: Device, left: seq<Byte>, r: Request)
    requires Offers(caps, dev, left) && caps.canUpload && Admits(caps, dev, r.length)
    ensures var m := Move(d, caps, dev, UploadRequest(r.number, r.length, r.env));
      var size := Min(CONTROL_BUFFER, |left|);
      && OnTheWire(m.xfer, r.length) == left[..Min(r.length, size)]
      && Offers(caps, m.dev, if size == 0 then Application(dev.handler) else left[size..])
      && m.dev.cls.DfuIdle? == (size < r.length)
      && Application(m.dev.handler) == Application(dev.handler)
  {
    hide Move, Left, ApplicationBytes, ManifestLength, OnTheWire;
    UploadMove(d, caps, dev, r.number, r.length, r.env, left);
    OnTheWireOf(left[..Min(CONTROL_BUFFER, |left|)], r.length);
  }

  /** What a host gets from any list of upload requests, with any block numbers and lengths, is
      decided by the application and what is left of it. */
  lemma {:induction false} BlocksAreGiven(
    d: Digest, caps: Capabilities, dev: Device, left: seq<Byte>, requests: seq<Request>)
    requires Offers(caps, dev, left) && caps.canUpload
    ensures Blocks(d, caps, dev, requests)
            == Given(caps, Application(dev.handler), left, dev.cls.DfuIdle?, requests)
    decreases |requests|
  {
    hide Move, Offers, Application, OnTheWire;
    if requests != [] {
      var r := requests[0];
      var m := Move(d, caps, dev, UploadRequest(r.number, r.length, r.env));
      if Admits(caps, dev, r.length) {
        OneRequest(d, caps, dev, left, r);
        var size := Min(CONTROL_BUFFER, |left|);
        BlocksAreGiven(d, caps, m.dev, if size == 0 then Application(dev.handler) else left[size..], requests[1..]);
      } else {
        NotHalted(caps, dev, left);
        TooLong(d, caps, dev, r);
        StalledBlocks(d, caps, m.dev, requests[1..]);
        assert Blocks(d, caps, dev, requests) == [[]] + seq(|requests| - 1, _ => []);
      }
    }
  }

  lemma NotHalted(caps: Capabilities, dev: Device, left: seq<Byte>)
    requires Offers(caps, dev, left)
    ensures !dev.halted
  {
  }

  lemma TooLong(d: Digest, caps: Capabilities, dev: Device, r: Request)
    requires !dev.halted && dev.cls.DfuIdle? && r.length > caps.transferSize
    ensures var m := Move(d, caps, dev, UploadRequest(r.number, r.length, r.env));
      !m.dev.halted && m.dev.cls.DfuError? && OnTheWire(m.xfer, r.length) == []
  {
  }
}
