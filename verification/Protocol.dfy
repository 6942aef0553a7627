/** T5-Link v1 frames and the payloads both ends exchange (protocol.py). */
module Protocol {
  import opened Prelude
  import Cobs
  import Wire

  const MAGIC: bytes := [0x54, 0x35]
  const VERSION := 1
  const MAX_PAYLOAD := 1024

  const HELLO := 0x0001
  const UI_ACTION := 0x2001

  const OK := 0x0000
  const INVALID_LENGTH := 0x0003
  const INVALID_ARGUMENT := 0x0004
  const BUSY := 0x0005
  const NOT_READY := 0x0006
  const STATE_CONFLICT := 0x000B

  /** PackError stands for struct.error and OverflowError: a value that does not fit its field. */
  datatype ProtocolError =
    | PayloadTooLong | PackError | FrameTooShort | BadMagic | UnsupportedVersion | Truncated | PayloadTooShort

  type Parsed<T> = Result<T, ProtocolError>

  // ----- Little-endian fields -----

  predicate Fits8(v: int) { 0 <= v < 0x100 }

  predicate Fits16(v: int) { 0 <= v < 0x1_0000 }

  predicate Fits32(v: int) { 0 <= v < 0x1_0000_0000 }

  predicate FitsSigned32(v: int) { -0x8000_0000 <= v < 0x8000_0000 }

  function Le16(v: int): (b: bytes)
    requires Fits16(v)
    ensures |b| == 2
  {
    [v % 256, v / 256]
  }

  function Le32(v: int): (b: bytes)
    requires Fits32(v)
    ensures |b| == 4
  {
    Le16(v % 0x1_0000) + Le16(v / 0x1_0000)
  }

  function Read32(b: bytes, at: nat): (v: int)
    requires at + 4 <= |b|
    ensures Fits32(v)
  {
    Read16(b, at) + 0x1_0000 * Read16(b, at + 2)
  }

  lemma {:induction false} ReadLe16(a: bytes, v: int, z: bytes)
    requires Fits16(v)
    ensures Read16(a + Le16(v) + z, |a|) == v
  {}

  lemma {:induction false} ReadLe32(a: bytes, v: int, z: bytes)
    requires Fits32(v)
    ensures Read32(a + Le32(v) + z, |a|) == v
  {}

  lemma {:induction false} Le16Read(b: bytes, at: nat)
    requires at + 2 <= |b|
    ensures Le16(Read16(b, at)) == b[at..at + 2]
  {}

  lemma {:induction false} Halves(lo: int, hi: int)
    requires Fits16(lo) && Fits16(hi)
    ensures (lo + 0x1_0000 * hi) % 0x1_0000 == lo && (lo + 0x1_0000 * hi) / 0x1_0000 == hi
  {}

  lemma {:induction false} Le32Read(b: bytes, at: nat)
    requires at + 4 <= |b|
    ensures Le32(Read32(b, at)) == b[at..at + 4]
  {
    var lo, hi := Read16(b, at), Read16(b, at + 2);
    Halves(lo, hi);
    Le16Read(b, at);
    Le16Read(b, at + 2);
    assert b[at..at + 4] == b[at..at + 2] + b[at + 2..at + 4];
  }

  // ----- Frames -----

  datatype Frame = Frame(version: int, flags: int, sequence: int, command: int, payload: bytes)
  {
    predicate Packable()
    {
      Fits8(version) && Fits8(flags) && Fits16(sequence) && Fits16(command) && |payload| < 0x1_0000
    }

    function Header(): (h: bytes)
      requires Packable()
      ensures |h| == 10
    {
      MAGIC + [version, flags] + Le16(sequence) + Le16(command) + Le16(|payload|)
    }

    function Raw(): Parsed<bytes>
    {
      if |payload| > MAX_PAYLOAD then Err(PayloadTooLong)
      else if !Packable() then Err(PackError)
      else Ok(Header() + payload)
    }
  }

  function Parse(raw: bytes): Parsed<Frame>
  {
    if |raw| < 10 then Err(FrameTooShort)
    else
      var length := Read16(raw, 8);
      if raw[..2] != MAGIC then Err(BadMagic)
      else if raw[2] != VERSION then Err(UnsupportedVersion)
      else if |raw| < 10 + length then Err(Truncated)
      else Ok(Frame(raw[2], raw[3], Read16(raw, 4), Read16(raw, 6), raw[10..10 + length]))
  }

  lemma {:induction false} HeaderFields(f: Frame, rest: bytes)
    requires f.Packable()
    ensures var raw := f.Header() + rest;
      && raw[..2] == MAGIC && raw[2] == f.version && raw[3] == f.flags
      && Read16(raw, 4) == f.sequence && Read16(raw, 6) == f.command && Read16(raw, 8) == |f.payload|
  {}

  /** Parsing accepts exactly a version-1 header followed by its payload; what follows is ignored. */
  lemma {:induction false} ParseAccepts(raw: bytes, f: Frame)
    ensures Parse(raw) == Ok(f)
       <==> f.Packable() && f.version == VERSION && f.Header() + f.payload <= raw
  {
    if Parse(raw) == Ok(f) {
      var n := |f.payload|;
      assert f.Packable();
      Le16Read(raw, 4);
      Le16Read(raw, 6);
      Le16Read(raw, 8);
      assert raw[..10] == raw[..2] + [raw[2], raw[3]] + raw[4..6] + raw[6..8] + raw[8..10];
      assert f.Header() == raw[..10];
      assert raw[..10 + n] == raw[..10] + raw[10..10 + n];
    }
    if f.Packable() && f.version == VERSION && f.Header() + f.payload <= raw {
      var n := |f.payload|;
      assert raw == f.Header() + raw[10..];
      HeaderFields(f, raw[10..]);
      assert raw[10..10 + n] == f.payload;
    }
  }

  /** Every field of a raw frame at its place, byte by byte; and which frames have one. */
  lemma {:induction false} FrameLayout(f: Frame)
    ensures f.Raw().Ok? <==>
      && 0 <= f.version < 256 && 0 <= f.flags < 256 && 0 <= f.sequence < 0x1_0000 && 0 <= f.command < 0x1_0000
      && |f.payload| <= 1024
    ensures f.Raw().Ok? ==>
      var raw, n := f.Raw().value, |f.payload|;
      && raw[..10] == [0x54, 0x35, f.version, f.flags, f.sequence % 256, f.sequence / 256,
                       f.command % 256, f.command / 256, n % 256, n / 256]
      && raw[10..] == f.payload
  {}

  /** What the read loop does with the bytes up to a delimiter; None when it drops them. */
  function Deliver(image: bytes): Option<Frame>
  {
    match Wire.Unstuff(image)
    case Err(_) => None
    case Ok(raw) =>
      match Parse(raw)
      case Err(_) => None
      case Ok(f) => Some(f)
  }

  /** An image is delivered as a frame exactly when it is terminated and decodes to bytes with their own
      checksum that begin with the frame, of version 1. */
  lemma {:induction false} DeliversExactly(image: bytes, f: Frame)
    ensures Deliver(image) == Some(f) <==>
      && image != [] && image[|image| - 1] == 0 && f.Packable() && f.version == VERSION
      && exists raw :: Cobs.Decode(image[..|image| - 1]) == Ok(Wire.Body(raw)) && f.Header() + f.payload <= raw
  {
    if Wire.Unstuff(image).Ok? {
      var raw := Wire.Unstuff(image).value;
      Wire.UnstuffAccepts(image, raw);
      ParseAccepts(raw, f);
    }
    if image != [] && image[|image| - 1] == 0 {
      forall raw | Cobs.Decode(image[..|image| - 1]) == Ok(Wire.Body(raw))
        ensures Wire.Unstuff(image) == Ok(raw)
      {
        Wire.UnstuffAccepts(image, raw);
      }
    }
  }

  /** A frame that can be sent arrives unchanged exactly when it carries version 1. */
  lemma {:induction false} FrameRoundTrip(f: Frame)
    requires f.Raw().Ok?
    ensures Deliver(Wire.Stuff(f.Raw().value)) == Some(f) <==> f.version == VERSION
    ensures f.version != VERSION ==> Deliver(Wire.Stuff(f.Raw().value)) == None
  {
    var raw := f.Raw().value;
    Wire.UnstuffStuff(raw);
    ParseAccepts(raw, f);
    HeaderFields(f, f.payload);
  }

  /** The image of a frame has one zero, its last byte, and at most 1042 bytes. */
  lemma {:induction false} FrameImage(f: Frame)
    requires f.Raw().Ok?
    ensures var image := Wire.Stuff(f.Raw().value);
      && 0 < |image| <= 1042
      && image[|image| - 1] == 0 && Cobs.ZeroFree(image[..|image| - 1])
  {
    Wire.StuffShape(f.Raw().value);
  }

  // ----- Length-prefixed strings, as bytes -----

  function EncodeString(text: bytes): Parsed<bytes>
  {
    if |text| >= 0x1_0000 then Err(PackError) else Ok(Le16(|text|) + text)
  }

  function DecodeString(data: bytes): bytes
  {
    if |data| < 2 then []
    else
      var length := Read16(data, 0);
      data[2..if 2 + length <= |data| then 2 + length else |data|]
  }

  lemma {:induction false} StringRoundTrip(text: bytes, rest: bytes)
    requires |text| < 0x1_0000
    ensures DecodeString(EncodeString(text).value + rest) == text
  {}

  // ----- Payloads -----

  datatype Hello = Hello(peerRole: int, major: int, minor: int, bootId: int, maxPayload: int,
                         capabilities: int, softwareVersion: bytes)
  {
    predicate Packable()
    {
      Fits8(peerRole) && Fits8(major) && Fits8(minor) && Fits32(bootId) && Fits16(maxPayload) && Fits16(capabilities)
    }

    function Fixed(): (b: bytes)
      requires Packable()
      ensures |b| == 11
    {
      [peerRole, major, minor] + Le32(bootId) + Le16(maxPayload) + Le16(capabilities)
    }

    function Encode(): Parsed<bytes>
    {
      if !Packable() then Err(PackError)
      else match EncodeString(softwareVersion)
        case Err(e) => Err(e)
        case Ok(s) => Ok(Fixed() + s)
    }
  }

  function ParseHello(p: bytes): Parsed<Hello>
  {
    if |p| < 11 then Err(PayloadTooShort)
    else Ok(Hello(p[0], p[1], p[2], Read32(p, 3), Read16(p, 7), Read16(p, 9), DecodeString(p[11..])))
  }

  lemma {:induction false} HelloRoundTrip(h: Hello)
    ensures h.Encode().Ok? <==> h.Packable() && |h.softwareVersion| < 0x1_0000
    ensures h.Encode().Ok? ==> ParseHello(h.Encode().value) == Ok(h)
  {
    if h.Encode().Ok? {
      var s := EncodeString(h.softwareVersion).value;
      var p := h.Fixed() + s;
      var a, b, m, c := [h.peerRole, h.major, h.minor], Le32(h.bootId), Le16(h.maxPayload), Le16(h.capabilities);
      assert p == a + b + (m + c + s);
      ReadLe32(a, h.bootId, m + c + s);
      assert p == (a + b) + m + (c + s);
      ReadLe16(a + b, h.maxPayload, c + s);
      assert p == (a + b + m) + c + s;
      ReadLe16(a + b + m, h.capabilities, s);
      StringRoundTrip(h.softwareVersion, []);
      assert s + [] == s && p[11..] == s;
    }
  }

  /** Reading a hello loses none of its fixed fields. */
  lemma {:induction false} HelloFieldsRead(p: bytes)
    requires |p| >= 11
    ensures ParseHello(p).value.Packable() && ParseHello(p).value.Fixed() == p[..11]
  {
    Le32Read(p, 3);
    Le16Read(p, 7);
    Le16Read(p, 9);
    assert p[..11] == [p[0], p[1], p[2]] + p[3..7] + p[7..9] + p[9..11];
  }

  datatype UiAction = UiAction(action: int, objectType: int, objectId: int, value: int, text: bytes)
  {
    predicate Packable()
    {
      Fits16(action) && Fits8(objectType) && Fits32(objectId) && FitsSigned32(value)
    }

    function Fixed(): (b: bytes)
      requires Packable()
      ensures |b| == 11
    {
      Le16(action) + [objectType] + Le32(objectId) + Le32(value % 0x1_0000_0000)
    }

    function Encode(): Parsed<bytes>
    {
      if !Packable() then Err(PackError)
      else match EncodeString(text)
        case Err(e) => Err(e)
        case Ok(s) => Ok(Fixed() + s)
    }
  }

  /** Two's complement: the int32 a 32-bit field stands for. */
  function Signed32(v: int): (w: int)
    requires Fits32(v)
    ensures FitsSigned32(w) && w % 0x1_0000_0000 == v
  {
    if v < 0x8000_0000 then v else v - 0x1_0000_0000
  }

  function ParseUiAction(p: bytes): Parsed<UiAction>
  {
    if |p| < 11 then Err(PayloadTooShort)
    else Ok(UiAction(Read16(p, 0), p[2], Read32(p, 3), Signed32(Read32(p, 7)), DecodeString(p[11..])))
  }

  lemma {:induction false} UiActionRoundTrip(u: UiAction)
    ensures u.Encode().Ok? <==> u.Packable() && |u.text| < 0x1_0000
    ensures u.Encode().Ok? ==> ParseUiAction(u.Encode().value) == Ok(u)
  {
    if u.Encode().Ok? {
      var s := EncodeString(u.text).value;
      var p := u.Fixed() + s;
      var v := u.value % 0x1_0000_0000;
      var a, t, i, w := Le16(u.action), [u.objectType], Le32(u.objectId), Le32(v);
      assert p == [] + a + (t + i + w + s);
      ReadLe16([], u.action, t + i + w + s);
      assert p == (a + t) + i + (w + s);
      ReadLe32(a + t, u.objectId, w + s);
      assert p == (a + t + i) + w + s;
      ReadLe32(a + t + i, v, s);
      assert Signed32(v) == u.value;
      StringRoundTrip(u.text, []);
      assert s + [] == s && p[11..] == s;
    }
  }

  lemma {:induction false} UiActionFieldsRead(p: bytes)
    requires |p| >= 11
    ensures ParseUiAction(p).value.Packable() && ParseUiAction(p).value.Fixed() == p[..11]
  {
    Le16Read(p, 0);
    Le32Read(p, 3);
    Le32Read(p, 7);
    assert p[..11] == p[0..2] + [p[2]] + p[3..7] + p[7..11];
  }

  datatype PageEvent = PageEvent(pageId: int, event: int, objectId: int)
  {
    /** The encoder masks every field, so it never raises. */
    function Encode(): bytes
    {
      [pageId % 0x100, event % 0x100] + Le32(objectId % 0x1_0000_0000)
    }
  }

  function ParsePageEvent(p: bytes): Parsed<PageEvent>
  {
    if |p| < 6 then Err(PayloadTooShort) else Ok(PageEvent(p[0], p[1], Read32(p, 2)))
  }

  lemma {:induction false} PageEventRoundTrip(e: PageEvent, rest: bytes)
    ensures ParsePageEvent(e.Encode() + rest)
         == Ok(PageEvent(e.pageId % 0x100, e.event % 0x100, e.objectId % 0x1_0000_0000))
  {}

  lemma {:induction false} PageEventInRange(page: byte, kind: byte, id: int)
    requires Fits32(id)
    ensures PageEvent(page, kind, id).Encode() == [page, kind] + Le32(id)
  {
    assert id % 0x1_0000_0000 == id;
  }

  lemma {:induction false} PageEventRead(p: bytes)
    requires |p| >= 6
    ensures ParsePageEvent(p).value.Encode() == p[..6]
  {
    PageEventInRange(p[0], p[1], Read32(p, 2));
    Le32Read(p, 2);
    assert p[..6] == [p[0], p[1]] + p[2..6];
  }

  datatype Heartbeat = Heartbeat(status: int, uptimeMs: int, appliedRevision: int, errorFlags: int)
  {
    function Encode(): bytes
    {
      Le16(status % 0x1_0000) + Le32(uptimeMs % 0x1_0000_0000)
      + Le32(appliedRevision % 0x1_0000_0000) + Le32(errorFlags % 0x1_0000_0000)
    }
  }

  function ParseHeartbeat(p: bytes): Parsed<Heartbeat>
  {
    if |p| < 14 then Err(PayloadTooShort)
    else Ok(Heartbeat(Read16(p, 0), Read32(p, 2), Read32(p, 6), Read32(p, 10)))
  }

  lemma {:induction false} HeartbeatRoundTrip(h: Heartbeat, rest: bytes)
    ensures ParseHeartbeat(h.Encode() + rest)
         == Ok(Heartbeat(h.status % 0x1_0000, h.uptimeMs % 0x1_0000_0000,
                         h.appliedRevision % 0x1_0000_0000, h.errorFlags % 0x1_0000_0000))
  {}

  lemma {:induction false} HeartbeatInRange(s: int, u: int, r: int, e: int)
    requires Fits16(s) && Fits32(u) && Fits32(r) && Fits32(e)
    ensures Heartbeat(s, u, r, e).Encode() == Le16(s) + Le32(u) + Le32(r) + Le32(e)
  {
    assert s % 0x1_0000 == s && u % 0x1_0000_0000 == u && r % 0x1_0000_0000 == r && e % 0x1_0000_0000 == e;
  }

  lemma {:induction false} HeartbeatRead(p: bytes)
    requires |p| >= 14
    ensures ParseHeartbeat(p).value.Encode() == p[..14]
  {
    var s, u, r, e := Read16(p, 0), Read32(p, 2), Read32(p, 6), Read32(p, 10);
    HeartbeatInRange(s, u, r, e);
    Le16Read(p, 0);
    Le32Read(p, 2);
    Le32Read(p, 6);
    Le32Read(p, 10);
    assert p[..14] == p[0..2] + p[2..6] + p[6..10] + p[10..14];
  }

  // ----- Places of the fields -----

  /** Two and four bytes of a number, least significant first. */
  function Bytes16(v: int): (b: bytes)
    requires 0 <= v < 0x1_0000
  {
    [v % 256, v / 256]
  }

  function Bytes32(v: int): (b: bytes)
    requires 0 <= v < 0x1_0000_0000
  {
    [v % 256, v / 256 % 256, v / 256 / 256 % 256, v / 256 / 256 / 256]
  }

  lemma {:induction false} Digits(v: int, d0: int, d1: int, d2: int, d3: int)
    requires 0 <= d0 < 256 && 0 <= d1 < 256 && 0 <= d2 < 256 && 0 <= d3 < 256
    requires v == d0 + 256 * (d1 + 256 * (d2 + 256 * d3))
    ensures v % 0x1_0000 == d0 + 256 * d1 && v / 0x1_0000 == d2 + 256 * d3
  {}

  lemma {:induction false} Le32Bytes(v: int)
    requires Fits32(v)
    ensures Le32(v) == Bytes32(v)
  {
    var q := v / 256;
    var r := q / 256;
    Digits(v, v % 256, q % 256, r % 256, r / 256);
  }

  /** The hello's fixed fields at their places; the version text follows with its length. */
  lemma {:induction false} HelloLayout(h: Hello)
    requires h.Encode().Ok?
    ensures h.Fixed() ==
      [h.peerRole, h.major, h.minor] + Bytes32(h.bootId) + Bytes16(h.maxPayload) + Bytes16(h.capabilities)
    ensures h.Encode().value == h.Fixed() + (Bytes16(|h.softwareVersion|) + h.softwareVersion)
  {
    Le32Bytes(h.bootId);
  }

  lemma {:induction false} TwosComplement(v: int)
    requires FitsSigned32(v)
    ensures v % 0x1_0000_0000 == if v < 0 then v + 0x1_0000_0000 else v
  {}

  /** The UI action's fixed fields at their places, its value in two's complement; the text follows. */
  lemma {:induction false} UiActionLayout(u: UiAction)
    requires u.Encode().Ok?
    ensures u.Fixed() == Bytes16(u.action) + [u.objectType] + Bytes32(u.objectId)
      + Bytes32(if u.value < 0 then u.value + 0x1_0000_0000 else u.value)
    ensures u.Encode().value == u.Fixed() + (Bytes16(|u.text|) + u.text)
  {
    TwosComplement(u.value);
    Le32Bytes(u.objectId);
    Le32Bytes(u.value % 0x1_0000_0000);
  }

  lemma {:induction false} PageEventLayout(e: PageEvent)
    ensures e.Encode() == [e.pageId % 256, e.event % 256] + Bytes32(e.objectId % 0x1_0000_0000)
  {
    Le32Bytes(e.objectId % 0x1_0000_0000);
  }

  lemma {:induction false} HeartbeatLayout(h: Heartbeat)
    ensures h.Encode() == Bytes16(h.status % 0x1_0000) + Bytes32(h.uptimeMs % 0x1_0000_0000)
      + Bytes32(h.appliedRevision % 0x1_0000_0000) + Bytes32(h.errorFlags % 0x1_0000_0000)
  {
    Le32Bytes(h.uptimeMs % 0x1_0000_0000);
    Le32Bytes(h.appliedRevision % 0x1_0000_0000);
    Le32Bytes(h.errorFlags % 0x1_0000_0000);
  }

  /** Which payloads are too short to parse, and what a string cut short reads as. */
  lemma {:induction false} ShortPayloads(p: bytes)
    ensures ParseHello(p).Err? <==> |p| < 11
    ensures ParseUiAction(p).Err? <==> |p| < 11
    ensures ParsePageEvent(p).Err? <==> |p| < 6
    ensures ParseHeartbeat(p).Err? <==> |p| < 14
    ensures DecodeString(p) <= p[if |p| < 2 then |p| else 2..]
    ensures |p| >= 2 ==> |DecodeString(p)| == if Read16(p, 0) <= |p| - 2 then Read16(p, 0) else |p| - 2
  {}

  // ----- Payloads inside frames -----

  /** A UI action the panel can encode and frame reaches the gateway's parser unchanged. */
  lemma {:induction false} UiActionDelivered(u: UiAction, flags: int, sequence: int)
    requires u.Packable() && |u.text| <= MAX_PAYLOAD - 13 && Fits8(flags) && Fits16(sequence)
    ensures u.Encode().Ok?
    ensures var f := Frame(VERSION, flags, sequence, UI_ACTION, u.Encode().value);
      && f.Raw().Ok?
      && Deliver(Wire.Stuff(f.Raw().value)) == Some(f)
      && ParseUiAction(f.payload) == Ok(u)
  {
    UiActionRoundTrip(u);
    FrameRoundTrip(Frame(VERSION, flags, sequence, UI_ACTION, u.Encode().value));
  }

  lemma {:induction false} HelloDelivered(h: Hello, flags: int, sequence: int)
    requires h.Packable() && |h.softwareVersion| <= MAX_PAYLOAD - 13 && Fits8(flags) && Fits16(sequence)
    ensures h.Encode().Ok?
    ensures var f := Frame(VERSION, flags, sequence, HELLO, h.Encode().value);
      && f.Raw().Ok?
      && Deliver(Wire.Stuff(f.Raw().value)) == Some(f)
      && ParseHello(f.payload) == Ok(h)
  {
    HelloRoundTrip(h);
    FrameRoundTrip(Frame(VERSION, flags, sequence, HELLO, h.Encode().value));
  }
}
