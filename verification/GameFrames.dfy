/**
 The frames of gameproto: Minecraft's handshake and packets (minecraft.go), Terraria's
 connect request and disconnect (terraria.go), and what their classifiers consume.
 */
module GameFrames {
  import opened Wrappers
  import opened VarInt

  type Bytes = seq<Byte>

  datatype Kind = Join | Status | Unknown

  // ---------------------------------------------------------------- Minecraft

  const MAX_PACKET: int := 512
  const MAX_STRING: int := 32767
  const MAX_INT32: int := 0x7fff_ffff

  function WriteString(s: Bytes): Result<Bytes, Fault> {
    if |s| > MAX_STRING then Failure(BadLength) else Success(WriteVarInt(|s|) + s)
  }

  function ReadString(b: Bytes): Result<(Bytes, nat), Fault> {
    match ReadVarInt(b)
    case Failure(f) => Failure(f)
    case Success(r) =>
      if r.0 < 0 || r.0 > MAX_STRING then Failure(BadLength)
      else if r.1 + r.0 > |b| then Failure(Eof)
      else Success((b[r.1..r.1 + r.0], r.1 + r.0))
  }

  function Frame(data: Bytes): Bytes { WriteVarInt(if |data| > MAX_INT32 then MAX_INT32 else |data|) + data }

  datatype Handshake = Handshake(version: int, host: Bytes, port: nat, next: int)

  /** What follows an integer that could be read. */
  function After(b: Bytes, n: nat): Bytes { if n <= |b| then b[n..] else [] }

  /** The fields of a handshake packet, in order: its number, the version, the address, the port and the next state. */
  function ParseHandshake(frame: Bytes): Result<Handshake, Fault> {
    match ReadVarInt(frame)
    case Failure(f) => Failure(f)
    case Success(id) =>
      if id.0 != 0 then Failure(BadPacket) else ParseVersion(After(frame, id.1))
  }

  function ParseVersion(b: Bytes): Result<Handshake, Fault> {
    match ReadVarInt(b)
    case Failure(f) => Failure(f)
    case Success(version) => ParseHost(version.0, After(b, version.1))
  }

  function ParseHost(version: int, b: Bytes): Result<Handshake, Fault> {
    match ReadString(b)
    case Failure(f) => Failure(f)
    case Success(host) => ParsePort(version, host.0, After(b, host.1))
  }

  function BigEndian(high: int, low: int): nat
    requires high >= 0 && low >= 0
  {
    256 * high + low
  }

  function ParsePort(version: int, host: Bytes, b: Bytes): Result<Handshake, Fault> {
    if |b| < 2 then Failure(Eof)
    else match ReadVarInt(b[2..])
      case Failure(f) => Failure(f)
      case Success(next) => Success(Handshake(version, host, BigEndian(b[0], b[1]), next.0))
  }

  function KindOf(next: int): Kind { if next == 1 then Status else if next == 2 then Join else Unknown }

  datatype Classified<T> = Classified(kind: Kind, detail: T, consumed: Bytes)

  /** The first frame of a stream and everything up to its end. */
  function SplitFrame(s: Bytes): Result<(Bytes, Bytes), Fault> {
    match ReadVarInt(s)
    case Failure(f) => Failure(f)
    case Success(r) =>
      if r.0 <= 0 || r.0 > MAX_PACKET then Failure(BadLength)
      else if r.1 + r.0 > |s| then Failure(Eof)
      else Success((s[r.1..r.1 + r.0], s[..r.1 + r.0]))
  }

  function ClassifyHandshake(s: Bytes): Result<Classified<Handshake>, Fault> {
    match SplitFrame(s)
    case Failure(f) => Failure(f)
    case Success(frame) =>
      match ParseHandshake(frame.0)
      case Failure(f) => Failure(f)
      case Success(h) => Success(Classified(KindOf(h.next), h, frame.1))
  }

  /** The packet a client sends for a handshake, before framing. */
  function HandshakeBody(h: Handshake): Bytes
    requires h.port < 65536
  {
    WriteVarInt(0) + (WriteVarInt(h.version) + ((WriteVarInt(|h.host|) + h.host)
    + ([h.port / 256, h.port % 256] + WriteVarInt(h.next))))
  }

  lemma {:induction false} ReadAt(v: int, rest: Bytes)
    requires Int32(v)
    ensures ReadVarInt(WriteVarInt(v) + rest) == Success((v, |WriteVarInt(v)|))
    ensures After(WriteVarInt(v) + rest, |WriteVarInt(v)|) == rest
  {
    VarIntRoundTrip(v, rest);
    assert (WriteVarInt(v) + rest)[|WriteVarInt(v)|..] == rest;
  }

  /** A string comes back from whatever follows it; longer ones cannot be written. */
  lemma {:induction false} StringRoundTrip(s: Bytes, rest: Bytes)
    ensures WriteString(s).Success? <==> |s| <= MAX_STRING
    ensures |s| <= MAX_STRING ==>
              var w := WriteString(s).value; ReadString(w + rest) == Success((s, |w|)) && After(w + rest, |w|) == rest
  {
    if |s| <= MAX_STRING {
      var w := WriteVarInt(|s|);
      ReadAt(|s|, s + rest);
      assert w + s + rest == w + (s + rest);
      Slices(w, s, rest);
    }
  }

  lemma {:induction false} Slices(w: Bytes, s: Bytes, rest: Bytes)
    ensures var all := w + (s + rest);
            |w| + |s| <= |all| && all[|w|..|w| + |s|] == s && all[|w| + |s|..] == rest && all[..|w| + |s|] == w + s
  {
  }

  lemma {:induction false} PortRoundTrip(version: int, host: Bytes, port: nat, next: int)
    requires port < 65536 && Int32(next)
    ensures ParsePort(version, host, [port / 256, port % 256] + WriteVarInt(next)) == Success(Handshake(version, host, port, next))
  {
    var b: Bytes := [port / 256, port % 256] + WriteVarInt(next);
    assert b[2..] == WriteVarInt(next) + [];
    ReadAt(next, []);
  }

  lemma {:induction false} BodyParses(h: Handshake)
    requires Int32(h.version) && Int32(h.next) && h.port < 65536 && |h.host| <= MAX_STRING
    ensures ParseHandshake(HandshakeBody(h)) == Success(h)
  {
    var port := [h.port / 256, h.port % 256] + WriteVarInt(h.next);
    var host := (WriteVarInt(|h.host|) + h.host) + port;
    var version := WriteVarInt(h.version) + host;
    ReadAt(0, version);
    ReadAt(h.version, host);
    StringRoundTrip(h.host, port);
    PortRoundTrip(h.version, h.host, h.port, h.next);
    assert ParseHost(h.version, host) == Success(h);
    assert ParseVersion(version) == Success(h);
  }

  /** A built frame announces its true length, exactly when that length fits 31 bits. */
  lemma {:induction false} FrameCarriesItsLength(data: Bytes, rest: Bytes)
    ensures ReadVarInt(Frame(data) + rest).Success?
    ensures var (len, n) := ReadVarInt(Frame(data) + rest).value;
            && n + |data| == |Frame(data)| && Frame(data)[n..] == data
            && (len == |data| <==> |data| <= MAX_INT32)
  {
    var len := if |data| > MAX_INT32 then MAX_INT32 else |data|;
    ReadAt(len, data + rest);
    assert Frame(data) + rest == WriteVarInt(len) + (data + rest);
  }

  /** The handshake a client frames is read back whole, whatever follows it, exactly when it is no longer than a packet may be. */
  lemma {:induction false} HandshakeRoundTrip(h: Handshake, rest: Bytes)
    requires Int32(h.version) && Int32(h.next) && h.port < 65536 && |h.host| <= MAX_STRING
    ensures var body := HandshakeBody(h);
            ClassifyHandshake(Frame(body) + rest)
            == if |body| <= MAX_PACKET then Success(Classified(KindOf(h.next), h, Frame(body))) else Failure(BadLength)
  {
    var body := HandshakeBody(h);
    BodyParses(h);
    BodySize(h);
    FramedBody(body, h, rest);
  }

  lemma {:induction false} BodySize(h: Handshake)
    requires Int32(h.version) && Int32(h.next) && h.port < 65536 && |h.host| <= MAX_STRING
    ensures 0 < |HandshakeBody(h)| <= MAX_INT32
  {
    VarIntRoundTrip(0, []);
    VarIntRoundTrip(h.version, []);
    VarIntRoundTrip(|h.host|, []);
    VarIntRoundTrip(h.next, []);
  }

  lemma {:induction false} FramedBody(body: Bytes, h: Handshake, rest: Bytes)
    requires ParseHandshake(body) == Success(h) && 0 < |body| <= MAX_INT32
    ensures ClassifyHandshake(Frame(body) + rest)
            == if |body| <= MAX_PACKET then Success(Classified(KindOf(h.next), h, Frame(body))) else Failure(BadLength)
  {
    ReadAt(|body|, body + rest);
    var w := WriteVarInt(|body|);
    assert Frame(body) + rest == w + (body + rest);
    Slices(w, body, rest);
  }

  /** The bytes at the front of `b`, `n` in all, are the length of `s`, 32767 at most, in `k` bytes and then `s` itself. */
  predicate StringAt(b: Bytes, k: nat, s: Bytes, n: nat) {
    Spells(b, k, |s|) && |s| <= 32767 && n == k + |s| <= |b| && b[k..n] == s
  }

  /** Packet 0, the version, the address, the port with its high byte first and the next state; what follows is not looked at. */
  predicate HandshakeAs(b: Bytes, h: Handshake, i: nat, j: nat, k: nat, n: nat, m: nat) {
    Spells(b, i, 0) && VersionAs(b[i..], h, j, k, n, m)
  }

  predicate VersionAs(b: Bytes, h: Handshake, j: nat, k: nat, n: nat, m: nat) {
    Spells(b, j, h.version) && HostAs(b[j..], h, k, n, m)
  }

  predicate HostAs(b: Bytes, h: Handshake, k: nat, n: nat, m: nat) { StringAt(b, k, h.host, n) && PortAs(b[n..], h, m) }

  predicate PortAs(b: Bytes, h: Handshake, m: nat) {
    2 <= |b| && h.port == BigEndian(b[0], b[1]) && Spells(b[2..], m, h.next)
  }

  lemma {:induction false} StringExactly(b: Bytes, s: Bytes, n: nat)
    ensures ReadString(b) == Success((s, n)) <==> exists k: nat :: StringAt(b, k, s, n)
  {
    if ReadString(b) == Success((s, n)) {
      var (len, k) := ReadVarInt(b).value;
      ReadVarIntExactly(b, len, k);
      assert StringAt(b, k, s, n);
    }
    forall k: nat | StringAt(b, k, s, n)
      ensures ReadString(b) == Success((s, n))
    {
      ReadVarIntExactly(b, |s|, k);
    }
  }

  lemma {:induction false} PortExactly(version: int, host: Bytes, b: Bytes, h: Handshake)
    ensures ParsePort(version, host, b) == Success(h) <==>
            h.version == version && h.host == host && exists m: nat :: PortAs(b, h, m)
  {
    if ParsePort(version, host, b) == Success(h) {
      var (next, m) := ReadVarInt(b[2..]).value;
      ReadVarIntExactly(b[2..], next, m);
      assert PortAs(b, h, m);
    }
    forall m: nat | PortAs(b, h, m) && h.version == version && h.host == host
      ensures ParsePort(version, host, b) == Success(h)
    {
      ReadVarIntExactly(b[2..], h.next, m);
    }
  }

  lemma {:induction false} ParsedIsHandshake(b: Bytes, h: Handshake) returns (i: nat, j: nat, k: nat, n: nat, m: nat)
    requires ParseHandshake(b) == Success(h)
    ensures HandshakeAs(b, h, i, j, k, n, m)
  {
    i := ReadVarInt(b).value.1;
    ReadVarIntExactly(b, 0, i);
    j, k, n, m := ParsedVersion(b[i..], h);
  }

  lemma {:induction false} ParsedVersion(b: Bytes, h: Handshake) returns (j: nat, k: nat, n: nat, m: nat)
    requires ParseVersion(b) == Success(h)
    ensures VersionAs(b, h, j, k, n, m)
  {
    var version := ReadVarInt(b).value.0;
    j := ReadVarInt(b).value.1;
    ReadVarIntExactly(b, version, j);
    k, n, m := ParsedHost(version, b[j..], h);
  }

  lemma {:induction false} ParsedHost(version: int, b: Bytes, h: Handshake) returns (k: nat, n: nat, m: nat)
    requires ParseHost(version, b) == Success(h)
    ensures h.version == version && HostAs(b, h, k, n, m)
  {
    var host := ReadString(b).value.0;
    n := ReadString(b).value.1;
    StringExactly(b, host, n);
    k :| StringAt(b, k, host, n);
    PortExactly(version, host, b[n..], h);
    m :| PortAs(b[n..], h, m);
  }

  lemma {:induction false} HostParses(b: Bytes, h: Handshake, k: nat, n: nat, m: nat)
    requires HostAs(b, h, k, n, m)
    ensures ParseHost(h.version, b) == Success(h)
  {
    StringExactly(b, h.host, n);
    PortExactly(h.version, h.host, b[n..], h);
  }

  lemma {:induction false} HandshakeParses(b: Bytes, h: Handshake, i: nat, j: nat, k: nat, n: nat, m: nat)
    requires HandshakeAs(b, h, i, j, k, n, m)
    ensures ParseHandshake(b) == Success(h)
  {
    ReadVarIntExactly(b, 0, i);
    ReadVarIntExactly(b[i..], h.version, j);
    HostParses(b[i..][j..], h, k, n, m);
  }

  ghost predicate IsHandshake(b: Bytes, h: Handshake) {
    exists i: nat, j: nat, k: nat, n: nat, m: nat :: HandshakeAs(b, h, i, j, k, n, m)
  }

  lemma {:induction false} ParseHandshakeExactly(b: Bytes, h: Handshake)
    ensures ParseHandshake(b) == Success(h) <==> IsHandshake(b, h)
  {
    if ParseHandshake(b) == Success(h) {
      var i, j, k, n, m := ParsedIsHandshake(b, h);
    }
    if IsHandshake(b, h) {
      var i: nat, j: nat, k: nat, n: nat, m: nat :| HandshakeAs(b, h, i, j, k, n, m);
      HandshakeParses(b, h, i, j, k, n, m);
    }
  }

  /** The stream starts with a length from 1 to 512 in `a` bytes and then that many bytes. */
  predicate FrameAt(s: Bytes, a: nat, frame: Bytes) {
    Spells(s, a, |frame|) && 1 <= |frame| <= 512 && a + |frame| <= |s| && s[a..a + |frame|] == frame
  }

  lemma {:induction false} SplitExactly(s: Bytes, frame: Bytes, consumed: Bytes)
    ensures SplitFrame(s) == Success((frame, consumed)) <==>
            exists a: nat :: FrameAt(s, a, frame) && consumed == s[..a + |frame|]
  {
    if SplitFrame(s) == Success((frame, consumed)) {
      var (len, a) := ReadVarInt(s).value;
      ReadVarIntExactly(s, len, a);
      assert FrameAt(s, a, frame);
    }
    forall a: nat | FrameAt(s, a, frame) && consumed == s[..a + |frame|]
      ensures SplitFrame(s) == Success((frame, consumed))
    {
      ReadVarIntExactly(s, |frame|, a);
    }
  }

  /** Nothing a classifier accepts is lost: what it consumed and what is left are the stream. */
  lemma {:induction false} HandshakeIsLossless(s: Bytes)
    requires ClassifyHandshake(s).Success?
    ensures var c := ClassifyHandshake(s).value.consumed; |c| <= |s| && c + s[|c|..] == s && 0 < |c| <= MAX_PACKET + 5
  {
    SplitIsLossless(s, SplitFrame(s).value.0, ClassifyHandshake(s).value.consumed);
  }

  lemma {:induction false} SplitIsLossless(s: Bytes, frame: Bytes, consumed: Bytes)
    requires SplitFrame(s) == Success((frame, consumed))
    ensures |consumed| <= |s| && consumed + s[|consumed|..] == s && 0 < |consumed| <= MAX_PACKET + 5
  {
    SplitExactly(s, frame, consumed);
    var a: nat :| FrameAt(s, a, frame) && consumed == s[..a + |frame|];
  }

  lemma {:induction false} ClassifiedBy(s: Bytes, frame: Bytes, consumed: Bytes, c: Classified<Handshake>)
    requires SplitFrame(s) == Success((frame, consumed))
    ensures ClassifyHandshake(s) == Success(c) <==>
            ParseHandshake(frame) == Success(c.detail) && c.consumed == consumed && c.kind == KindOf(c.detail.next)
  {
  }

  ghost predicate StartsWithHandshake(s: Bytes, h: Handshake, consumed: Bytes) {
    exists frame: Bytes, a: nat :: FrameAt(s, a, frame) && consumed == s[..a + |frame|] && IsHandshake(frame, h)
  }

  /**
   A stream is classified exactly when it starts with a framed handshake, in whatever form its
   integers are written; next state 1 is a status request, 2 a join, and what was consumed is the
   length and the frame.
   */
  lemma {:induction false} HandshakeExactly(s: Bytes, c: Classified<Handshake>)
    ensures ClassifyHandshake(s) == Success(c) <==>
            && c.kind == (if c.detail.next == 1 then Status else if c.detail.next == 2 then Join else Unknown)
            && StartsWithHandshake(s, c.detail, c.consumed)
  {
    if SplitFrame(s).Success? {
      var (frame, consumed) := SplitFrame(s).value;
      SplitExactly(s, frame, consumed);
      ParseHandshakeExactly(frame, c.detail);
      ClassifiedBy(s, frame, consumed, c);
    }
    forall frame: Bytes, a: nat | FrameAt(s, a, frame) && c.consumed == s[..a + |frame|]
      ensures SplitFrame(s) == Success((frame, c.consumed))
    {
      SplitExactly(s, frame, c.consumed);
    }
  }

  // ---------------------------------------------------------------- Terraria

  const CONNECT: Byte := 1
  const DISCONNECT: Byte := 2
  const MAX_FRAME: int := 65535
  const MAX_TEXT: int := 32768

  function WriteText(s: Bytes): Result<Bytes, Fault> {
    if |s| > MAX_INT32 then Failure(BadLength) else Success(Groups(Unsigned(|s|)) + s)
  }

  function ReadText(b: Bytes): Result<(Bytes, nat), Fault> {
    match Read7Bit(b)
    case Failure(f) => Failure(f)
    case Success(r) =>
      if r.0 < 0 || r.0 > MAX_TEXT then Failure(BadLength)
      else if r.0 > |b| - r.1 then Failure(BadLength)
      else Success((b[r.1..r.1 + r.0], r.1 + r.0))
  }

  /** A text the writer accepts is read back exactly when it is no longer than the reader's own cap. */
  lemma {:induction false} TextRoundTrip(s: Bytes, rest: Bytes)
    requires |s| <= MAX_INT32
    ensures WriteText(s).Success?
    ensures var w := WriteText(s).value;
            ReadText(w + rest) == if |s| <= MAX_TEXT then Success((s, |w|)) else Failure(BadLength)
  {
    var w := Groups(Unsigned(|s|));
    SevenBitRoundTrip(|s|, s + rest);
    assert w + s + rest == w + (s + rest);
    Slices(w, s, rest);
  }

  function LittleEndian(low: int, high: int): nat
    requires high >= 0 && low >= 0
  {
    low + 256 * high
  }

  /** The version text of a connect request; nothing for any other message. */
  function ClassifyConnect(s: Bytes): Result<Classified<Bytes>, Fault> {
    if |s| < 3 then Failure(Eof)
    else
      var total := LittleEndian(s[0], s[1]);
      if total < 3 then Failure(BadLength)
      else if total > |s| then Failure(Eof)
      else if s[2] != CONNECT then Success(Classified(Unknown, [], s[..total]))
      else if total == 3 then Failure(BadPacket)
      else match ReadText(s[3..total])
        case Failure(f) => Failure(f)
        case Success(version) => Success(Classified(Join, version.0, s[..total]))
  }

  lemma {:induction false} ConnectIsLossless(s: Bytes)
    requires ClassifyConnect(s).Success?
    ensures var c := ClassifyConnect(s).value.consumed;
            3 <= |c| <= |s| && c + s[|c|..] == s && |c| == LittleEndian(s[0], s[1])
  {
  }

  /** The payload starts with a length from 0 to 32768 in `k` bytes, high bits dropped, and then the text. */
  predicate TextAt(b: Bytes, k: nat, text: Bytes) {
    && k <= 5 && GroupsAt(b, k) && (Weighted(b, k) - |text|) % 0x1_0000_0000 == 0
    && |text| <= 32768 && k + |text| <= |b| && b[k..k + |text|] == text
  }

  ghost predicate StartsWithText(b: Bytes, text: Bytes) { exists k: nat :: TextAt(b, k, text) }

  lemma {:induction false} TextExactly(b: Bytes, text: Bytes)
    ensures ReadText(b).Success? && ReadText(b).value.0 == text <==> StartsWithText(b, text)
  {
    if ReadText(b).Success? && ReadText(b).value.0 == text {
      var (len, k) := Read7Bit(b).value;
      Read7BitExactly(b, len, k);
      assert TextAt(b, k, text);
    }
    forall k: nat | TextAt(b, k, text)
      ensures ReadText(b) == Success((text, k + |text|))
    {
      Read7BitExactly(b, |text|, k);
    }
  }

  lemma {:induction false} NoTextInNothing(text: Bytes)
    ensures !StartsWithText([], text)
  {
  }

  /**
   A stream is classified exactly when it holds the whole message its first two bytes announce;
   message 1 is a join with the version text at the front of its payload, and every other message
   is unknown.
   */
  lemma {:induction false} ConnectExactly(s: Bytes, c: Classified<Bytes>)
    ensures ClassifyConnect(s) == Success(c) <==>
            && 3 <= |s| && 3 <= LittleEndian(s[0], s[1]) <= |s| && c.consumed == s[..LittleEndian(s[0], s[1])]
            && (if s[2] == 1 then c.kind == Join && StartsWithText(s[3..LittleEndian(s[0], s[1])], c.detail)
                else c.kind == Unknown && c.detail == [])
  {
    if 3 <= |s| && 3 <= LittleEndian(s[0], s[1]) <= |s| {
      TextExactly(s[3..LittleEndian(s[0], s[1])], c.detail);
      NoTextInNothing(c.detail);
    }
  }

  /** A Terraria message: its own length in two bytes, its type, its payload. */
  function Message(kind: Byte, payload: Bytes): Result<Bytes, Fault> {
    var total := |payload| + 3;
    if total > MAX_FRAME then Failure(BadLength) else Success([total % 256, total / 256, kind] + payload)
  }

  function Disconnect(reason: Bytes): Result<Bytes, Fault> {
    match WriteText(reason)
    case Failure(f) => Failure(f)
    case Success(text) => Message(DISCONNECT, [0] + text)
  }

  lemma {:induction false} MessageFields(kind: Byte, payload: Bytes, rest: Bytes)
    requires Message(kind, payload).Success?
    ensures var m := Message(kind, payload).value;
            var s := m + rest;
            && |m| == LittleEndian(m[0], m[1]) >= 3
            && s[0] == m[0] && s[1] == m[1] && s[2] == kind && s[3..|m|] == payload && s[..|m|] == m
  {
    var m := Message(kind, payload).value;
    var head: Bytes := [(|payload| + 3) % 256, (|payload| + 3) / 256, kind];
    assert m == head + payload;
    assert m + rest == head + (payload + rest);
    Slices(head, payload, rest);
  }

  /** How many groups a length below two million takes. */
  lemma {:induction false} GroupCount(u: nat)
    requires u < 2097152
    ensures |Groups(u)| == if u < 128 then 1 else if u < 16384 then 2 else 3
  {
    if u >= 128 {
      GroupCount(u / 128);
    }
  }

  lemma {:induction false} LongTakesThree(u: nat)
    requires u >= 16384
    ensures |Groups(u)| >= 3
  {
    assert u / 128 >= 128 && u / 128 / 128 >= 1;
    assert Groups(u) == [128 + u % 128] + Groups(u / 128);
    assert Groups(u / 128) == [128 + u / 128 % 128] + Groups(u / 128 / 128);
  }

  /** A disconnect is built exactly for reasons up to 65528 bytes; the frame announces its true length and replays whole. */
  lemma {:induction false} DisconnectCarriesItsLength(reason: Bytes, rest: Bytes)
    requires |reason| <= MAX_INT32
    ensures Disconnect(reason).Success? <==> |reason| <= 65528
    ensures |reason| <= 65528 ==>
              var m := Disconnect(reason).value;
              && LittleEndian(m[0], m[1]) == |m|
              && ClassifyConnect(m + rest) == Success(Classified(Unknown, [], m))
              && m[2..] == [2, 0] + WriteText(reason).value
  {
    assert Unsigned(|reason|) == |reason|;
    if |reason| < 2097152 {
      GroupCount(|reason|);
    } else {
      LongTakesThree(|reason|);
    }
    if |reason| <= 65528 {
      var payload := [0] + WriteText(reason).value;
      MessageFields(DISCONNECT, payload, rest);
      var m := Message(DISCONNECT, payload).value;
      assert m[2..] == [DISCONNECT] + payload;
    }
  }

  /** A connect request with a version of at most 32768 bytes is classified as a join with that version. */
  lemma {:induction false} ConnectRoundTrip(version: Bytes, rest: Bytes)
    requires |version| <= MAX_TEXT
    ensures Message(CONNECT, WriteText(version).value).Success?
    ensures var m := Message(CONNECT, WriteText(version).value).value;
            ClassifyConnect(m + rest) == Success(Classified(Join, version, m))
  {
    assert Unsigned(|version|) == |version|;
    GroupCount(|version|);
    var text := WriteText(version).value;
    TextRoundTrip(version, []);
    assert text + [] == text;
    MessageFields(CONNECT, text, rest);
  }

  // ---------------------------------------------------------------- the code

  method ScanString(r: Reader) returns (res: Result<Bytes, Fault>)
    requires r.Valid()
    modifies r`pos
    ensures r.Valid() && r.pos >= old(r.pos)
    ensures var spec := ReadString(old(r.Rest()));
            if spec.Failure? then res == Failure(spec.error)
            else res == Success(spec.value.0) && r.pos == old(r.pos) + spec.value.1
  {
    ghost var start := r.pos;
    var length, _ := ScanVarInt(r);
    if length.Failure? {
      return Failure(length.error);
    }
    if length.value < 0 || length.value > MAX_STRING {
      return Failure(BadLength);
    }
    ghost var middle := r.pos;
    var bytes := r.ReadFull(length.value);
    if bytes.None? {
      return Failure(Eof);
    }
    Consumed(r.data, start, middle, r.pos);
    return Success(bytes.value);
  }

  method ScanHandshake(frame: Bytes) returns (res: Result<Handshake, Fault>)
    ensures res == ParseHandshake(frame)
  {
    var r := new Reader(frame);
    assert r.Rest() == frame;
    var id, _ := ScanVarInt(r);
    if id.Failure? {
      return Failure(id.error);
    }
    if id.value != 0 {
      return Failure(BadPacket);
    }
    ghost var b1 := r.Rest();
    assert b1 == After(frame, r.pos) && ParseHandshake(frame) == ParseVersion(b1);
    res := ScanVersion(r);
  }

  method ScanVersion(r: Reader) returns (res: Result<Handshake, Fault>)
    requires r.Valid()
    modifies r`pos
    ensures res == ParseVersion(old(r.Rest()))
  {
    ghost var b := r.Rest();
    var version, _ := ScanVarInt(r);
    if version.Failure? {
      return Failure(version.error);
    }
    assert r.Rest() == After(b, ReadVarInt(b).value.1);
    res := ScanHost(r, version.value);
  }

  method ScanHost(r: Reader, version: int) returns (res: Result<Handshake, Fault>)
    requires r.Valid()
    modifies r`pos
    ensures res == ParseHost(version, old(r.Rest()))
  {
    ghost var b := r.Rest();
    var host := ScanString(r);
    if host.Failure? {
      return Failure(host.error);
    }
    assert r.Rest() == After(b, ReadString(b).value.1);
    res := ScanPort(r, version, host.value);
  }

  method ScanPort(r: Reader, version: int, host: Bytes) returns (res: Result<Handshake, Fault>)
    requires r.Valid()
    modifies r`pos
    ensures res == ParsePort(version, host, old(r.Rest()))
  {
    ghost var b := r.Rest();
    var port := r.ReadFull(2);
    if port.None? {
      return Failure(Eof);
    }
    assert r.Rest() == b[2..] && port.value == b[..2];
    var next, _ := ScanVarInt(r);
    if next.Failure? {
      return Failure(next.error);
    }
    return Success(Handshake(version, host, BigEndian(port.value[0], port.value[1]), next.value));
  }

  /** Reads one handshake; on success the stream is the bytes consumed followed by what is left of it. */
  method ClassifyMinecraft(r: Reader) returns (res: Result<Classified<Handshake>, Fault>)
    requires r.Valid()
    modifies r`pos
    ensures r.Valid()
    ensures var spec := ClassifyHandshake(old(r.Rest()));
            if spec.Failure? then res == Failure(spec.error)
            else res == spec && res.value.consumed + r.Rest() == old(r.Rest())
  {
    var frame := ScanFrame(r);
    if frame.Failure? {
      return Failure(frame.error);
    }
    var h := ScanHandshake(frame.value.0);
    if h.Failure? {
      return Failure(h.error);
    }
    return Success(Classified(KindOf(h.value.next), h.value, frame.value.1));
  }

  method ScanFrame(r: Reader) returns (res: Result<(Bytes, Bytes), Fault>)
    requires r.Valid()
    modifies r`pos
    ensures r.Valid()
    ensures var spec := SplitFrame(old(r.Rest()));
            if spec.Failure? then res == Failure(spec.error)
            else res == spec && res.value.1 + r.Rest() == old(r.Rest())
  {
    ghost var start := r.pos;
    var length, captured := ScanVarInt(r);
    if length.Failure? {
      return Failure(length.error);
    }
    if length.value <= 0 || length.value > MAX_PACKET {
      return Failure(BadLength);
    }
    ghost var middle := r.pos;
    var frame := r.ReadFull(length.value);
    if frame.None? {
      return Failure(Eof);
    }
    Consumed(r.data, start, middle, r.pos);
    return Success((frame.value, captured + frame.value));
  }

  lemma {:induction false} Consumed(data: Bytes, a: nat, b: nat, c: nat)
    requires a <= b <= c <= |data|
    ensures data[a..b] + data[b..c] == data[a..][..c - a] && data[b..c] == data[a..][b - a..c - a]
    ensures data[a..c] + data[c..] == data[a..]
    ensures data[a..][..c - a] == data[a..c]
  {
  }

  method ScanText(payload: Bytes) returns (res: Result<Bytes, Fault>)
    ensures var spec := ReadText(payload);
            if spec.Failure? then res == Failure(spec.error) else res == Success(spec.value.0)
  {
    var r := new Reader(payload);
    assert r.Rest() == payload;
    var length := Scan7Bit(r);
    if length.Failure? {
      return Failure(length.error);
    }
    if length.value < 0 || length.value > MAX_TEXT {
      return Failure(BadLength);
    }
    if length.value > |payload| - r.pos {
      return Failure(BadLength);
    }
    var bytes := r.ReadFull(length.value);
    return Success(bytes.value);
  }

  /** Reads one Terraria message; on success nothing of the stream is lost. */
  method ClassifyTerraria(r: Reader) returns (res: Result<Classified<Bytes>, Fault>)
    requires r.Valid()
    modifies r`pos
    ensures r.Valid()
    ensures var spec := ClassifyConnect(old(r.Rest()));
            if spec.Failure? then res == Failure(spec.error)
            else res == spec && res.value.consumed + r.Rest() == old(r.Rest())
  {
    ghost var s, start := r.Rest(), r.pos;
    var header := r.ReadFull(3);
    if header.None? {
      return Failure(Eof);
    }
    var consumed := header.value;
    assert s[0] == header.value[0] && s[1] == header.value[1] && s[2] == header.value[2];
    var total := LittleEndian(header.value[0], header.value[1]);
    if total < 3 {
      return Failure(BadLength);
    }
    var payload := r.ReadFull(total - 3);
    if payload.None? {
      return Failure(Eof);
    }
    Consumed(r.data, start, start + 3, r.pos);
    consumed := consumed + payload.value;
    if header.value[2] != CONNECT {
      return Success(Classified(Unknown, [], consumed));
    }
    if |payload.value| == 0 {
      return Failure(BadPacket);
    }
    var version := ScanText(payload.value);
    if version.Failure? {
      return Failure(version.error);
    }
    return Success(Classified(Join, version.value, consumed));
  }
}
