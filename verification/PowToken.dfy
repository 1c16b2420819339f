/**
 Proof-of-work challenges: the token a receiver issues and recognises, and the
 header a sender returns (telemetry-receiver/pow.go, telemetryschema/pow.go).
 HMAC, SHA-256 and base64url are parameters with the laws the code relies on.
 */
module PowToken {
  import opened Wrappers
  import opened Basics
  import Decimal

  newtype byte = x: int | 0 <= x < 256

  const MAX_BITS := 26
  const MAX_CHALLENGE_LEN := 256
  const TOKEN_VERSION: byte := 1
  const TTL_SECONDS := 900
  const MAC_SIZE := 16
  const ID_SIZE := 16
  const PAYLOAD_SIZE := 26
  const SOLVE_CHECK_EVERY := 4096
  const UINT64 := 0x1_0000_0000_0000_0000

  datatype Primitives = Primitives(
    mac: seq<byte> -> seq<byte>,
    digest: string -> seq<byte>,
    encode: seq<byte> -> string,
    decode: string -> Option<seq<byte>>)

  predicate IsUrlChar(c: char) {
    'a' <= c <= 'z' || 'A' <= c <= 'Z' || '0' <= c <= '9' || c == '-' || c == '_'
  }

  /** Unpadded base64url: decoding inverts encoding, and the text has the alphabet and length of section 5 of RFC 4648. */
  ghost predicate Lawful(p: Primitives) {
    forall b: seq<byte> ::
      && p.decode(p.encode(b)) == Some(b)
      && |p.encode(b)| == (8 * |b| + 5) / 6
      && |p.mac(b)| == MAC_SIZE
      && forall i :: 0 <= i < |p.encode(b)| ==> IsUrlChar(p.encode(b)[i])
  }

  // ---------------------------------------------------------------- leading zero bits

  /** Bit `j` of a byte, counted from its most significant bit. */
  predicate ByteBit(b: byte, j: nat)
    requires j < 8
  {
    (b as int / Power2(7 - j)) % 2 == 1
  }

  /** Bit `k` of a digest, counted from its most significant bit. */
  predicate BitAt(sum: seq<byte>, k: nat)
    requires k < 8 * |sum|
  {
    ByteBit(sum[k / 8], k % 8)
  }

  function ZerosFrom(sum: seq<byte>, k: nat): (n: nat)
    requires k <= 8 * |sum|
    ensures k <= n <= 8 * |sum|
    decreases 8 * |sum| - k
  {
    if k == 8 * |sum| || BitAt(sum, k) then k else ZerosFrom(sum, k + 1)
  }

  /** The zero bits at the start of a digest. */
  function LeadingZeros(sum: seq<byte>): nat { ZerosFrom(sum, 0) }

  lemma {:induction false} ZerosFromMeaning(sum: seq<byte>, k: nat)
    requires k <= 8 * |sum|
    ensures var n := ZerosFrom(sum, k);
            (forall i :: k <= i < n ==> !BitAt(sum, i)) && (n < 8 * |sum| ==> BitAt(sum, n))
    decreases 8 * |sum| - k
  {
    if k < 8 * |sum| && !BitAt(sum, k) {
      ZerosFromMeaning(sum, k + 1);
    }
  }

  /** Zero bits inside one byte are stepped over. */
  lemma {:induction false} ZeroBits(sum: seq<byte>, i: nat, j: nat)
    requires i < |sum| && j <= 8
    requires forall k :: 0 <= k < j ==> !ByteBit(sum[i], k)
    ensures ZerosFrom(sum, 8 * i) == ZerosFrom(sum, 8 * i + j)
    decreases j
  {
    if j > 0 {
      ZeroBits(sum, i, j - 1);
      var k := 8 * i + (j - 1);
      assert k / 8 == i && k % 8 == j - 1;
    }
  }

  lemma {:induction false} ByteWeights()
    ensures Power2(0) == 1 && Power2(1) == 2 && Power2(2) == 4 && Power2(3) == 8
    ensures Power2(4) == 16 && Power2(5) == 32 && Power2(6) == 64 && Power2(7) == 128
  {
    assert Power2(3) == 8;
    assert Power2(5) == 32;
  }

  /** The first one bit of a byte that has one, under a mask that starts at 0x80 and is halved. */
  method FirstOne(b: byte) returns (j: nat)
    requires b != 0
    ensures j < 8 && ByteBit(b, j) && forall k :: 0 <= k < j ==> !ByteBit(b, k)
  {
    ByteWeights();
    j := 0;
    var mask := 128;
    while (b as int / mask) % 2 == 0
      invariant 0 <= j < 8 && mask == Power2(7 - j)
      invariant b as int < 2 * mask
      invariant forall k :: 0 <= k < j ==> !ByteBit(b, k)
      decreases 7 - j
    {
      assert !ByteBit(b, j);
      assert b as int < mask;
      mask := mask / 2;
      j := j + 1;
    }
  }

  /** Eight at a time over zero bytes, then bit by bit in the first other byte. */
  method LeadingZeroBits(sum: seq<byte>) returns (n: nat)
    ensures n == LeadingZeros(sum)
  {
    n := 0;
    for i := 0 to |sum|
      invariant n == 8 * i && ZerosFrom(sum, 0) == ZerosFrom(sum, n)
    {
      if sum[i] == 0 {
        assert forall k :: 0 <= k < 8 ==> !ByteBit(sum[i], k);
        ZeroBits(sum, i, 8);
        n := n + 8;
        continue;
      }
      var j := FirstOne(sum[i]);
      ZeroBits(sum, i, j);
      n := n + j;
      assert n / 8 == i && n % 8 == j;
      return;
    }
  }

  // ---------------------------------------------------------------- solving

  function Preimage(challenge: string, nonce: nat): string { challenge + ":" + Decimal.Show(nonce) }

  /** Whether a nonce solves a challenge at the given difficulty; 0 or less is always satisfied. */
  predicate Solves(p: Primitives, challenge: string, nonce: nat, bits: int) {
    bits <= 0 || LeadingZeros(p.digest(Preimage(challenge, nonce))) >= bits
  }

  datatype SolveError = DifficultyOutOfRange | Cancelled

  /** No nonce below `n` solves. */
  predicate Unsolved(p: Primitives, challenge: string, bits: int, n: nat) {
    forall k :: 0 <= k < n && k < UINT64 ==> !Solves(p, challenge, k, bits)
  }

  /** The attempts before which the context is looked at. */
  predicate IsCheck(attempt: nat) { attempt % SOLVE_CHECK_EVERY == 0 }

  predicate Unchecked(from: nat, to: nat) { forall k :: from <= k < to ==> !IsCheck(k) }

  function NonceOf(attempt: nat): nat { attempt % UINT64 }

  /**
   The smallest solving nonce. The context is done from attempt `doneAt` on (None: never) and is
   looked at every 4096 attempts; the nonce wraps as uint64 does. Without a solution and without
   a cancellation the search has no end.
   */
  method Solve(p: Primitives, challenge: string, bits: int, doneAt: Option<nat>) returns (r: Result<nat, SolveError>)
    requires 0 <= bits <= MAX_BITS && doneAt.None? ==> exists n :: 0 <= n < UINT64 && Solves(p, challenge, n, bits)
    ensures r == Failure(DifficultyOutOfRange) <==> bits < 0 || bits > MAX_BITS
    ensures r.Success? ==> r.value < UINT64 && Solves(p, challenge, r.value, bits) && Unsolved(p, challenge, bits, r.value)
    ensures r.Success? && doneAt.Some? ==> Unchecked(doneAt.value, r.value + 1)
    ensures r == Failure(Cancelled) ==> doneAt.Some? && Unsolved(p, challenge, bits, doneAt.value)
  {
    if bits < 0 || bits > MAX_BITS {
      return Failure(DifficultyOutOfRange);
    }
    ghost var last: nat;
    if doneAt.None? {
      last :| last < UINT64 && Solves(p, challenge, last, bits);
    } else {
      last := doneAt.value + SOLVE_CHECK_EVERY;
    }
    var nonce, attempt := 0, 0;
    while true
      invariant 0 <= attempt <= last && nonce == NonceOf(attempt) && nonce < UINT64 && nonce <= attempt
      invariant Unsolved(p, challenge, bits, attempt)
      invariant doneAt.Some? ==> Unchecked(doneAt.value, attempt)
      decreases last - attempt
    {
      NextNonce(attempt);
      if nonce % SOLVE_CHECK_EVERY == 0 && doneAt.Some? && attempt >= doneAt.value {
        return Failure(Cancelled);
      }
      var zeros := LeadingZeroBits(p.digest(Preimage(challenge, nonce)));
      if zeros >= bits {
        return Success(nonce);
      }
      if doneAt.Some? {
        NextCheck(doneAt.value, attempt);
      }
      nonce, attempt := if nonce + 1 == UINT64 then 0 else nonce + 1, attempt + 1;
    }
  }

  /** How many checks there are before the nonce wraps. */
  const CHECKS := 0x10_0000_0000_0000

  /** Wrapping leaves the attempts at which the context is looked at in place. */
  lemma {:induction false} NextNonce(attempt: nat)
    ensures NonceOf(attempt) % SOLVE_CHECK_EVERY == 0 <==> IsCheck(attempt)
    ensures NonceOf(attempt) <= attempt && (attempt < UINT64 ==> NonceOf(attempt) == attempt)
    ensures NonceOf(attempt + 1) == if NonceOf(attempt) + 1 == UINT64 then 0 else NonceOf(attempt) + 1
  {
    var rounds, nonce := attempt / UINT64, NonceOf(attempt);
    var checks, since := nonce / SOLVE_CHECK_EVERY, nonce % SOLVE_CHECK_EVERY;
    assert attempt == UINT64 * rounds + nonce && nonce == SOLVE_CHECK_EVERY * checks + since;
    CheckRemainder(attempt, rounds * CHECKS + checks, since);
    if nonce + 1 == UINT64 {
      NonceRemainder(attempt + 1, rounds + 1, 0);
    } else {
      NonceRemainder(attempt + 1, rounds, nonce + 1);
    }
  }

  lemma {:induction false} CheckRemainder(n: nat, q: nat, r: nat)
    requires n == SOLVE_CHECK_EVERY * q + r && r < SOLVE_CHECK_EVERY
    ensures n % SOLVE_CHECK_EVERY == r
  {
    assert n / SOLVE_CHECK_EVERY == q;
  }

  lemma {:induction false} NonceRemainder(n: nat, q: nat, r: nat)
    requires n == UINT64 * q + r && r < UINT64
    ensures n % UINT64 == r
  {
    assert n / UINT64 == q;
  }

  /** Among 4096 consecutive attempts one is looked at. */
  lemma {:induction false} NextCheck(doneAt: nat, attempt: nat)
    requires Unchecked(doneAt, attempt) && !(attempt >= doneAt && IsCheck(attempt))
    ensures attempt + 1 < doneAt + SOLVE_CHECK_EVERY
  {
    var k := doneAt + (SOLVE_CHECK_EVERY - doneAt % SOLVE_CHECK_EVERY) % SOLVE_CHECK_EVERY;
    assert IsCheck(k);
    assert doneAt <= k < doneAt + SOLVE_CHECK_EVERY;
  }

  // ---------------------------------------------------------------- the header

  function LastIndex(s: string, c: char): (r: Option<nat>)
    ensures r.Some? ==> r.value < |s| && s[r.value] == c
  {
    if s == "" then None
    else if s[|s| - 1] == c then Some(|s| - 1)
    else LastIndex(s[..|s| - 1], c)
  }

  function FormatHeader(challenge: string, nonce: nat): string { Preimage(challenge, nonce) }

  /** Splits a header at its last colon; the nonce must be a plain decimal uint64. */
  function ParseHeader(header: string): (r: Option<(string, nat)>) {
    var i := LastIndex(header, ':');
    if i.None? then None
    else
      var challenge, raw := header[..i.value], header[i.value + 1..];
      var nonce := Decimal.Read(raw, UINT64);
      if challenge == "" || |challenge| > MAX_CHALLENGE_LEN then None
      else if nonce.None? || Decimal.Show(nonce.value) != raw then None
      else Some((challenge, nonce.value))
  }

  lemma {:induction false} LastIndexBefore(a: string, c: char, b: string)
    requires forall i :: 0 <= i < |b| ==> b[i] != c
    ensures LastIndex(a + [c] + b, c) == Some(|a|)
    decreases |b|
  {
    var s := a + [c] + b;
    if b == "" {
      assert s[|s| - 1] == c;
    } else {
      assert s[|s| - 1] == b[|b| - 1];
      assert s[..|s| - 1] == a + [c] + b[..|b| - 1];
      LastIndexBefore(a, c, b[..|b| - 1]);
    }
  }

  /** Parsing undoes formatting for every challenge a receiver may send and every uint64 nonce. */
  lemma {:induction false} HeaderRoundTrip(challenge: string, nonce: nat)
    requires 0 < |challenge| <= MAX_CHALLENGE_LEN && nonce < UINT64
    ensures ParseHeader(FormatHeader(challenge, nonce)) == Some((challenge, nonce))
  {
    var raw := Decimal.Show(nonce);
    var header := FormatHeader(challenge, nonce);
    assert header == challenge + [':'] + raw;
    LastIndexBefore(challenge, ':', raw);
    assert header[..|challenge|] == challenge && header[|challenge| + 1..] == raw;
    Decimal.ReadOfShow(nonce, UINT64);
  }

  // ---------------------------------------------------------------- the token

  function BigEndian(n: nat, k: nat): (b: seq<byte>)
    ensures |b| == k
  {
    if k == 0 then [] else BigEndian(n / 256, k - 1) + [(n % 256) as byte]
  }

  function FromBigEndian(b: seq<byte>): nat {
    if b == [] then 0 else FromBigEndian(b[..|b| - 1]) * 256 + b[|b| - 1] as int
  }

  function Power256(k: nat): (n: nat)
    ensures n > 0
  {
    if k == 0 then 1 else 256 * Power256(k - 1)
  }

  lemma {:induction false} BigEndianRoundTrip(n: nat, k: nat)
    requires n < Power256(k)
    ensures FromBigEndian(BigEndian(n, k)) == n
  {
    if k > 0 {
      BigEndianRoundTrip(n / 256, k - 1);
      assert BigEndian(n, k)[..k - 1] == BigEndian(n / 256, k - 1);
    }
  }

  /** Version, issue time, difficulty and the random bytes that identify the challenge. */
  function Payload(issued: nat, bits: nat, id: seq<byte>): (b: seq<byte>)
    requires |id| == ID_SIZE
    ensures |b| == PAYLOAD_SIZE
  {
    [TOKEN_VERSION] + BigEndian(issued, 8) + [(bits % 256) as byte] + id
  }

  function IssuedOf(payload: seq<byte>): nat
    requires |payload| == PAYLOAD_SIZE
  {
    FromBigEndian(payload[1..9])
  }

  /** The last second at which a challenge is accepted; the addition wraps as uint64 does. */
  function ExpiresOf(payload: seq<byte>): nat
    requires |payload| == PAYLOAD_SIZE
  {
    (IssuedOf(payload) + TTL_SECONDS) % UINT64
  }

  function BitsOf(payload: seq<byte>): nat
    requires |payload| == PAYLOAD_SIZE
  {
    payload[9] as int
  }

  function IdOf(payload: seq<byte>): seq<byte>
    requires |payload| == PAYLOAD_SIZE
  {
    payload[10..]
  }

  /** Where each byte of a payload stands: the version, the issue time from its highest byte down, the difficulty, the id. */
  lemma {:induction false} PayloadBytes(issued: nat, bits: nat, id: seq<byte>, k: nat)
    requires |id| == ID_SIZE && k < 8
    ensures var b := Payload(issued, bits, id);
            |b| == 26 && b[0] == 1 && b[1 + k] as int == issued / Power256(7 - k) % 256 && b[9] as int == bits % 256 && b[10..] == id
  {
    var b := Payload(issued, bits, id);
    BigEndianDigit(issued, 8, k);
    assert b[1 + k] == BigEndian(issued, 8)[k] && b[10..] == id;
  }

  lemma {:induction false} BigEndianDigit(n: nat, size: nat, k: nat)
    requires k < size
    ensures BigEndian(n, size)[k] as int == n / Power256(size - 1 - k) % 256
  {
    if k < size - 1 {
      BigEndianDigit(n / 256, size - 1, k);
      DivideTwice(n, Power256(size - 2 - k));
    }
  }

  lemma {:induction false} DivideTwice(n: nat, m: nat)
    requires m > 0
    ensures n / 256 / m == n / (256 * m)
  {
    var q := n / (256 * m);
    var r := n % (256 * m);
    assert n == 256 * (m * q) + r;
    assert n / 256 == m * q + r / 256;
    assert r / 256 < m;
    QuotientOf(n / 256, m, q, r / 256);
  }

  lemma {:induction false} QuotientOf(n: nat, m: nat, q: nat, r: nat)
    requires n == m * q + r && r < m
    ensures n / m == q
  {
    var d: int := n / m - q;
    assert m * (n / m) + n % m == n;
    assert m * d == m * (n / m) - m * q;
    assert 0 < m * d + m && m * d < m;
    assert d <= 0 || m * d >= m;
    assert d >= 0 || m * d + m <= 0;
  }

  lemma {:induction false} PayloadFields(issued: nat, bits: nat, id: seq<byte>)
    requires |id| == ID_SIZE && issued < UINT64 && bits < 256
    ensures var b := Payload(issued, bits, id);
            b[0] == TOKEN_VERSION && IssuedOf(b) == issued && BitsOf(b) == bits && IdOf(b) == id
  {
    var b := Payload(issued, bits, id);
    assert b[1..9] == BigEndian(issued, 8);
    assert Power256(8) == UINT64 by {
      assert Power256(2) == 65536 && Power256(4) == 65536 * 65536;
      assert Power256(6) == 65536 * Power256(4);
    }
    BigEndianRoundTrip(issued, 8);
    assert b[10..] == id;
  }

  function Token(p: Primitives, payload: seq<byte>): string {
    p.encode(payload) + ['.'] + p.encode(p.mac(payload))
  }

  function FirstIndex(s: string, c: char): (r: Option<nat>)
    ensures r.Some? ==> r.value < |s| && s[r.value] == c
  {
    if s == "" then None
    else if s[0] == c then Some(0)
    else
      var r := FirstIndex(s[1..], c);
      if r.Some? then Some(r.value + 1) else None
  }

  /** The payload of a token of the right shape whose MAC is valid. */
  function ParseToken(p: Primitives, token: string): (r: Option<seq<byte>>)
    ensures r.Some? ==> |r.value| == PAYLOAD_SIZE
  {
    var i := FirstIndex(token, '.');
    if i.None? then None
    else
      var payload := p.decode(token[..i.value]);
      if payload.None? || |payload.value| != PAYLOAD_SIZE || payload.value[0] != TOKEN_VERSION then None
      else
        var got := p.decode(token[i.value + 1..]);
        if got.None? || got.value != p.mac(payload.value) then None else payload
  }

  lemma {:induction false} FirstIndexAfter(a: string, c: char, b: string)
    requires forall i :: 0 <= i < |a| ==> a[i] != c
    ensures FirstIndex(a + [c] + b, c) == Some(|a|)
    decreases |a|
  {
    var s := a + [c] + b;
    if a != "" {
      assert s[0] == a[0];
      assert s[1..] == a[1..] + [c] + b;
      FirstIndexAfter(a[1..], c, b);
    }
  }

  /** An issued token is recognised, fits a header, and gives its payload back. */
  lemma {:induction false} TokenRoundTrip(p: Primitives, payload: seq<byte>)
    requires Lawful(p) && |payload| == PAYLOAD_SIZE && payload[0] == TOKEN_VERSION
    ensures ParseToken(p, Token(p, payload)) == Some(payload)
    ensures |Token(p, payload)| == 58
  {
    var a, b := p.encode(payload), p.encode(p.mac(payload));
    assert |p.mac(payload)| == MAC_SIZE;
    forall i | 0 <= i < |a|
      ensures a[i] != '.'
    {
      assert IsUrlChar(a[i]);
    }
    FirstIndexAfter(a, '.', b);
    var t := a + ['.'] + b;
    assert t[..|a|] == a && t[|a| + 1..] == b;
  }
}
