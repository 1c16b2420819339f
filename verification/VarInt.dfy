/**
 The variable-length integers of gameproto: Minecraft's VarInt (minecraft.go) and the
 7-bit form of .NET strings that Terraria uses (terraria.go). Both send groups of
 seven bits, lowest first, the top bit marking that another group follows.
 */
module VarInt {
  import opened Wrappers

  type Byte = b: int | 0 <= b < 256

  datatype Fault = Eof | TooLong | OutOfRange | BadLength | BadPacket

  const TWO28: int := 0x1000_0000
  const TWO31: int := 0x8000_0000
  const TWO32: int := 0x1_0000_0000

  predicate Int32(v: int) { -TWO31 <= v < TWO31 }

  /** The bit pattern of a 32-bit value, and the value of a pattern. */
  function Unsigned(v: int): nat { v % TWO32 }

  function Signed(u: nat): int { if u % TWO32 < TWO31 then u % TWO32 else u % TWO32 - TWO32 }

  lemma {:induction false} SignedOfUnsigned(v: int)
    requires Int32(v)
    ensures Signed(Unsigned(v)) == v && Unsigned(v) < TWO32
  {
  }

  lemma {:induction false} UnsignedOfSigned(u: nat)
    requires u < TWO32
    ensures Unsigned(Signed(u)) == u && Int32(Signed(u))
  {
  }

  // ---------------------------------------------------------------- groups

  function Pow128(n: nat): (r: nat)
    ensures r >= 1
  {
    if n == 0 then 1 else 128 * Pow128(n - 1)
  }

  lemma {:induction false} Powers()
    ensures Pow128(0) == 1 && Pow128(1) == 128 && Pow128(4) == TWO28 && Pow128(5) == 128 * TWO28
  {
    assert Pow128(2) == 128 * Pow128(1);
    assert Pow128(3) == 128 * Pow128(2);
    assert Pow128(4) == 128 * Pow128(3);
  }

  function Groups(u: nat): (r: seq<Byte>)
    ensures |r| >= 1
  {
    if u < 128 then [u] else [128 + u % 128] + Groups(u / 128)
  }

  /** The value of the groups at the front of `s`, at most `left` of them, and how many there are. */
  function ReadGroups(s: seq<Byte>, left: nat): (r: Result<(nat, nat), Fault>)
    ensures r.Success? ==> 1 <= r.value.1 <= left && r.value.1 <= |s| && r.value.0 < Pow128(left)
    decreases left
  {
    if left == 0 then Failure(TooLong)
    else if s == [] then Failure(Eof)
    else if s[0] < 128 then Success((s[0], 1))
    else match ReadGroups(s[1..], left - 1)
      case Failure(f) => Failure(f)
      case Success(rest) => Success((s[0] - 128 + 128 * rest.0, rest.1 + 1))
  }

  lemma {:induction false} GroupsRead(u: nat, suffix: seq<Byte>, left: nat)
    requires left >= 1 && u < Pow128(left)
    ensures |Groups(u)| <= left && ReadGroups(Groups(u) + suffix, left) == Success((u, |Groups(u)|))
  {
    var s := Groups(u) + suffix;
    if u >= 128 {
      assert left >= 2 by {
        assert Pow128(1) == 128 * Pow128(0);
      }
      GroupsRead(u / 128, suffix, left - 1);
      assert s[1..] == Groups(u / 128) + suffix;
    }
  }

  /** No encoding of a value is shorter than the one written. */
  lemma {:induction false} WrittenIsShortest(s: seq<Byte>, left: nat)
    requires ReadGroups(s, left).Success?
    ensures |Groups(ReadGroups(s, left).value.0)| <= ReadGroups(s, left).value.1
    decreases left
  {
    if s[0] >= 128 {
      WrittenIsShortest(s[1..], left - 1);
    }
  }

  /** Reading looks at the groups it consumes and no further. */
  lemma {:induction false} ReadIsPrefix(s: seq<Byte>, left: nat, suffix: seq<Byte>)
    requires ReadGroups(s, left).Success?
    ensures ReadGroups(s + suffix, left) == ReadGroups(s, left)
    decreases left
  {
    assert (s + suffix)[1..] == s[1..] + suffix;
    if s[0] >= 128 {
      ReadIsPrefix(s[1..], left - 1, suffix);
    }
  }

  // ---------------------------------------------------------------- the two codecs

  function WriteVarInt(v: int): seq<Byte> { Groups(Unsigned(v)) }

  /** Minecraft: five groups at most, and nothing beyond 32 bits. */
  function ReadVarInt(s: seq<Byte>): Result<(int, nat), Fault> {
    match ReadGroups(s, 5)
    case Failure(f) => Failure(f)
    case Success(r) => if r.0 >= TWO32 then Failure(OutOfRange) else Success((Signed(r.0), r.1))
  }

  /** Terraria: five groups at most, the bits beyond 32 dropped. */
  function Read7Bit(s: seq<Byte>): Result<(int, nat), Fault> {
    match ReadGroups(s, 5)
    case Failure(f) => Failure(f)
    case Success(r) => Success((Signed(r.0), r.1))
  }

  function Write7Bit(v: int): Result<seq<Byte>, Fault> {
    if v < 0 then Failure(OutOfRange) else Success(Groups(Unsigned(v)))
  }

  lemma {:induction false} VarIntRoundTrip(v: int, suffix: seq<Byte>)
    requires Int32(v)
    ensures 1 <= |WriteVarInt(v)| <= 5
    ensures ReadVarInt(WriteVarInt(v) + suffix) == Success((v, |WriteVarInt(v)|))
  {
    Powers();
    SignedOfUnsigned(v);
    GroupsRead(Unsigned(v), suffix, 5);
  }

  /** The 7-bit form carries exactly the values that are not negative. */
  lemma {:induction false} SevenBitRoundTrip(v: int, suffix: seq<Byte>)
    requires Int32(v)
    ensures Write7Bit(v).Success? <==> v >= 0
    ensures v >= 0 ==> var w := Write7Bit(v).value;
                       1 <= |w| <= 5 && Read7Bit(w + suffix) == Success((v, |w|))
  {
    Powers();
    SignedOfUnsigned(v);
    GroupsRead(Unsigned(v), suffix, 5);
  }

  /** Every VarInt that is read is a 32-bit value whose own encoding is no longer than what was read. */
  lemma {:induction false} ReadVarIntIsInt32(s: seq<Byte>)
    requires ReadVarInt(s).Success?
    ensures var (v, n) := ReadVarInt(s).value; Int32(v) && |WriteVarInt(v)| <= n <= 5
  {
    WrittenIsShortest(s, 5);
    UnsignedOfSigned(ReadGroups(s, 5).value.0);
  }

  /** Terraria's reader also takes over-long patterns: a fifth byte of 16 reads as zero. */
  lemma {:induction false} SevenBitDropsHighBits()
    ensures Read7Bit([128, 128, 128, 128, 16]) == Success((0, 5))
    ensures ReadVarInt([128, 128, 128, 128, 16]) == Failure(OutOfRange)
  {
    var s: seq<Byte> := [128, 128, 128, 128, 16];
    assert s[4..] == [16] && s[3..][1..] == s[4..] && s[2..][1..] == s[3..] && s[1..][1..] == s[2..];
    assert ReadGroups(s[4..], 1) == Success((16, 1));
    assert ReadGroups(s[3..], 2) == Success((16 * 128, 2));
    assert ReadGroups(s[2..], 3) == Success((16 * 128 * 128, 3));
    assert ReadGroups(s[1..], 4) == Success((16 * 128 * 128 * 128, 4));
    assert ReadGroups(s, 5) == Success((16 * 128 * 128 * 128 * 128, 5));
  }

  // ---------------------------------------------------------------- exactly what is read

  /** The first `n` bytes are one integer: only the last has its top bit clear. */
  predicate GroupsAt(s: seq<Byte>, n: nat) {
    1 <= n <= |s| && s[n - 1] < 128 && forall k :: 0 <= k < n - 1 ==> s[k] >= 128
  }

  /** A value moved up by `i` groups. */
  function Shifted(v: nat, i: nat): nat { if i == 0 then v else 128 * Shifted(v, i - 1) }

  /** The sum of the first `n` groups, each without its top bit and moved to its place. */
  function Weighted(s: seq<Byte>, n: nat): nat
    requires n <= |s|
  {
    if n == 0 then 0 else Weighted(s, n - 1) + Shifted(s[n - 1] % 128, n - 1)
  }

  lemma {:induction false} WeightedFirst(s: seq<Byte>, n: nat)
    requires 1 <= n <= |s|
    ensures Weighted(s, n) == s[0] % 128 + 128 * Weighted(s[1..], n - 1)
  {
    if n > 1 {
      WeightedFirst(s, n - 1);
    }
  }

  lemma {:induction false} GroupsAtRest(s: seq<Byte>, n: nat)
    requires s != [] && s[0] >= 128 && n >= 1
    ensures GroupsAt(s, n) <==> n >= 2 && GroupsAt(s[1..], n - 1)
  {
    if GroupsAt(s, n) {
      assert forall k :: 0 <= k < n - 2 ==> s[1..][k] == s[k + 1];
    }
    if n >= 2 && GroupsAt(s[1..], n - 1) {
      forall k | 0 <= k < n - 1
        ensures s[k] >= 128
      {
        if k > 0 {
          assert s[1..][k - 1] >= 128;
        }
      }
    }
  }

  lemma {:induction false} ReadsWeighted(s: seq<Byte>, left: nat)
    requires ReadGroups(s, left).Success?
    ensures var (v, n) := ReadGroups(s, left).value; GroupsAt(s, n) && v == Weighted(s, n)
    decreases left
  {
    var n := ReadGroups(s, left).value.1;
    WeightedFirst(s, n);
    if s[0] >= 128 {
      ReadsWeighted(s[1..], left - 1);
      GroupsAtRest(s, n);
    }
  }

  lemma {:induction false} WeightedReads(s: seq<Byte>, left: nat, n: nat)
    requires n <= left && GroupsAt(s, n)
    ensures ReadGroups(s, left) == Success((Weighted(s, n), n))
    decreases left
  {
    WeightedFirst(s, n);
    if s[0] >= 128 {
      GroupsAtRest(s, n);
      WeightedReads(s[1..], left - 1, n - 1);
    } else {
      assert n == 1;
    }
  }

  /** Groups are read exactly when some byte within the bound ends them; the value is the weighted sum. */
  lemma {:induction false} ReadGroupsExactly(s: seq<Byte>, left: nat, v: nat, n: nat)
    ensures ReadGroups(s, left) == Success((v, n)) <==> n <= left && GroupsAt(s, n) && v == Weighted(s, n)
  {
    if ReadGroups(s, left).Success? {
      ReadsWeighted(s, left);
    }
    if n <= left && GroupsAt(s, n) {
      WeightedReads(s, left, n);
    }
  }

  /** Otherwise the stream ends within the bound, or goes on beyond it. */
  lemma {:induction false} ReadGroupsFaults(s: seq<Byte>, left: nat)
    ensures ReadGroups(s, left) == Failure(TooLong) <==> left <= |s| && forall k :: 0 <= k < left ==> s[k] >= 128
    ensures ReadGroups(s, left) == Failure(Eof) <==> |s| < left && forall k :: 0 <= k < |s| ==> s[k] >= 128
    ensures ReadGroups(s, left).Failure? ==> ReadGroups(s, left).error in {TooLong, Eof}
    decreases left
  {
    if left > 0 && s != [] && s[0] >= 128 {
      ReadGroupsFaults(s[1..], left - 1);
      assert forall k :: 1 <= k < |s| ==> s[k] == s[1..][k - 1];
    }
  }

  /** The first `n` bytes, five at most, spell the 32-bit value `v` in two's complement. */
  predicate Spells(s: seq<Byte>, n: nat, v: int) {
    n <= 5 && GroupsAt(s, n) && Int32(v) && Weighted(s, n) == if v < 0 then v + 0x1_0000_0000 else v
  }

  lemma {:induction false} SignedExactly(u: nat, v: int)
    ensures Signed(u) == v <==> Int32(v) && (u - v) % 0x1_0000_0000 == 0
  {
  }

  lemma {:induction false} VarIntOf(s: seq<Byte>, u: nat, n: nat, v: int, k: nat)
    requires ReadGroups(s, 5) == Success((u, n))
    ensures ReadVarInt(s) == Success((v, k)) <==> k == n && Int32(v) && u == if v < 0 then v + 0x1_0000_0000 else v
  {
  }

  /** A VarInt is read exactly from the bytes that spell it, the shortest form or not. */
  lemma {:induction false} ReadVarIntExactly(s: seq<Byte>, v: int, n: nat)
    ensures ReadVarInt(s) == Success((v, n)) <==> Spells(s, n, v)
  {
    if ReadVarInt(s) == Success((v, n)) {
      var (u, k) := ReadGroups(s, 5).value;
      ReadsWeighted(s, 5);
      VarIntOf(s, u, k, v, n);
    }
    if Spells(s, n, v) {
      WeightedReads(s, 5, n);
      VarIntOf(s, Weighted(s, n), n, v, n);
    }
  }

  /** Groups beyond 32 bits are out of range, and nothing else is. */
  lemma {:induction false} OutOfRangeExactly(s: seq<Byte>)
    ensures ReadVarInt(s) == Failure(OutOfRange) <==> exists n: nat :: n <= 5 && GroupsAt(s, n) && Weighted(s, n) >= 0x1_0000_0000
  {
    ReadGroupsFaults(s, 5);
    if ReadGroups(s, 5).Success? {
      ReadsWeighted(s, 5);
    }
    forall n: nat | n <= 5 && GroupsAt(s, n)
      ensures ReadGroups(s, 5) == Success((Weighted(s, n), n))
    {
      WeightedReads(s, 5, n);
    }
  }

  /** Terraria's integer is read from any five groups or fewer, its high bits dropped. */
  lemma {:induction false} Read7BitExactly(s: seq<Byte>, v: int, n: nat)
    ensures Read7Bit(s) == Success((v, n)) <==>
            n <= 5 && GroupsAt(s, n) && Int32(v) && (Weighted(s, n) - v) % 0x1_0000_0000 == 0
  {
    if ReadGroups(s, 5).Success? {
      ReadsWeighted(s, 5);
      SignedExactly(ReadGroups(s, 5).value.0, v);
    }
    if n <= 5 && GroupsAt(s, n) {
      WeightedReads(s, 5, n);
    }
  }

  // ---------------------------------------------------------------- the loops

  /** A byte stream and how far it has been read. */
  class Reader {
    const data: seq<Byte>
    var pos: nat

    ghost predicate Valid()
      reads this
    {
      pos <= |data|
    }

    function Rest(): seq<Byte>
      reads this
      requires Valid()
    {
      data[pos..]
    }

    constructor (data: seq<Byte>)
      ensures Valid() && this.data == data && pos == 0
    {
      this.data, pos := data, 0;
    }

    method ReadByte() returns (b: Option<Byte>)
      requires Valid()
      modifies this`pos
      ensures Valid()
      ensures old(pos) == |data| ==> b.None? && pos == old(pos)
      ensures old(pos) < |data| ==> b == Some(data[old(pos)]) && pos == old(pos) + 1
    {
      if pos == |data| {
        return None;
      }
      b := Some(data[pos]);
      pos := pos + 1;
    }

    /** Reads exactly `n` bytes; a stream too short is read to its end. */
    method ReadFull(n: nat) returns (bytes: Option<seq<Byte>>)
      requires Valid()
      modifies this`pos
      ensures Valid() && pos >= old(pos)
      ensures bytes.Some? <==> old(pos) + n <= |data|
      ensures bytes.Some? ==> pos == old(pos) + n && bytes.value == data[old(pos)..pos]
    {
      if pos + n > |data| {
        pos := |data|;
        return None;
      }
      bytes := Some(data[pos..pos + n]);
      pos := pos + n;
    }
  }

  lemma {:induction false} ShiftedAdds(a: nat, b: nat, i: nat)
    ensures Shifted(a + b, i) == Shifted(a, i) + Shifted(b, i)
  {
    if i > 0 {
      ShiftedAdds(a, b, i - 1);
    }
  }

  lemma {:induction false} ShiftedOnce(v: nat, i: nat)
    ensures Shifted(128 * v, i) == Shifted(v, i + 1)
  {
    if i > 0 {
      ShiftedOnce(v, i - 1);
    }
  }

  /** A group moved into place leaves room for what is below it. */
  lemma {:induction false} ShiftedFits(b: nat, i: nat)
    requires b < 128
    ensures Shifted(b, i) + Pow128(i) <= Pow128(i + 1)
  {
    if i > 0 {
      ShiftedFits(b, i - 1);
    }
  }

  /** What the groups read so far add to those still to come. */
  ghost function Joined(acc: nat, i: nat, rest: Result<(nat, nat), Fault>): Result<(nat, nat), Fault> {
    if rest.Failure? then rest else Success((acc + Shifted(rest.value.0, i), rest.value.1 + i))
  }

  lemma {:induction false} JoinedLast(acc: nat, i: nat, s: seq<Byte>, left: nat)
    requires left > 0 && s != [] && s[0] < 128
    ensures Joined(acc, i, ReadGroups(s, left)) == Success((Add(acc, i, s[0]), i + 1))
  {
  }

  lemma {:induction false} JoinedMore(acc: nat, i: nat, s: seq<Byte>, left: nat)
    requires left > 0 && s != [] && s[0] >= 128
    ensures Joined(acc, i, ReadGroups(s, left)) == Joined(Add(acc, i, s[0]), i + 1, ReadGroups(s[1..], left - 1))
  {
    if ReadGroups(s[1..], left - 1).Success? {
      var v := ReadGroups(s[1..], left - 1).value.0;
      ShiftedAdds(s[0] - 128, 128 * v, i);
      ShiftedOnce(v, i);
    }
  }

  method AppendVarInt(w: seq<Byte>, v: int) returns (out: seq<Byte>)
    ensures out == w + WriteVarInt(v)
  {
    var uv := Unsigned(v);
    out := w;
    while true
      invariant uv >= 0 && out + Groups(uv) == w + WriteVarInt(v)
      decreases uv
    {
      var b := uv % 128;
      uv := uv / 128;
      if uv != 0 {
        b := b + 128;
      }
      out := out + [b];
      if uv == 0 {
        return;
      }
    }
  }

  function Low32(u: nat): nat { u % TWO32 }

  /** What a scan reports of the groups it read: the low 32 bits, how many, and whether the last one fits. */
  ghost predicate Scanned(spec: Result<(nat, nat), Fault>, res: Result<nat, Fault>, n: nat, last: Byte) {
    if spec.Failure? then res == Failure(spec.error)
    else
      && res == Success(Low32(spec.value.0)) && n == spec.value.1
      && (spec.value.0 < TWO32 <==> !(n == 5 && last > 15))
  }

  /** Reads groups into a 32-bit accumulator; the number of groups, the last one and every byte read come back with it. */
  method ScanGroups(r: Reader) returns (res: Result<nat, Fault>, n: nat, last: Byte, captured: seq<Byte>)
    requires r.Valid()
    modifies r`pos
    ensures r.Valid() && r.pos >= old(r.pos) && captured == r.data[old(r.pos)..r.pos]
    ensures Scanned(ReadGroups(old(r.Rest()), 5), res, n, last) && (res.Success? ==> r.pos == old(r.pos) + n)
  {
    var acc: nat := 0;
    n, last, captured := 0, 0, [];
    ghost var s := r.Rest();
    assert SoFar(s, acc, 0, s);
    while n < 5
      invariant r.Valid() && r.pos == old(r.pos) + n && n <= 5
      invariant SoFar(s, acc, n, r.Rest()) && captured == r.data[old(r.pos)..r.pos]
    {
      ghost var rest := r.Rest();
      ScanStep(s, acc, n, rest, last);
      var b := r.ReadByte();
      if b.None? {
        return Failure(Eof), n, last, captured;
      }
      assert b.value == rest[0] && r.Rest() == rest[1..];
      captured := captured + [b.value];
      acc := Add(acc, n, b.value);
      last := b.value % 128;
      n := n + 1;
      if b.value < 128 {
        return Success(Low32(acc)), n, last, captured;
      }
    }
    return Failure(TooLong), n, last, captured;
  }

  /** Puts a group in place above the ones already read. */
  function Add(acc: nat, i: nat, b: Byte): nat { acc + Shifted(b % 128, i) }

  ghost predicate SoFar(s: seq<Byte>, acc: nat, n: nat, rest: seq<Byte>) {
    n <= 5 && acc < Pow128(n) && ReadGroups(s, 5) == Joined(acc, n, ReadGroups(rest, 5 - n))
  }

  lemma {:induction false} ScanStep(s: seq<Byte>, acc: nat, n: nat, rest: seq<Byte>, last: Byte)
    requires n < 5 && SoFar(s, acc, n, rest)
    ensures rest == [] ==> Scanned(ReadGroups(s, 5), Failure(Eof), n, last)
    ensures rest != [] && rest[0] >= 128 ==> SoFar(s, Add(acc, n, rest[0]), n + 1, rest[1..])
    ensures rest != [] && rest[0] < 128 ==>
              Scanned(ReadGroups(s, 5), Success(Low32(Add(acc, n, rest[0]))), n + 1, rest[0] % 128)
  {
    if rest != [] {
      if rest[0] < 128 {
        JoinedLast(acc, n, rest, 5 - n);
        LastGroup(acc, n, rest[0]);
      } else {
        JoinedMore(acc, n, rest, 5 - n);
        ShiftedFits(rest[0] % 128, n);
      }
    }
  }

  lemma {:induction false} SmallPower(i: nat)
    requires i <= 4
    ensures Pow128(i) <= TWO28
    decreases 4 - i
  {
    if i < 4 {
      SmallPower(i + 1);
    } else {
      Powers();
    }
  }

  lemma {:induction false} ShiftedByFour(b: nat)
    ensures Shifted(b, 4) == TWO28 * b
  {
    assert Shifted(b, 2) == 128 * Shifted(b, 1);
    assert Shifted(b, 3) == 128 * Shifted(b, 2);
    assert Shifted(b, 4) == 128 * Shifted(b, 3);
  }

  lemma {:induction false} LastGroup(acc: nat, i: nat, b: Byte)
    requires i <= 4 && acc < Pow128(i) && b < 128
    ensures Add(acc, i, b) < TWO32 <==> !(i == 4 && b > 15)
  {
    if i < 4 {
      ShiftedFits(b, i);
      SmallPower(i + 1);
    } else {
      Powers();
      ShiftedByFour(b);
    }
  }

  method ScanVarInt(r: Reader) returns (res: Result<int, Fault>, captured: seq<Byte>)
    requires r.Valid()
    modifies r`pos
    ensures r.Valid() && r.pos >= old(r.pos) && captured == r.data[old(r.pos)..r.pos]
    ensures var spec := ReadVarInt(old(r.Rest()));
            if spec.Failure? then res == Failure(spec.error)
            else res == Success(spec.value.0) && r.pos == old(r.pos) + spec.value.1
  {
    var u, n, last, bytes := ScanGroups(r);
    if u.Failure? {
      return Failure(u.error), bytes;
    }
    if n == 5 && last > 15 {
      return Failure(OutOfRange), bytes;
    }
    return Success(Signed(u.value)), bytes;
  }

  method Scan7Bit(r: Reader) returns (res: Result<int, Fault>)
    requires r.Valid()
    modifies r`pos
    ensures r.Valid() && r.pos >= old(r.pos)
    ensures var spec := Read7Bit(old(r.Rest()));
            if spec.Failure? then res == Failure(spec.error)
            else res == Success(spec.value.0) && r.pos == old(r.pos) + spec.value.1
  {
    var u, _, _, _ := ScanGroups(r);
    if u.Failure? {
      return Failure(u.error);
    }
    return Success(Signed(u.value));
  }
}
