/** The base-128 varint and the length-delimited record of the Protocol Buffers Encoding guide,
    sections "Base 128 Varints" and "Length-Delimited Records", and UTF-8 validity. */
module Wire {

  type Byte = b: int | 0 <= b < 256
  type Bytes = seq<Byte>

  const POW31 := 0x8000_0000
  const POW32 := 0x1_0000_0000
  const POW63 := 0x8000_0000_0000_0000
  const POW64 := 0x1_0000_0000_0000_0000

  /** Longest accepted varint, and longest accepted tag, in bytes. */
  const VARINT_LIMIT := 10
  const TAG_LIMIT := 5

  datatype Read<T> = Bad | Got(value: T, used: nat)

  // ---- varints ------------------------------------------------------------------------------

  function Varint(n: nat): Bytes
  {
    if n < 128 then [n] else [n % 128 + 128] + Varint(n / 128)
  }

  /** Reads a varint of at most `limit` bytes from the front of `s`. */
  function ReadVarint(s: Bytes, limit: nat): (r: Read<nat>)
    ensures r.Got? ==> 0 < r.used <= |s|
  {
    if limit == 0 || s == [] then Bad
    else if s[0] < 128 then Got(s[0], 1)
    else match ReadVarint(s[1..], limit - 1)
      case Bad => Bad
      case Got(v, used) => Got(s[0] - 128 + 128 * v, used + 1)
  }

  /** What seven-bit groups, least significant first, stand for. */
  function Groups(s: Bytes): nat
  {
    if s == [] then 0 else s[0] % 128 + 128 * Groups(s[1..])
  }

  /** Every byte but the last says that another follows. */
  ghost predicate Continued(s: Bytes)
  {
    && s != [] && s[|s| - 1] < 128
    && forall i | 0 <= i < |s| - 1 :: s[i] >= 128
  }

  /** A varint is the shortest run of groups for its number. */
  lemma {:induction false} VarintMeans(n: nat)
    ensures Continued(Varint(n)) && Groups(Varint(n)) == n
    ensures |Varint(n)| > 1 ==> Varint(n)[|Varint(n)| - 1] != 0
  {
    if n >= 128 {
      VarintMeans(n / 128);
      assert Varint(n)[1..] == Varint(n / 128);
    } else {
      assert Varint(n)[1..] == [];
    }
  }

  /** Reading takes the first run of groups, shortest form or not, and fails when there is none within the
      limit. */
  lemma {:induction false} ReadVarintMeans(s: Bytes, limit: nat)
    ensures var r := ReadVarint(s, limit);
      && (r.Got? ==> r.used <= limit && Continued(s[..r.used]) && r.value == Groups(s[..r.used]))
      && (r.Bad? ==> forall i | 0 <= i < |s| && i < limit :: s[i] >= 128)
  {
    if limit > 0 && s != [] {
      if s[0] < 128 {
        assert s[..1] == [s[0]] && [s[0]][1..] == [];
      } else {
        ReadVarintMeans(s[1..], limit - 1);
        var r := ReadVarint(s, limit);
        if r.Got? {
          FrontGroup(s, r.used);
        } else {
          forall i | 0 <= i < |s| && i < limit ensures s[i] >= 128 {
            assert i > 0 ==> s[i] == s[1..][i - 1];
          }
        }
      }
    }
  }

  lemma FrontGroup(s: Bytes, used: nat)
    requires 1 < used <= |s| && s[0] >= 128 && Continued(s[1..][..used - 1])
    ensures Continued(s[..used]) && Groups(s[..used]) == s[0] - 128 + 128 * Groups(s[1..][..used - 1])
  {
    var front, rest := s[..used], s[1..][..used - 1];
    assert front[1..] == rest;
    forall i | 0 <= i < |front| - 1 ensures front[i] >= 128 {
      assert i > 0 ==> front[i] == rest[i - 1];
    }
    assert front[|front| - 1] == rest[|rest| - 1];
  }

  function Pow128(k: nat): nat
  {
    if k == 0 then 1 else 128 * Pow128(k - 1)
  }

  /** Reading back what was written gives the number and stops right after it. */
  lemma {:induction false} VarintRoundTrip(n: nat, rest: Bytes, limit: nat)
    requires limit > 0 && n < Pow128(limit)
    ensures ReadVarint(Varint(n) + rest, limit) == Got(n, |Varint(n)|)
  {
    if n >= 128 {
      assert (Varint(n) + rest)[1..] == Varint(n / 128) + rest;
      VarintRoundTrip(n / 128, rest, limit - 1);
    }
  }

  lemma VarintRoundTrip64(n: nat, rest: Bytes)
    requires n < POW64
    ensures ReadVarint(Varint(n) + rest, VARINT_LIMIT) == Got(n, |Varint(n)|)
  {
    assert Pow128(5) == 0x8_0000_0000;
    assert Pow128(10) == 0x40_0000_0000_0000_0000;
    VarintRoundTrip(n, rest, VARINT_LIMIT);
  }

  /** A varint cut short never reads as a number. */
  lemma {:induction false} VarintCut(n: nat, k: nat, limit: nat)
    requires k < |Varint(n)|
    ensures ReadVarint(Varint(n)[..k], limit) == Bad
  {
    if n >= 128 && k > 0 && limit > 0 {
      assert Varint(n)[..k][1..] == Varint(n / 128)[..k - 1];
      VarintCut(n / 128, k - 1, limit - 1);
    }
  }

  lemma {:induction false} VarintLength(n: nat, limit: nat)
    requires limit > 0 && n < Pow128(limit)
    ensures 1 <= |Varint(n)| <= limit
  {
    if n >= 128 {
      VarintLength(n / 128, limit - 1);
    }
  }

  lemma {:induction false} VarintNoZero(n: nat)
    requires n > 0
    ensures 0 !in Varint(n)
  {
    if n >= 128 {
      VarintNoZero(n / 128);
    }
  }

  // ---- length-delimited payloads --------------------------------------------------------------

  function Delimited(payload: Bytes): Bytes
  {
    Varint(|payload|) + payload
  }

  /** Reads a length and then that many bytes. */
  function ReadDelimited(s: Bytes): (r: Read<Bytes>)
    ensures r.Got? ==> |r.value| < r.used <= |s|
  {
    match ReadVarint(s, VARINT_LIMIT)
    case Bad => Bad
    case Got(v, used) =>
      var length := v % POW64;
      if used + length > |s| then Bad else Got(s[used..used + length], used + length)
  }

  lemma DelimitedRoundTrip(payload: Bytes, rest: Bytes)
    requires |payload| < POW64
    ensures ReadDelimited(Delimited(payload) + rest) == Got(payload, |Delimited(payload)|)
  {
    var head := Varint(|payload|);
    assert Delimited(payload) + rest == head + (payload + rest);
    VarintRoundTrip64(|payload|, payload + rest);
    assert (Delimited(payload) + rest)[|head|..|head| + |payload|] == payload;
  }

  lemma DelimitedCut(payload: Bytes, k: nat)
    requires |payload| < POW64 && k < |Delimited(payload)|
    ensures ReadDelimited(Delimited(payload)[..k]) == Bad
  {
    var head := Varint(|payload|);
    if k < |head| {
      assert Delimited(payload)[..k] == head[..k];
      VarintCut(|payload|, k, VARINT_LIMIT);
    } else {
      assert Delimited(payload)[..k] == head + payload[..k - |head|];
      VarintRoundTrip64(|payload|, payload[..k - |head|]);
    }
  }

  /** The length prefix of a non-empty payload has no zero byte; that of an empty one is a zero byte. */
  lemma DelimitedNoZero(payload: Bytes)
    ensures 0 !in Delimited(payload) <==> payload != [] && 0 !in payload
  {
    if payload != [] {
      VarintNoZero(|payload|);
    } else {
      assert Delimited(payload)[0] == 0;
    }
  }

  // ---- integers on the wire ---------------------------------------------------------------------

  /** Negative numbers are written as 64-bit two's complement, whatever their declared width. */
  function ToWire(n: int): nat
    requires -POW63 <= n < POW63
  {
    if n < 0 then n + POW64 else n
  }

  function AsInt64(u: nat): int
    requires u < POW64
  {
    if u >= POW63 then u - POW64 else u
  }

  /** int32 and open enum fields keep the low 32 bits. */
  function AsInt32(u: nat): int
  {
    var low := u % POW32;
    if low >= POW31 then low - POW32 else low
  }

  /** A signed number and its wire form agree modulo 2^64, and a 32-bit reading agrees modulo 2^32. */
  lemma TwosComplement(n: int, u: nat)
    requires -POW63 <= n < POW63 && u < POW64
    ensures 0 <= ToWire(n) < POW64 && (ToWire(n) - n) % POW64 == 0
    ensures -POW63 <= AsInt64(u) < POW63 && (u - AsInt64(u)) % POW64 == 0
    ensures -POW31 <= AsInt32(u) < POW31 && (u - AsInt32(u)) % POW32 == 0
  {}

  /** A negative number takes ten bytes. */
  lemma NegativeIsLong(n: int)
    requires -POW63 <= n < 0
    ensures |Varint(ToWire(n))| == 10
  {
    assert Pow128(5) == 0x8_0000_0000;
    assert Pow128(9) == 0x8000_0000_0000_0000;
    assert Pow128(10) == 0x40_0000_0000_0000_0000;
    VarintAtLeast(ToWire(n), 9);
    VarintLength(ToWire(n), 10);
  }

  lemma {:induction false} VarintAtLeast(n: nat, k: nat)
    requires n >= Pow128(k)
    ensures |Varint(n)| > k
  {
    if k > 0 {
      AtLeastOne(k - 1);
      VarintAtLeast(n / 128, k - 1);
    }
  }

  lemma {:induction false} AtLeastOne(k: nat)
    ensures Pow128(k) >= 1
  {
    if k > 0 {
      AtLeastOne(k - 1);
    }
  }

  lemma Int64RoundTrip(n: int)
    requires -POW63 <= n < POW63
    ensures ToWire(n) < POW64 && AsInt64(ToWire(n)) == n
  {}

  lemma Int32RoundTrip(n: int)
    requires -POW31 <= n < POW31
    ensures ToWire(n) < POW64 && AsInt32(ToWire(n)) == n
  {}

  // ---- UTF-8 --------------------------------------------------------------------------------

  predicate Continuation(b: Byte) { 0x80 <= b < 0xC0 }

  /** Well-formed UTF-8 byte sequences: table 3-7 of the Unicode Standard. */
  predicate ValidUtf8(s: Bytes)
  {
    if s == [] then true
    else if s[0] < 0x80 then ValidUtf8(s[1..])
    else if 0xC2 <= s[0] < 0xE0 then
      |s| >= 2 && Continuation(s[1]) && ValidUtf8(s[2..])
    else if 0xE0 <= s[0] < 0xF0 then
      && |s| >= 3 && Continuation(s[1]) && Continuation(s[2])
      && (s[0] == 0xE0 ==> s[1] >= 0xA0) && (s[0] == 0xED ==> s[1] < 0xA0)
      && ValidUtf8(s[3..])
    else
      && 0xF0 <= s[0] <= 0xF4
      && |s| >= 4 && Continuation(s[1]) && Continuation(s[2]) && Continuation(s[3])
      && (s[0] == 0xF0 ==> s[1] >= 0x90) && (s[0] == 0xF4 ==> s[1] < 0x90)
      && ValidUtf8(s[4..])
  }
}
