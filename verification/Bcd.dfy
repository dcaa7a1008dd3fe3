/** The BCD packing of an IMSI: the client's encoder and the server's decoder. Each byte carries two
    symbols, the first one in the low half; a half of 1111 is filler (section 8.3 of 3GPP TS 29.274). */
module Bcd {

  /** An unsigned byte. Its halves are taken by division: `b & 0x0F` is `b % 16`, `b >> 4` is `b / 16`. */
  type Byte = b: int | 0 <= b < 256

  const FILLER := 15

  /** The size of the server's receive buffer; a longer datagram is cut off there. */
  const BUFFER_SIZE := 16

  /** The fifteen symbols that a half byte other than the filler stands for. */
  predicate IsSymbol(c: char) {
    '0' <= c <= '>'
  }

  predicate AllSymbols(s: string) {
    forall c | c in s :: IsSymbol(c)
  }

  // The server's side.

  function Low(b: Byte): (n: nat)
    ensures n <= 15
  {
    b % 16
  }

  function High(b: Byte): (n: nat)
    ensures n <= 15
  {
    b / 16
  }

  function SymbolOf(n: nat): (c: char)
    requires n <= 15
  {
    (48 + n) as char
  }

  function HalfText(n: nat): string
    requires n <= 15
  {
    if n != FILLER then [SymbolOf(n)] else ""
  }

  function ByteText(b: Byte): string {
    HalfText(Low(b)) + HalfText(High(b))
  }

  function Decode(bytes: seq<Byte>): string {
    if bytes == [] then "" else ByteText(bytes[0]) + Decode(bytes[1..])
  }

  lemma DecodeStep(done: string, buf: seq<Byte>, i: nat)
    requires i < |buf|
    ensures done + Decode(buf[i..]) == done + HalfText(Low(buf[i])) + HalfText(High(buf[i])) + Decode(buf[i + 1..])
  {
    assert buf[i..][1..] == buf[i + 1..];
  }

  method DecodeImsi(buf: seq<Byte>) returns (imsi: string)
    ensures imsi == Decode(buf)
  {
    imsi := "";
    var i := 0;
    while i < |buf|
      invariant 0 <= i <= |buf|
      invariant imsi + Decode(buf[i..]) == Decode(buf)
    {
      DecodeStep(imsi, buf, i);
      ghost var before := imsi;
      var low, high := Low(buf[i]), High(buf[i]);
      if low != FILLER {
        imsi := imsi + [SymbolOf(low)];
      }
      assert imsi == before + HalfText(low);
      before := imsi;
      if high != FILLER {
        imsi := imsi + [SymbolOf(high)];
      }
      assert imsi == before + HalfText(high);
      i := i + 1;
    }
  }

  // The client's side.

  /** `c - '0'` as an unsigned byte. */
  function Octet(c: char): Byte {
    (c as int + 208) % 256
  }

  /** The bitwise or. */
  function Or(a: nat, b: nat): nat {
    if a == 0 then b
    else if b == 0 then a
    else 2 * Or(a / 2, b / 2) + (if a % 2 == 1 || b % 2 == 1 then 1 else 0)
  }

  function Power2(n: nat): nat {
    if n == 0 then 1 else 2 * Power2(n - 1)
  }

  lemma {:induction false} OrOfHalves(a: nat, b: nat, n: nat)
    requires a < Power2(n) && b < Power2(n)
    ensures Or(a, b) < Power2(n)
  {
    if a != 0 && b != 0 {
      OrOfHalves(a / 2, b / 2, n - 1);
    }
  }

  /** `(high << 4) | low` cut to a byte: the low half of `high` moves up, over the high half of `low`. */
  function Pack(low: Byte, high: Byte): Byte {
    OrOfHalves(high % 16, low / 16, 4);
    16 * Or(high % 16, low / 16) + low % 16
  }

  function Encode(imsi: string): seq<Byte> {
    if imsi == "" then []
    else if |imsi| == 1 then [Pack(Octet(imsi[0]), FILLER)]
    else [Pack(Octet(imsi[0]), Octet(imsi[1]))] + Encode(imsi[2..])
  }

  method ImsiToBcd(imsi: string) returns (bcd: seq<Byte>)
    ensures bcd == Encode(imsi)
  {
    bcd := [];
    var i := 0;
    while i < |imsi|
      invariant 0 <= i <= |imsi| + 1
      invariant bcd + Encode(imsi[if i < |imsi| then i else |imsi|..]) == Encode(imsi)
    {
      var low := Octet(imsi[i]);
      var high := if i + 1 < |imsi| then Octet(imsi[i + 1]) else FILLER;
      ghost var rest := imsi[i..];
      assert |rest| > 1 ==> rest[2..] == imsi[i + 2..];
      bcd := bcd + [Pack(low, high)];
      i := i + 2;
    }
  }

  /** What the server reads of a datagram. */
  function Received(datagram: seq<Byte>): (bytes: seq<Byte>)
    ensures |bytes| <= BUFFER_SIZE
  {
    if |datagram| <= BUFFER_SIZE then datagram else datagram[..BUFFER_SIZE]
  }

  // Halves.

  lemma OctetOfSymbol(c: char)
    requires IsSymbol(c)
    ensures Octet(c) < FILLER && SymbolOf(Octet(c)) == c
  {
    assert (c as int + 208) % 256 == c as int - 48;
  }

  lemma PackHalves(low: nat, high: nat)
    requires low <= 15 && high <= 15
    ensures Low(Pack(low, high)) == low && High(Pack(low, high)) == high
  {
  }

  lemma HalvesPack(b: Byte)
    ensures Pack(Low(b), High(b)) == b
  {
  }

  lemma SymbolOfHalf(n: nat)
    requires n < FILLER
    ensures IsSymbol(SymbolOf(n)) && Octet(SymbolOf(n)) == n
  {
  }

  // Encoding, then decoding.

  lemma DecodePair(low: nat, high: nat)
    requires low <= 15 && high <= 15
    ensures ByteText(Pack(low, high)) == HalfText(low) + HalfText(high)
  {
    PackHalves(low, high);
  }

  lemma {:induction false} EncodeLength(s: string)
    ensures |Encode(s)| == (|s| + 1) / 2
  {
    if |s| > 1 {
      EncodeLength(s[2..]);
    }
  }

  lemma DecodeFirstPair(c: char, d: char, rest: seq<Byte>)
    requires IsSymbol(c) && IsSymbol(d)
    ensures Decode([Pack(Octet(c), Octet(d))] + rest) == [c, d] + Decode(rest)
  {
    OctetOfSymbol(c);
    OctetOfSymbol(d);
    DecodePair(Octet(c), Octet(d));
    assert ([Pack(Octet(c), Octet(d))] + rest)[1..] == rest;
  }

  lemma DecodeLastSymbol(c: char)
    requires IsSymbol(c)
    ensures Decode([Pack(Octet(c), FILLER)]) == [c]
  {
    OctetOfSymbol(c);
    DecodePair(Octet(c), FILLER);
    assert Decode([]) == "";
  }

  lemma EncodePrefix(s: string, n: nat)
    requires |s| > 1 && 0 < n <= |Encode(s)|
    ensures Encode(s)[..n] == [Pack(Octet(s[0]), Octet(s[1]))] + Encode(s[2..])[..n - 1]
  {
  }

  function Take(s: string, n: nat): (t: string)
    ensures |t| == if |s| <= n then |s| else n
  {
    if |s| <= n then s else s[..n]
  }

  lemma TakeStep(s: string, n: nat)
    requires |s| > 1
    ensures Take(s, n + 2) == [s[0], s[1]] + Take(s[2..], n)
  {
  }

  lemma DecodePairAndPrefix(s: string, n: nat, rest: seq<Byte>)
    requires |s| > 1 && IsSymbol(s[0]) && IsSymbol(s[1]) && 0 < n
    requires Decode(rest) == Take(s[2..], 2 * n - 2)
    ensures Decode([Pack(Octet(s[0]), Octet(s[1]))] + rest) == Take(s, 2 * n)
  {
    DecodeFirstPair(s[0], s[1], rest);
    TakeStep(s, 2 * n - 2);
  }

  /** The first `n` bytes of an encoding carry its first `2 * n` symbols, and nothing else. */
  lemma {:induction false} DecodePrefixOfEncode(s: string, n: nat)
    requires AllSymbols(s) && n <= |Encode(s)|
    ensures Decode(Encode(s)[..n]) == Take(s, 2 * n)
  {
    if n == 0 || s == "" {
    } else if |s| == 1 {
      DecodeLastSymbol(s[0]);
      assert Encode(s)[..1] == [Pack(Octet(s[0]), FILLER)];
    } else {
      EncodePrefix(s, n);
      DecodePrefixOfEncode(s[2..], n - 1);
      DecodePairAndPrefix(s, n, Encode(s[2..])[..n - 1]);
    }
  }

  /** The most symbols that fit into the receive buffer. */
  const MAX_SYMBOLS := 32

  lemma DecodeReceivedEncode(s: string)
    requires AllSymbols(s)
    ensures Decode(Received(Encode(s))) == Take(s, MAX_SYMBOLS)
  {
    EncodeLength(s);
    var n := if |Encode(s)| <= BUFFER_SIZE then |Encode(s)| else BUFFER_SIZE;
    DecodePrefixOfEncode(s, n);
    assert Received(Encode(s)) == Encode(s)[..n];
  }

  lemma {:induction false} DecodeGivesSymbols(b: seq<Byte>)
    ensures AllSymbols(Decode(b)) && |Decode(b)| <= 2 * |b|
  {
    if b != [] {
      DecodeGivesSymbols(b[1..]);
      if Low(b[0]) != FILLER { SymbolOfHalf(Low(b[0])); }
      if High(b[0]) != FILLER { SymbolOfHalf(High(b[0])); }
    }
  }

  /** An IMSI arrives as it was sent exactly when it has at most 32 symbols, all from '0' to '>'. */
  lemma RoundTripExactly(s: string)
    ensures Decode(Received(Encode(s))) == s <==> AllSymbols(s) && |s| <= MAX_SYMBOLS
  {
    if AllSymbols(s) {
      DecodeReceivedEncode(s);
    }
    DecodeGivesSymbols(Received(Encode(s)));
  }

  /** A datagram is read whole up to 16 bytes, and its first 16 bytes beyond. */
  lemma ReceivedBytes(datagram: seq<Byte>)
    ensures |datagram| <= 16 ==> Received(datagram) == datagram
    ensures |datagram| > 16 ==> Received(datagram) == datagram[..16]
  {
  }

  /** So an IMSI of up to 32 symbols arrives whole, and of a longer one the first 32. */
  lemma ArrivesUpTo32(s: string)
    requires AllSymbols(s)
    ensures |s| <= 32 ==> Decode(Received(Encode(s))) == s
    ensures |s| > 32 ==> Decode(Received(Encode(s))) == s[..32]
  {
    DecodeReceivedEncode(s);
  }

  lemma EncodeTail(s: string, i: nat)
    requires |s| > 1 && 0 < i < |Encode(s)|
    ensures i - 1 < |Encode(s[2..])| && Encode(s)[i] == Encode(s[2..])[i - 1]
  {
    var first := [Pack(Octet(s[0]), Octet(s[1]))];
    assert Encode(s) == first + Encode(s[2..]) && |first| == 1;
  }

  lemma LongEnough(s: string, i: nat)
    requires i < |Encode(s)|
    ensures 2 * i < |s|
  {
    EncodeLength(s);
  }

  /** The byte that carries the symbol at `k`, and the one after it if there is one. */
  function ByteOf(s: string, k: nat): Byte
    requires k < |s|
  {
    Pack(Octet(s[k]), if k + 1 < |s| then Octet(s[k + 1]) else FILLER)
  }

  lemma {:induction false} EncodeBytes(s: string, i: nat)
    requires i < |Encode(s)|
    ensures 2 * i < |s| && Encode(s)[i] == ByteOf(s, 2 * i)
  {
    LongEnough(s, i);
    if i > 0 {
      EncodeTail(s, i);
      EncodeBytes(s[2..], i - 1);
      ByteOfTail(s, 2 * i);
    }
  }

  lemma ByteOfTail(s: string, k: nat)
    requires 2 <= k < |s|
    ensures ByteOf(s, k) == ByteOf(s[2..], k - 2)
  {
  }

  /** The layout on the wire: each byte carries one symbol in its low half and the next one in its high half, as their
      distances from '0'; the high half of the last byte is 15 if there is no next one. */
  lemma EncodeLayout(s: string, i: nat)
    requires AllSymbols(s) && i < |Encode(s)|
    ensures 2 * i < |s| && Encode(s)[i] % 16 == s[2 * i] as int - '0' as int
    ensures Encode(s)[i] / 16 == if 2 * i + 1 < |s| then s[2 * i + 1] as int - '0' as int else 15
  {
    EncodeBytes(s, i);
    ByteOfHalves(s, 2 * i);
  }

  lemma ByteOfHalves(s: string, k: nat)
    requires AllSymbols(s) && k < |s|
    ensures ByteOf(s, k) % 16 == s[k] as int - '0' as int
    ensures ByteOf(s, k) / 16 == if k + 1 < |s| then s[k + 1] as int - '0' as int else 15
  {
    var high := if k + 1 < |s| then Octet(s[k + 1]) else FILLER;
    OctetDistance(s[k]);
    if k + 1 < |s| {
      OctetDistance(s[k + 1]);
    }
    PackHalves(Octet(s[k]), high);
  }

  lemma OctetDistance(c: char)
    requires IsSymbol(c)
    ensures Octet(c) == c as int - '0' as int
  {
    OctetOfSymbol(c);
  }

  /** The server takes the low half of a byte first. */
  lemma DecodeLayout(low: nat, high: nat)
    requires low < 15 && high < 15
    ensures Decode([16 * high + low]) == ['0' + low as char, '0' + high as char]
    ensures Decode([16 * 15 + low]) == ['0' + low as char]
  {
    assert Decode([16 * high + low][1..]) == "" && Decode([16 * 15 + low][1..]) == "";
    ByteOfSymbols(16 * high + low);
    ByteOfSymbols(16 * 15 + low);
  }

  lemma DecodeEncode(s: string)
    requires AllSymbols(s)
    ensures Decode(Encode(s)) == s
  {
    EncodeLength(s);
    DecodePrefixOfEncode(s, |Encode(s)|);
    assert Encode(s)[..|Encode(s)|] == Encode(s);
  }

  /** Two IMSIs of any length are the same datagram exactly when they are the same. */
  lemma NoCollision(s: string, t: string)
    requires AllSymbols(s) && AllSymbols(t)
    ensures Encode(s) == Encode(t) <==> s == t
  {
    DecodeEncode(s);
    DecodeEncode(t);
  }

  lemma EncodeTake(s: string)
    requires AllSymbols(s)
    ensures Received(Encode(s)) == Encode(Take(s, MAX_SYMBOLS))
  {
    EncodeLength(s);
    EncodePrefixOfTake(s, BUFFER_SIZE);
  }

  lemma EncodePair(c: char, d: char, rest: string)
    ensures Encode([c, d] + rest) == [Pack(Octet(c), Octet(d))] + Encode(rest)
  {
    assert ([c, d] + rest)[2..] == rest;
  }

  lemma {:induction false} EncodePrefixOfTake(s: string, n: nat)
    ensures Encode(Take(s, 2 * n)) == if |Encode(s)| <= n then Encode(s) else Encode(s)[..n]
  {
    EncodeLength(s);
    if |s| <= 2 * n {
      assert Take(s, 2 * n) == s;
    } else if n > 0 {
      var rest := Take(s[2..], 2 * n - 2);
      assert Encode(Take(s, 2 * n)) == [Pack(Octet(s[0]), Octet(s[1]))] + Encode(rest) by {
        TakeStep(s, 2 * n - 2);
        EncodePair(s[0], s[1], rest);
      }
      EncodePrefixOfTake(s[2..], n - 1);
      EncodeLength(s[2..]);
      assert n - 1 < |Encode(s[2..])| && Encode(rest) == Encode(s[2..])[..n - 1];
      EncodePrefix(s, n);
    }
  }

  /** The server receives the same of two IMSIs exactly when their first 32 symbols are the same. */
  lemma ReceivedCollidesExactly(s: string, t: string)
    requires AllSymbols(s) && AllSymbols(t)
    ensures Received(Encode(s)) == Received(Encode(t)) <==> Take(s, MAX_SYMBOLS) == Take(t, MAX_SYMBOLS)
  {
    DecodeReceivedEncode(s);
    DecodeReceivedEncode(t);
    EncodeTake(s);
    EncodeTake(t);
  }

  // Decoding, then encoding.

  /** Filler occurs nowhere but in the high half of the last byte. */
  predicate Canonical(b: seq<Byte>) {
    forall i | 0 <= i < |b| :: Low(b[i]) != FILLER && (High(b[i]) == FILLER ==> i == |b| - 1)
  }

  lemma EncodeFirstPair(low: nat, high: nat, rest: string)
    requires low < FILLER && high < FILLER
    ensures Encode([SymbolOf(low), SymbolOf(high)] + rest) == [Pack(low, high)] + Encode(rest)
  {
    SymbolOfHalf(low);
    SymbolOfHalf(high);
    assert ([SymbolOf(low), SymbolOf(high)] + rest)[2..] == rest;
  }

  lemma EncodeLastSymbol(low: nat)
    requires low < FILLER
    ensures Encode([SymbolOf(low)]) == [Pack(low, FILLER)]
  {
    SymbolOfHalf(low);
  }

  lemma CanonicalTail(b: seq<Byte>)
    requires Canonical(b) && b != []
    ensures Low(b[0]) < FILLER && (High(b[0]) == FILLER ==> b == [b[0]]) && Canonical(b[1..])
  {
    assert forall i | 0 <= i < |b| - 1 :: b[1..][i] == b[i + 1];
  }

  lemma ByteOfSymbols(b: Byte)
    requires Low(b) != FILLER
    ensures ByteText(b) == if High(b) == FILLER then [SymbolOf(Low(b))] else [SymbolOf(Low(b)), SymbolOf(High(b))]
  {
  }

  lemma CanonicalHead(b: seq<Byte>)
    requires Canonical(b) && b != []
    ensures Low(b[0]) < FILLER
    ensures High(b[0]) == FILLER ==> b == [b[0]] && Decode(b) == [SymbolOf(Low(b[0]))]
    ensures High(b[0]) != FILLER ==> Canonical(b[1..])
    ensures High(b[0]) != FILLER ==> Decode(b) == [SymbolOf(Low(b[0])), SymbolOf(High(b[0]))] + Decode(b[1..])
  {
    CanonicalTail(b);
    ByteOfSymbols(b[0]);
    assert Decode(b) == ByteText(b[0]) + Decode(b[1..]);
    if High(b[0]) == FILLER {
      assert b[1..] == [];
    }
  }

  lemma {:induction false} EncodeOfDecodeCanonical(b: seq<Byte>)
    requires Canonical(b)
    ensures Encode(Decode(b)) == b
  {
    if b != [] {
      var low, high := Low(b[0]), High(b[0]);
      CanonicalHead(b);
      HalvesPack(b[0]);
      if high == FILLER {
        EncodeLastSymbol(low);
      } else {
        EncodeOfDecodeCanonical(b[1..]);
        EncodeFirstPair(low, high, Decode(b[1..]));
      }
    }
  }

  lemma {:induction false} EncodeIsCanonical(s: string)
    requires AllSymbols(s)
    ensures Canonical(Encode(s))
  {
    if |s| == 1 {
      OctetOfSymbol(s[0]);
      PackHalves(Octet(s[0]), FILLER);
    } else if |s| > 1 {
      OctetOfSymbol(s[0]);
      OctetOfSymbol(s[1]);
      PackHalves(Octet(s[0]), Octet(s[1]));
      EncodeIsCanonical(s[2..]);
    }
  }

  /** A datagram is the client's encoding of what the server reads in it exactly when it is canonical. */
  lemma ReverseRoundTripExactly(b: seq<Byte>)
    ensures Encode(Decode(b)) == b <==> Canonical(b)
  {
    if Canonical(b) {
      EncodeOfDecodeCanonical(b);
    }
    DecodeGivesSymbols(b);
    EncodeIsCanonical(Decode(b));
  }

  /** Decoding finds a canonical form: encoding it again loses nothing. */
  lemma DecodeIsIdempotent(b: seq<Byte>)
    ensures Decode(Encode(Decode(b))) == Decode(b)
  {
    DecodeGivesSymbols(b);
    EncodeLength(Decode(b));
    DecodePrefixOfEncode(Decode(b), |Encode(Decode(b))|);
    assert Encode(Decode(b))[..|Encode(Decode(b))|] == Encode(Decode(b));
  }
}
