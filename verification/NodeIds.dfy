/** OPC UA NodeIds and the text form that the panel stores beside every object,
    variable and alarm. All texts are sequences of bytes, written as characters. */
module NodeIds {
  import opened CStrings

  type Byte = n: int | 0 <= n < 0x100
  type UInt16 = n: int | 0 <= n < 0x1_0000
  type UInt32 = n: int | 0 <= n < 0x1_0000_0000
  type GuidTail = s: seq<Byte> | |s| == 8 witness [0, 0, 0, 0, 0, 0, 0, 0]

  datatype Identifier =
    | Numeric(value: UInt32)
    | Text(text: string)
    | Guid(data1: UInt32, data2: UInt16, data3: UInt16, data4: GuidTail)
    | Opaque(bytes: seq<Byte>)

  datatype NodeId = NodeId(namespaceIndex: UInt16, identifier: Identifier)

  const NODE_ID_LENGTH := 128

  // ----- numbers in text -----

  function HexDigit(n: nat): char
    requires n < 16
  {
    "0123456789abcdef"[n]
  }

  function Decimal(n: nat): string {
    if n < 10 then [HexDigit(n)] else Decimal(n / 10) + [HexDigit(n % 10)]
  }

  function DigitValue(c: char): nat {
    if '0' <= c <= '9' then (c - '0') as nat else 0
  }

  function DecimalValue(s: string): nat {
    if s == "" then 0 else 10 * DecimalValue(s[..|s| - 1]) + DigitValue(s[|s| - 1])
  }

  lemma {:induction false} DecimalRoundTrip(n: nat)
    ensures DecimalValue(Decimal(n)) == n
    ensures forall c | c in Decimal(n) :: '0' <= c <= '9'
    ensures Decimal(n) != ""
  {
    if n >= 10 {
      DecimalRoundTrip(n / 10);
      assert Decimal(n)[..|Decimal(n)| - 1] == Decimal(n / 10);
    }
  }

  /** `width` lower-case hexadecimal digits, most significant first. */
  function Hex(n: nat, width: nat): string {
    if width == 0 then "" else Hex(n / 16, width - 1) + [HexDigit(n % 16)]
  }

  function Pow16(width: nat): nat {
    if width == 0 then 1 else 16 * Pow16(width - 1)
  }

  lemma HexInjective(m: nat, n: nat, width: nat)
    requires m < Pow16(width) && n < Pow16(width)
    ensures |Hex(m, width)| == width == |Hex(n, width)|
    ensures Hex(m, width) == Hex(n, width) ==> m == n
  {
    HexIsHex(m, width);
    HexIsHex(n, width);
  }

  function HexBytes(bytes: seq<Byte>): string {
    if bytes == [] then "" else Hex(bytes[0], 2) + HexBytes(bytes[1..])
  }

  lemma {:induction false} HexBytesInjective(a: seq<Byte>, b: seq<Byte>)
    ensures |HexBytes(a)| == 2 * |a|
    ensures |HexBytes(b)| == 2 * |b|
    ensures HexBytes(a) == HexBytes(b) ==> a == b
  {
    HexBytesLength(a);
    HexBytesLength(b);
    if a != [] && b != [] && HexBytes(a) == HexBytes(b) {
      HexInjective(a[0], b[0], 2);
      assert HexBytes(a)[..2] == Hex(a[0], 2) && HexBytes(a)[2..] == HexBytes(a[1..]);
      assert HexBytes(b)[..2] == Hex(b[0], 2) && HexBytes(b)[2..] == HexBytes(b[1..]);
      HexBytesInjective(a[1..], b[1..]);
      assert a == [a[0]] + a[1..] && b == [b[0]] + b[1..];
    }
  }

  lemma {:induction false} HexBytesLength(a: seq<Byte>)
    ensures |HexBytes(a)| == 2 * |a|
  {
    if a != [] {
      HexLength(a[0], 2);
      HexBytesLength(a[1..]);
    }
  }

  lemma {:induction false} HexBytesAppend(a: seq<Byte>, b: seq<Byte>)
    ensures HexBytes(a + b) == HexBytes(a) + HexBytes(b)
  {
    if a == [] {
      assert a + b == b;
    } else {
      HexBytesAppend(a[1..], b);
      var first, middle, last := Hex(a[0], 2), HexBytes(a[1..]), HexBytes(b);
      assert (a + b)[1..] == a[1..] + b && (a + b)[0] == a[0];
      assert HexBytes(a + b) == first + (middle + last);
      assert first + (middle + last) == first + middle + last;
    }
  }

  // ----- the text form -----

  function GuidText(g: Identifier): string
    requires g.Guid?
  {
    Hex(g.data1, 8) + "-" + Hex(g.data2, 4) + "-" + Hex(g.data3, 4) + "-" +
    HexBytes(g.data4[..2]) + "-" + HexBytes(g.data4[2..])
  }

  function KindLetter(id: Identifier): char {
    match id
    case Numeric(_) => 'i'
    case Text(_) => 's'
    case Guid(_, _, _, _) => 'g'
    case Opaque(_) => 'b'
  }

  function Payload(id: Identifier): string {
    match id
    case Numeric(value) => Decimal(value)
    case Text(text) => text
    case Guid(_, _, _, _) => GuidText(id)
    case Opaque(bytes) => HexBytes(bytes)
  }

  function Prefix(id: NodeId): string {
    "ns=" + Decimal(id.namespaceIndex) + ";" + [KindLetter(id.identifier)] + "="
  }

  /** The text of a NodeId with no buffer to fit in. */
  function FullText(id: NodeId): string {
    Prefix(id) + Payload(id.identifier)
  }

  // ----- what the text says -----

  /** A number in decimal, without leading zeros. */
  predicate IsDecimal(s: string, n: nat) {
    s != "" && (forall c | c in s :: '0' <= c <= '9') && DecimalValue(s) == n && (|s| > 1 ==> s[0] != '0')
  }

  function HexDigitValue(c: char): nat {
    if '0' <= c <= '9' then (c - '0') as nat else if 'a' <= c <= 'f' then (c - 'a') as nat + 10 else 0
  }

  function HexNumber(s: string): nat {
    if s == "" then 0 else 16 * HexNumber(s[..|s| - 1]) + HexDigitValue(s[|s| - 1])
  }

  /** A number in lower-case hexadecimal digits. */
  predicate IsHex(s: string, n: nat) {
    (forall c | c in s :: '0' <= c <= '9' || 'a' <= c <= 'f') && HexNumber(s) == n
  }

  predicate AreHexBytes(s: string, bytes: seq<Byte>) {
    |s| == 2 * |bytes| && forall i: nat | i < |bytes| :: IsHex(s[2 * i..2 * i + 2], bytes[i])
  }

  /** Eight, four and four digits for the three numbers, then the eight bytes, two and six. */
  predicate IsGuid(s: string, g: Identifier)
    requires g.Guid?
  {
    && |s| == 36 && s[8] == s[13] == s[18] == s[23] == '-'
    && IsHex(s[..8], g.data1) && IsHex(s[9..13], g.data2) && IsHex(s[14..18], g.data3)
    && AreHexBytes(s[19..23], g.data4[..2]) && AreHexBytes(s[24..], g.data4[2..])
  }

  /** Namespace number, a letter for the kind of identifier, and the identifier. */
  predicate HasParts(s: string, id: NodeId, number: string, payload: string) {
    IsDecimal(number, id.namespaceIndex) &&
    match id.identifier
    case Numeric(value) => s == "ns=" + number + ";i=" + payload && IsDecimal(payload, value)
    case Text(text) => s == "ns=" + number + ";s=" + payload && payload == text
    case Guid(_, _, _, _) => s == "ns=" + number + ";g=" + payload && IsGuid(payload, id.identifier)
    case Opaque(bytes) => s == "ns=" + number + ";b=" + payload && AreHexBytes(payload, bytes)
  }

  ghost predicate IsTextOf(s: string, id: NodeId) {
    exists number, payload :: HasParts(s, id, number, payload)
  }

  lemma {:induction false} DecimalIsDecimal(n: nat)
    ensures IsDecimal(Decimal(n), n)
    ensures n > 0 ==> Decimal(n)[0] != '0'
  {
    DecimalRoundTrip(n);
    if n >= 10 {
      DecimalIsDecimal(n / 10);
    }
  }

  lemma {:induction false} HexIsHex(n: nat, width: nat)
    requires n < Pow16(width)
    ensures |Hex(n, width)| == width && IsHex(Hex(n, width), n)
  {
    if width > 0 {
      var upper, last := Hex(n / 16, width - 1), HexDigit(n % 16);
      HexIsHex(n / 16, width - 1);
      LastHexDigit(upper, last, n / 16, n % 16);
      assert n == 16 * (n / 16) + n % 16;
    }
  }

  lemma LastHexDigit(upper: string, last: char, high: nat, low: nat)
    requires IsHex(upper, high) && low < 16 && last == HexDigit(low)
    ensures IsHex(upper + [last], 16 * high + low)
  {
    assert (upper + [last])[..|upper|] == upper;
  }

  lemma {:induction false} HexBytesAreHex(bytes: seq<Byte>)
    ensures AreHexBytes(HexBytes(bytes), bytes)
  {
    HexBytesLength(bytes);
    if bytes != [] {
      HexIsHex(bytes[0], 2);
      HexBytesAreHex(bytes[1..]);
      var first, rest, all := Hex(bytes[0], 2), HexBytes(bytes[1..]), HexBytes(bytes);
      forall i: nat | i < |bytes|
        ensures IsHex(all[2 * i..2 * i + 2], bytes[i])
      {
        if i == 0 {
          assert all[0..2] == first;
        } else {
          assert all[2 * i..2 * i + 2] == rest[2 * (i - 1)..2 * (i - 1) + 2];
        }
      }
    }
  }

  lemma GuidTextIsGuid(g: Identifier)
    requires g.Guid?
    ensures IsGuid(GuidText(g), g)
  {
    GuidTextParts(g);
    assert Pow16(4) == 0x1_0000;
    assert Pow16(8) == 0x1_0000_0000 by { assert Pow16(8) == 16 * (16 * (16 * (16 * Pow16(4)))); }
    HexIsHex(g.data1, 8);
    HexIsHex(g.data2, 4);
    HexIsHex(g.data3, 4);
    HexBytesAreHex(g.data4[..2]);
    HexBytesAreHex(g.data4[2..]);
  }

  /** The letter is i, s, g or b, and the payload the identifier. */
  lemma PayloadIsText(id: Identifier)
    ensures id.Numeric? ==> KindLetter(id) == 'i' && IsDecimal(Payload(id), id.value)
    ensures id.Text? ==> KindLetter(id) == 's' && Payload(id) == id.text
    ensures id.Guid? ==> KindLetter(id) == 'g' && IsGuid(Payload(id), id)
    ensures id.Opaque? ==> KindLetter(id) == 'b' && AreHexBytes(Payload(id), id.bytes)
  {
    match id {
      case Numeric(value) => DecimalIsDecimal(value);
      case Text(_) =>
      case Guid(_, _, _, _) => GuidTextIsGuid(id);
      case Opaque(bytes) => HexBytesAreHex(bytes);
    }
  }

  lemma JoinParts(number: string, letter: char, payload: string)
    ensures "ns=" + number + ";" + [letter] + "=" + payload == "ns=" + number + [';', letter, '='] + payload
  {
    assert ";" + [letter] + "=" == [';', letter, '='];
    assert "ns=" + number + ";" + [letter] + "=" == "ns=" + number + (";" + [letter] + "=");
  }

  /** The full text is the text that the standard asks for. */
  lemma FullTextIsTextOf(id: NodeId)
    ensures IsTextOf(FullText(id), id)
  {
    var number, payload := Decimal(id.namespaceIndex), Payload(id.identifier);
    DecimalIsDecimal(id.namespaceIndex);
    PayloadIsText(id.identifier);
    JoinParts(number, KindLetter(id.identifier), payload);
    assert HasParts(FullText(id), id, number, payload);
  }

  lemma SplitAtSeparator(a: string, b: string, x: string, y: string, separator: char)
    requires separator !in a && separator !in b
    requires a + [separator] + x == b + [separator] + y
    ensures a == b && x == y
  {
    var s := a + [separator] + x;
    assert s[|a|] == separator == s[|b|];
    assert forall i | 0 <= i < |a| :: s[i] == a[i];
    assert forall i | 0 <= i < |b| :: s[i] == b[i];
    assert a == s[..|a|] && b == s[..|b|];
    assert x == s[|a| + 1..] && y == s[|b| + 1..];
  }

  lemma TextParts(numberA: string, numberB: string, kindA: char, kindB: char, payloadA: string, payloadB: string)
    requires ';' !in numberA && ';' !in numberB
    requires "ns=" + numberA + ";" + [kindA] + "=" + payloadA == "ns=" + numberB + ";" + [kindB] + "=" + payloadB
    ensures numberA == numberB && kindA == kindB && payloadA == payloadB
  {
    var restA, restB := [kindA] + "=" + payloadA, [kindB] + "=" + payloadB;
    assert ("ns=" + numberA + ";" + [kindA] + "=" + payloadA)[3..] == numberA + [';'] + restA;
    assert ("ns=" + numberB + ";" + [kindB] + "=" + payloadB)[3..] == numberB + [';'] + restB;
    SplitAtSeparator(numberA, numberB, restA, restB, ';');
    assert restA[0] == kindA && restB[0] == kindB;
    assert restA[2..] == payloadA && restB[2..] == payloadB;
  }

  /** Two different NodeIds never have the same full text, whatever their kinds. */
  lemma FullTextInjective(a: NodeId, b: NodeId)
    requires FullText(a) == FullText(b)
    ensures a == b
  {
    DecimalRoundTrip(a.namespaceIndex);
    DecimalRoundTrip(b.namespaceIndex);
    TextParts(Decimal(a.namespaceIndex), Decimal(b.namespaceIndex), KindLetter(a.identifier), KindLetter(b.identifier),
              Payload(a.identifier), Payload(b.identifier));
    PayloadInjective(a.identifier, b.identifier);
  }

  lemma PayloadInjective(a: Identifier, b: Identifier)
    requires KindLetter(a) == KindLetter(b) && Payload(a) == Payload(b)
    ensures a == b
  {
    match a {
      case Numeric(value) =>
        DecimalRoundTrip(a.value);
        DecimalRoundTrip(b.value);
      case Text(text) =>
      case Guid(_, _, _, _) => GuidTextInjective(a, b);
      case Opaque(bytes) => HexBytesInjective(a.bytes, b.bytes);
    }
  }

  lemma FiveParts(a: string, b: string, c: string, d: string, e: string, t: string)
    requires |a| == 8 && |b| == 4 && |c| == 4 && |d| == 4 && t == a + "-" + b + "-" + c + "-" + d + "-" + e
    ensures |t| == 24 + |e|
    ensures t[8] == t[13] == t[18] == t[23] == '-'
    ensures t[..8] == a && t[9..13] == b && t[14..18] == c && t[19..23] == d && t[24..] == e
  {
  }

  lemma GuidTextParts(g: Identifier)
    requires g.Guid?
    ensures var t := GuidText(g);
            |t| == 36 && t[8] == t[13] == t[18] == t[23] == '-' &&
            t[..8] == Hex(g.data1, 8) && t[9..13] == Hex(g.data2, 4) && t[14..18] == Hex(g.data3, 4) &&
            t[19..23] == HexBytes(g.data4[..2]) && t[24..] == HexBytes(g.data4[2..])
  {
    HexLength(g.data1, 8);
    HexLength(g.data2, 4);
    HexLength(g.data3, 4);
    HexBytesLength(g.data4[..2]);
    HexBytesLength(g.data4[2..]);
    FiveParts(Hex(g.data1, 8), Hex(g.data2, 4), Hex(g.data3, 4), HexBytes(g.data4[..2]), HexBytes(g.data4[2..]),
              GuidText(g));
  }

  lemma {:induction false} HexLength(n: nat, width: nat)
    ensures |Hex(n, width)| == width
  {
    if width > 0 {
      HexLength(n / 16, width - 1);
    }
  }

  lemma GuidTextInjective(a: Identifier, b: Identifier)
    requires a.Guid? && b.Guid?
    requires GuidText(a) == GuidText(b)
    ensures a == b
  {
    GuidTextParts(a);
    GuidTextParts(b);
    assert Pow16(4) == 0x1_0000;
    assert Pow16(8) == 0x1_0000_0000 by { assert Pow16(8) == 16 * (16 * (16 * (16 * Pow16(4)))); }
    HexInjective(a.data1, b.data1, 8);
    HexInjective(a.data2, b.data2, 4);
    HexInjective(a.data3, b.data3, 4);
    HexBytesInjective(a.data4[..2], b.data4[..2]);
    HexBytesInjective(a.data4[2..], b.data4[2..]);
    assert a.data4 == a.data4[..2] + a.data4[2..] && b.data4 == b.data4[..2] + b.data4[2..];
  }

  // ----- the bounded rendering -----

  /** How many bytes of a ByteString identifier are printed from `offset` on: pairs are never split. */
  function PairsThatFit(length: nat, offset: nat): nat {
    var room := if offset + 2 < NODE_ID_LENGTH then (NODE_ID_LENGTH - 1 - offset) / 2 else 0;
    if length < room then length else room
  }

  /** The text that ends up in a NODE_ID_LENGTH-byte buffer. */
  function Rendered(id: NodeId): string {
    match id.identifier
    case Text(text) => Clip(Prefix(id) + CString(Clip(text, NODE_ID_LENGTH)), NODE_ID_LENGTH)
    case Opaque(bytes) => Prefix(id) + HexBytes(bytes[..PairsThatFit(|bytes|, |Prefix(id)|)])
    case _ => Clip(FullText(id), NODE_ID_LENGTH)
  }

  /** A NodeId whose full text fits in the buffer and ends where C thinks it ends. */
  predicate FitsBuffer(id: NodeId) {
    |FullText(id)| < NODE_ID_LENGTH && NUL !in FullText(id)
  }

  function Pow10(k: nat): nat {
    if k == 0 then 1 else 10 * Pow10(k - 1)
  }

  lemma {:induction false} DecimalLength(n: nat, k: nat)
    requires k > 0 && n < Pow10(k)
    ensures |Decimal(n)| <= k
  {
    if n >= 10 {
      DecimalLength(n / 10, k - 1);
    }
  }

  lemma PrefixShape(id: NodeId)
    ensures 7 <= |Prefix(id)| <= 11 && NUL !in Prefix(id)
  {
    assert Pow10(5) == 100_000;
    DecimalLength(id.namespaceIndex, 5);
    DecimalRoundTrip(id.namespaceIndex);
  }

  lemma {:induction false} HexHasNoNul(n: nat, width: nat)
    ensures NUL !in Hex(n, width)
  {
    if width > 0 {
      HexHasNoNul(n / 16, width - 1);
    }
  }

  lemma {:induction false} HexBytesHasNoNul(bytes: seq<Byte>)
    ensures NUL !in HexBytes(bytes)
  {
    if bytes != [] {
      HexHasNoNul(bytes[0], 2);
      HexBytesHasNoNul(bytes[1..]);
    }
  }

  lemma ShortPayload(id: Identifier)
    requires id.Numeric? || id.Guid?
    ensures |Payload(id)| <= 36 && NUL !in Payload(id)
  {
    if id.Numeric? {
      assert Pow10(5) == 100_000;
      assert Pow10(10) == 10_000_000_000 by { assert Pow10(10) == 10 * (10 * (10 * (10 * (10 * Pow10(5))))); }
      DecimalLength(id.value, 10);
      DecimalRoundTrip(id.value);
    } else {
      GuidTextParts(id);
      HexHasNoNul(id.data1, 8);
      HexHasNoNul(id.data2, 4);
      HexHasNoNul(id.data3, 4);
      HexBytesHasNoNul(id.data4[..2]);
      HexBytesHasNoNul(id.data4[2..]);
    }
  }

  /** The stored text is the full text exactly for the NodeIds that fit. */
  lemma RenderedIsFullText(id: NodeId)
    ensures Rendered(id) == FullText(id) <==> FitsBuffer(id)
  {
    PrefixShape(id);
    match id.identifier {
      case Text(text) =>
        CStringIdentity(Clip(text, NODE_ID_LENGTH));
        if |FullText(id)| < NODE_ID_LENGTH && NUL in text {
          assert |Rendered(id)| < |FullText(id)|;
        }
      case Opaque(bytes) =>
        HexBytesHasNoNul(bytes);
        HexBytesLength(bytes);
        HexBytesLength(bytes[..PairsThatFit(|bytes|, |Prefix(id)|)]);
        assert bytes[..|bytes|] == bytes;
      case _ => ShortPayload(id.identifier);
    }
  }

  /** The stored text is the front of the full text: all of it up to a NUL, or as much as the buffer
      holds, which for a ByteString is a whole number of bytes. */
  lemma RenderedIsFront(id: NodeId)
    ensures Rendered(id) <= FullText(id) && |Rendered(id)| < NODE_ID_LENGTH
    ensures if id.identifier.Opaque? then |Rendered(id)| == |FullText(id)| || |Rendered(id)| >= NODE_ID_LENGTH - 2
            else IsCut(Rendered(id), FullText(id), NODE_ID_LENGTH)
  {
    match id.identifier {
      case Text(text) =>
        PrefixShape(id);
        ClippedIsCut(text, NODE_ID_LENGTH);
      case Opaque(bytes) => BytesAreFront(id, bytes);
      case _ =>
        PrefixShape(id);
        ShortPayload(id.identifier);
    }
  }

  lemma BytesAreFront(id: NodeId, bytes: seq<Byte>)
    requires id.identifier == Opaque(bytes)
    ensures Rendered(id) <= FullText(id) && |Rendered(id)| < NODE_ID_LENGTH
    ensures |Rendered(id)| == |FullText(id)| || |Rendered(id)| >= NODE_ID_LENGTH - 2
  {
    PrefixShape(id);
    var k := PairsThatFit(|bytes|, |Prefix(id)|);
    HexBytesLength(bytes);
    HexBytesLength(bytes[..k]);
    HexBytesAppend(bytes[..k], bytes[k..]);
    assert bytes[..k] + bytes[k..] == bytes;
  }

  /** So comparing stored texts is comparing NodeIds, for every pair that fits. */
  lemma RenderedIdentity(a: NodeId, b: NodeId)
    requires FitsBuffer(a) && FitsBuffer(b)
    ensures Rendered(a) == Rendered(b) <==> a == b
  {
    RenderedIsFullText(a);
    RenderedIsFullText(b);
    if Rendered(a) == Rendered(b) {
      FullTextInjective(a, b);
    }
  }

  /** node_id_to_text: the buffer receives the rendering; only the ByteString case is a loop. */
  method NodeIdToText(id: NodeId) returns (text: string)
    ensures text == Rendered(id)
    ensures |text| < NODE_ID_LENGTH
  {
    PrefixShape(id);
    match id.identifier {
      case Text(content) =>
        var identifier := CString(Clip(content, NODE_ID_LENGTH));
        text := Clip(Prefix(id) + identifier, NODE_ID_LENGTH);
      case Opaque(bytes) =>
        text := Prefix(id);
        var index := 0;
        while index < |bytes| && |text| + 2 < NODE_ID_LENGTH
          invariant index <= |bytes|
          invariant text == Prefix(id) + HexBytes(bytes[..index])
          invariant |text| == |Prefix(id)| + 2 * index < NODE_ID_LENGTH
        {
          HexLength(bytes[index], 2);
          HexBytesAppend(bytes[..index], [bytes[index]]);
          assert bytes[..index] + [bytes[index]] == bytes[..index + 1];
          assert HexBytes([bytes[index]]) == Hex(bytes[index], 2);
          text := text + Hex(bytes[index], 2);
          index := index + 1;
        }
        assert index == PairsThatFit(|bytes|, |Prefix(id)|);
      case _ =>
        text := Clip(FullText(id), NODE_ID_LENGTH);
    }
  }
}
