/** The configuration portal's text codecs: form decoding in place, HTML escaping into a bounded
    and into an allocated buffer, and the lookup of a form field. */
module PortalText {
  import opened CStrings
  import opened NodeIds

  // ----- form decoding -----

  predicate IsHexDigit(c: char) {
    '0' <= c <= '9' || 'a' <= c <= 'f' || 'A' <= c <= 'F'
  }

  function HexValue(c: char): nat
    requires IsHexDigit(c)
  {
    if '0' <= c <= '9' then (c - '0') as nat
    else if 'a' <= c <= 'f' then (c - 'a') as nat + 10
    else (c - 'A') as nat + 10
  }

  predicate IsEscape(s: string) {
    |s| >= 3 && s[0] == '%' && IsHexDigit(s[1]) && IsHexDigit(s[2])
  }

  function Unhex(high: char, low: char): char
    requires IsHexDigit(high) && IsHexDigit(low)
  {
    (16 * HexValue(high) + HexValue(low)) as char
  }

  /** A malformed escape is taken literally. */
  function Decode(s: string): string {
    if s == "" then ""
    else if s[0] == '+' then " " + Decode(s[1..])
    else if IsEscape(s) then [Unhex(s[1], s[2])] + Decode(s[3..])
    else [s[0]] + Decode(s[1..])
  }

  lemma {:induction false} DecodeShrinks(s: string)
    ensures |Decode(s)| <= |s|
  {
    if s != "" {
      if s[0] != '+' && IsEscape(s) {
        DecodeShrinks(s[3..]);
      } else {
        DecodeShrinks(s[1..]);
      }
    }
  }

  predicate AreBytes(s: string) {
    forall i | 0 <= i < |s| :: s[i] as int < 256
  }

  /** Any encoder of form fields: it may leave the bytes of `plain` as they are, may write a space as
      '+', and writes every other byte as '%' and two digits. */
  function Encode(s: string, plain: set<char>, digits: string): string
    requires |digits| == 16 && AreBytes(s)
  {
    if s == "" then ""
    else EncodeByte(s[0], plain, digits) + Encode(s[1..], plain, digits)
  }

  function EncodeByte(c: char, plain: set<char>, digits: string): string
    requires |digits| == 16 && c as int < 256
  {
    if c in plain then [c]
    else if c == ' ' then "+"
    else ['%', digits[c as int / 16], digits[c as int % 16]]
  }

  /** Sixteen digits in order, in either case. */
  predicate AreDigits(digits: string) {
    |digits| == 16 && forall i | 0 <= i < 16 :: IsHexDigit(digits[i]) && HexValue(digits[i]) == i
  }

  /** Digits are the hexadecimal ones, small or capital, and count from zero to fifteen. */
  lemma DigitsMeaning(digits: string, c: char)
    ensures AreDigits(digits) <==>
            |digits| == 16 && forall i | 0 <= i < 16 ::
              digits[i] == "0123456789abcdef"[i] || digits[i] == "0123456789ABCDEF"[i]
    ensures IsHexDigit(c) <==> c in "0123456789abcdefABCDEF"
  {
    var small, capital := "0123456789abcdef", "0123456789ABCDEF";
    forall i, d: char | 0 <= i < 16
      ensures IsHexDigit(d) && HexValue(d) == i <==> d == small[i] || d == capital[i]
    {
    }
  }

  /** A text without plus signs and whole escapes stands for itself: a percent sign that begins no escape
      is taken literally. */
  lemma {:induction false} PlainTextIsKept(s: string)
    requires '+' !in s
    requires forall k | 0 <= k < |s| - 2 :: !(s[k] == '%' && IsHexDigit(s[k + 1]) && IsHexDigit(s[k + 2]))
    ensures Decode(s) == s
  {
    if s != "" {
      assert s == [s[0]] + s[1..];
      PlainTextIsKept(s[1..]);
    }
  }

  lemma DecodeOneByte(c: char, plain: set<char>, digits: string, rest: string)
    requires AreDigits(digits) && c as int < 256 && '+' !in plain && '%' !in plain
    ensures Decode(EncodeByte(c, plain, digits) + rest) == [c] + Decode(rest)
  {
    var s := EncodeByte(c, plain, digits) + rest;
    if c in plain || c == ' ' {
      assert s[1..] == rest;
    } else {
      assert s[3..] == rest && IsEscape(s);
      var n := c as int;
      assert 16 * (n / 16) + n % 16 == n;
      assert Unhex(s[1], s[2]) == c;
    }
  }

  /** Decoding undoes every such encoder, whatever it leaves plain and whichever digits it uses. */
  lemma {:induction false} DecodeUndoesEncode(s: string, plain: set<char>, digits: string)
    requires AreDigits(digits) && '+' !in plain && '%' !in plain
    requires AreBytes(s)
    ensures Decode(Encode(s, plain, digits)) == s
  {
    if s != "" {
      DecodeUndoesEncode(s[1..], plain, digits);
      DecodeOneByte(s[0], plain, digits, Encode(s[1..], plain, digits));
    }
  }

  lemma DecodeAt(text: string, k: nat)
    requires k < |text|
    ensures var escape := k + 2 < |text| && text[k] == '%' && IsHexDigit(text[k + 1]) && IsHexDigit(text[k + 2]);
            Decode(text[k..]) ==
            if text[k] == '+' then " " + Decode(text[k + 1..])
            else if escape then [Unhex(text[k + 1], text[k + 2])] + Decode(text[k + 3..])
            else [text[k]] + Decode(text[k + 1..])
  {
    var rest := text[k..];
    assert rest[0] == text[k] && rest[1..] == text[k + 1..];
    if |rest| >= 3 {
      assert rest[1] == text[k + 1] && rest[2] == text[k + 2] && rest[3..] == text[k + 3..];
    }
  }

  /** The bytes from `source` on are still those of the text; before `destination` stands what the
      others decode to. */
  ghost predicate HalfDone(now: seq<char>, was: seq<char>, text: string, source: nat, destination: nat) {
    && destination <= source <= |text| < |was| == |now|
    && now[source..] == was[source..]
    && Decode(text) == now[..destination] + Decode(text[source..])
  }

  lemma HalfDoneStep(now: seq<char>, was: seq<char>, text: string, source: nat, destination: nat, byte: char,
                     width: nat)
    requires HalfDone(now, was, text, source, destination) && 1 <= width && source + width <= |text|
    requires Decode(text[source..]) == [byte] + Decode(text[source + width..])
    ensures HalfDone(now[destination := byte], was, text, source + width, destination + 1)
  {
    var next := now[destination := byte];
    assert next[..destination + 1] == now[..destination] + [byte];
    Associates(now[..destination], byte, Decode(text[source + width..]));
    assert next[source + width..] == now[source..][width..] && was[source + width..] == was[source..][width..];
  }

  lemma HalfDoneIsText(now: seq<char>, was: seq<char>, text: string, source: nat, destination: nat)
    requires HalfDone(now, was, text, source, destination) && Holds(was, text) && NUL !in text
    ensures forall i | source <= i < |text| :: now[i] == text[i] != NUL
    ensures now[|text|] == NUL
  {
    forall i | source <= i < |text|
      ensures now[i] == text[i] != NUL
    {
      assert now[i] == now[source..][i - source] == was[i] == was[..|text|][i];
      assert text[i] in text;
    }
    assert now[|text|] == now[source..][|text| - source] == was[|text|];
  }

  lemma Done(now: seq<char>, was: seq<char>, text: string, destination: nat)
    requires HalfDone(now, was, text, |text|, destination)
    ensures Holds(now[destination := NUL], Decode(text))
    ensures forall i | |text| < i < |now| :: now[destination := NUL][i] == was[i]
  {
    assert text[|text|..] == "" && now[..destination] + "" == now[..destination];
    assert now[destination := NUL][..destination] == now[..destination];
    forall i | |text| < i < |now|
      ensures now[destination := NUL][i] == was[i]
    {
      assert now[i] == now[|text|..][i - |text|] == was[i];
    }
  }

  /** Decodes the C string in `value` over itself; `text` is what the buffer holds. */
  method UrlDecode(value: array<char>, ghost text: string)
    requires Holds(value[..], text) && NUL !in text
    modifies value
    ensures Holds(value[..], Decode(text))
    ensures forall i | |text| < i < value.Length :: value[i] == old(value[i])
  {
    ghost var was := value[..];
    var source, destination := 0, 0;
    assert text[0..] == text && was[..0] == "";
    while value[source] != NUL
      invariant 0 <= destination <= source < value.Length
      invariant HalfDone(value[..], was, text, source, destination)
      decreases |text| - source
    {
      ghost var now := value[..];
      HalfDoneIsText(now, was, text, source, destination);
      var byte, width := DecodeHere(value, source, text);
      HalfDoneStep(now, was, text, source, destination, byte, width);
      value[destination] := byte;
      assert value[..] == now[destination := byte];
      source := source + width;
      destination := destination + 1;
    }
    ghost var now := value[..];
    HalfDoneIsText(now, was, text, source, destination);
    assert source == |text|;
    Done(now, was, text, destination);
    value[destination] := NUL;
    assert value[..] == now[destination := NUL];
  }

  lemma Associates(front: string, c: char, back: string)
    ensures front + ([c] + back) == front + [c] + back
  {
  }

  /** The byte that the text at `source` stands for, and how many bytes it takes. */
  method DecodeHere(value: array<char>, source: nat, ghost text: string) returns (byte: char, width: nat)
    requires source < |text| < value.Length
    requires forall i | source <= i < |text| :: value[i] == text[i] != NUL
    requires value[|text|] == NUL
    ensures 1 <= width && source + width <= |text|
    ensures Decode(text[source..]) == [byte] + Decode(text[source + width..])
  {
    DecodeAt(text, source);
    if value[source] == '+' {
      return ' ', 1;
    }
    if value[source] == '%' && IsHexDigit(value[source + 1]) && IsHexDigit(value[source + 2]) {
      return Unhex(value[source + 1], value[source + 2]), 3;
    }
    return value[source], 1;
  }

  // ----- HTML escaping -----

  function Entity(c: char): string {
    match c
    case '&' => "&amp;"
    case '<' => "&lt;"
    case '>' => "&gt;"
    case '\'' => "&#39;"
    case '"' => "&quot;"
    case _ => [c]
  }

  function Escape(s: string): string {
    if s == "" then "" else Escape(s[..|s| - 1]) + Entity(s[|s| - 1])
  }

  lemma EntityLength(c: char)
    ensures 1 <= |Entity(c)| <= 6
  {
  }

  lemma {:induction false} EscapeLength(s: string)
    ensures |s| <= |Escape(s)| <= 6 * |s|
  {
    if s != "" {
      EscapeLength(s[..|s| - 1]);
      EntityLength(s[|s| - 1]);
    }
  }

  lemma {:induction false} EscapeGrows(s: string, j: nat, k: nat)
    requires j <= k <= |s|
    ensures Escape(s[..j]) <= Escape(s[..k])
  {
    if j < k {
      EscapeGrows(s, j, k - 1);
      assert s[..k][..k - 1] == s[..k - 1];
    }
  }

  /** The result can stand in text and in quoted attributes: it has no bracket and no quote. */
  lemma {:induction false} EscapeIsInert(s: string)
    ensures forall c | c in Escape(s) :: c != '<' && c != '>' && c != '\'' && c != '"'
  {
    if s != "" {
      EscapeIsInert(s[..|s| - 1]);
      EntityIsInert(s[|s| - 1]);
    }
  }

  lemma EntityIsInert(c: char)
    ensures forall d | d in Entity(c) :: d != '<' && d != '>' && d != '\'' && d != '"'
  {
  }

  /** How many bytes of the source are escaped into a buffer of this size. */
  ghost predicate FillsUpTo(source: string, size: nat, k: nat) {
    && k <= |source| && |Escape(source[..k])| < size
    && (k < |source| ==> size <= |Escape(source[..k + 1])|)
  }

  /** The bounded version writes the escape of the longest prefix that fits, and splits no entity. */
  method HtmlEscape(source: string, destination: array<char>) returns (ghost kept: nat)
    requires NUL !in source && destination.Length > 0
    modifies destination
    ensures FillsUpTo(source, destination.Length, kept)
    ensures Holds(destination[..], Escape(source[..kept]))
  {
    var offset, index := 0, 0;
    while index < |source| && offset + 1 < destination.Length
      invariant index <= |source|
      invariant offset == |Escape(source[..index])| < destination.Length
      invariant destination[..offset] == Escape(source[..index])
    {
      var replacement := Entity(source[index]);
      EntityLength(source[index]);
      assert source[..index + 1][..index] == source[..index];
      assert Escape(source[..index + 1]) == Escape(source[..index]) + replacement;
      if offset + |replacement| >= destination.Length {
        break;
      }
      CopyInto(destination, offset, replacement);
      offset := offset + |replacement|;
      index := index + 1;
    }
    if index < |source| {
      assert source[..index + 1][..index] == source[..index];
      EntityLength(source[index]);
    }
    destination[offset] := NUL;
    kept := index;
    assert destination[..][..offset] == Escape(source[..kept]);
  }

  /** memcpy of a short text. */
  method CopyInto(destination: array<char>, offset: nat, text: string)
    requires offset + |text| <= destination.Length
    modifies destination
    ensures destination[..offset + |text|] == old(destination[..offset]) + text
    ensures forall i | offset + |text| <= i < destination.Length :: destination[i] == old(destination[i])
  {
    forall i | 0 <= i < |text| {
      destination[offset + i] := text[i];
    }
    assert destination[..offset] == old(destination[..offset]);
    assert destination[offset..offset + |text|] == text;
  }

  /** The allocating version: six bytes for every byte of the source are always enough. */
  method HtmlEscapeDup(source: string) returns (out: array<char>)
    requires NUL !in source
    ensures fresh(out) && out.Length == 6 * |source| + 1
    ensures Holds(out[..], Escape(source))
  {
    out := new char[6 * |source| + 1](_ => NUL);
    var position, index := 0, 0;
    while index < |source|
      invariant index <= |source|
      invariant position == |Escape(source[..index])| <= 6 * index
      invariant out[..position] == Escape(source[..index])
    {
      var replacement := Entity(source[index]);
      EntityLength(source[index]);
      assert source[..index + 1][..index] == source[..index];
      CopyInto(out, position, replacement);
      position := position + |replacement|;
      index := index + 1;
    }
    assert source[..index] == source;
    out[position] := NUL;
    assert out[..][..position] == Escape(source);
  }

  /** The bounded version writes the whole escape exactly when it fits; a buffer of more than six
      times the source always does. */
  lemma BoundedEscapeIsWhole(source: string, size: nat, kept: nat)
    requires FillsUpTo(source, size, kept)
    ensures Escape(source[..kept]) == Escape(source) <==> |Escape(source)| < size
    ensures size > 6 * |source| ==> kept == |source|
  {
    EscapeLength(source);
    assert source[..|source|] == source;
    if kept < |source| {
      EscapeGrows(source, kept, |source|);
      EscapeGrows(source, kept + 1, |source|);
    }
  }

  /** What a browser makes of the entities. */
  function Unescape(s: string): string {
    if s == "" then ""
    else if "&amp;" <= s then "&" + Unescape(s[5..])
    else if "&lt;" <= s then "<" + Unescape(s[4..])
    else if "&gt;" <= s then ">" + Unescape(s[4..])
    else if "&#39;" <= s then "'" + Unescape(s[5..])
    else if "&quot;" <= s then "\"" + Unescape(s[6..])
    else [s[0]] + Unescape(s[1..])
  }

  lemma UnescapeOne(c: char, rest: string)
    ensures Unescape(Entity(c) + rest) == [c] + Unescape(rest)
  {
    var s := Entity(c) + rest;
    assert s[|Entity(c)|..] == rest;
    assert s[..|Entity(c)|] == Entity(c);
    match c
    case '&' => assert "&amp;" <= s;
    case '<' => assert s[1] == 'l' && "&lt;" <= s;
    case '>' => assert s[1] == 'g' && "&gt;" <= s;
    case '\'' => assert s[1] == '#' && "&#39;" <= s;
    case '"' => assert s[1] == 'q' && "&quot;" <= s;
    case _ => assert s[0] == c;
  }

  lemma {:induction false} EscapeFront(s: string)
    requires s != ""
    ensures Escape(s) == Entity(s[0]) + Escape(s[1..])
  {
    var before, last := s[..|s| - 1], s[|s| - 1];
    if before != "" {
      EscapeFront(before);
      assert s[1..] == before[1..] + [last];
      EscapeAppend(before[1..], last);
      JoinThree(Entity(s[0]), Escape(before[1..]), Entity(last));
    } else {
      assert s[1..] == "" && Escape("") == "" && Escape(before) == "";
      assert "" + Entity(last) == Entity(last) + "";
    }
  }

  lemma EscapeAppend(s: string, c: char)
    ensures Escape(s + [c]) == Escape(s) + Entity(c)
  {
    assert (s + [c])[..|s|] == s;
  }

  lemma JoinThree(a: string, b: string, c: string)
    ensures (a + b) + c == a + (b + c)
  {
  }

  /** Unescaping undoes escaping, for every text. */
  lemma {:induction false} UnescapeUndoesEscape(s: string)
    ensures Unescape(Escape(s)) == s
  {
    if s != "" {
      EscapeFront(s);
      UnescapeOne(s[0], Escape(s[1..]));
      UnescapeUndoesEscape(s[1..]);
    }
  }

  // ----- form fields -----

  datatype Lookup = Missing | Found(value: string)

  /** The first pair with this key; the raw value is clipped to the buffer before it is decoded. */
  function FindField(body: string, key: string, size: nat): Lookup
    requires size > 0
    decreases |body|
  {
    FindMeaning(body, '&');
    FindMeaning(body, '=');
    if body == "" then Missing
    else
      var end, separator := Find(body, '&'), Find(body, '=');
      var rest := if end < |body| then body[end + 1..] else "";
      if separator < end && body[..separator] == key then Found(Decode(Clip(body[separator + 1..end], size)))
      else FindField(rest, key, size)
  }

  /** One turn of the cursor loop. */
  method OnePair(cursor: string, key: string, size: nat) returns (matched: bool, raw: string, rest: string)
    requires cursor != "" && NUL !in cursor && size > 0
    ensures matched ==> FindField(cursor, key, size) == Found(Decode(raw)) && |raw| < size && NUL !in raw
    ensures !matched ==> FindField(cursor, key, size) == FindField(rest, key, size) && |rest| < |cursor| && NUL !in rest
  {
    FindMeaning(cursor, '&');
    FindMeaning(cursor, '=');
    var pairEnd, separator := Find(cursor, '&'), Find(cursor, '=');
    assert cursor[..separator] == key ==> separator == |key|;
    if separator < pairEnd && separator == |key| && cursor[..separator] == key {
      raw := Clip(cursor[separator + 1..pairEnd], size);
      PartHasNoNul(cursor, separator + 1, separator + 1 + |raw|);
      return true, raw, "";
    }
    matched, raw := false, "";
    if pairEnd < |cursor| {
      rest := cursor[pairEnd + 1..];
      PartHasNoNul(cursor, pairEnd + 1, |cursor|);
    } else {
      rest := "";
    }
  }

  /** The cursor loop: the raw value of the first pair with this key, clipped to the buffer. */
  method LocateField(body: string, key: string, size: nat) returns (found: bool, raw: string)
    requires NUL !in body && size > 0
    ensures !found ==> FindField(body, key, size) == Missing
    ensures found ==> FindField(body, key, size) == Found(Decode(raw)) && |raw| < size && NUL !in raw
  {
    var cursor := body;
    while cursor != ""
      invariant FindField(cursor, key, size) == FindField(body, key, size)
      invariant NUL !in cursor
      decreases |cursor|
    {
      var matched, value, rest := OnePair(cursor, key, size);
      if matched {
        return true, value;
      }
      cursor := rest;
    }
    found, raw := false, "";
  }

  method FormGetValue(body: string, key: string, out: array<char>) returns (found: bool)
    requires NUL !in body && out.Length > 0
    modifies out
    ensures found <==> FindField(body, key, out.Length).Found?
    ensures Holds(out[..], if found then FindField(body, key, out.Length).value else "")
  {
    var raw;
    found, raw := LocateField(body, key, out.Length);
    if found {
      FillAndDecode(out, raw);
    } else {
      out[0] := NUL;
      assert out[..][..0] == "";
    }
  }

  lemma PartHasNoNul(s: string, i: nat, j: nat)
    requires NUL !in s && i <= j <= |s|
    ensures NUL !in s[i..j]
  {
  }

  method FillAndDecode(out: array<char>, raw: string)
    requires |raw| < out.Length && NUL !in raw
    modifies out
    ensures Holds(out[..], Decode(raw))
  {
    CopyInto(out, 0, raw);
    assert out[..0] == "" && out[..|raw|] == raw;
    out[|raw|] := NUL;
    assert out[..][..|raw|] == raw;
    UrlDecode(out, raw);
  }

  datatype Field = Field(key: string, value: string)

  function Form(fields: seq<Field>, plain: set<char>, digits: string): string
    requires |digits| == 16 && forall i | 0 <= i < |fields| :: AreBytes(fields[i].value)
  {
    if fields == [] then ""
    else
      var pair := fields[0].key + "=" + Encode(fields[0].value, plain, digits);
      if |fields| == 1 then pair else pair + "&" + Form(fields[1..], plain, digits)
  }

  ghost predicate AreFields(fields: seq<Field>) {
    forall i | 0 <= i < |fields| :: '&' !in fields[i].key && '=' !in fields[i].key && AreBytes(fields[i].value)
  }

  function FirstWith(fields: seq<Field>, key: string): (r: Lookup)
    ensures r.Found? ==> Field(key, r.value) in fields
    ensures r.Missing? ==> forall f | f in fields :: f.key != key
  {
    if fields == [] then Missing
    else if fields[0].key == key then Found(fields[0].value)
    else FirstWith(fields[1..], key)
  }

  lemma {:induction false} EncodeAvoids(s: string, plain: set<char>, digits: string, c: char)
    requires AreDigits(digits) && AreBytes(s) && c !in plain && c != '+' && c != '%' && !IsHexDigit(c)
    ensures c !in Encode(s, plain, digits)
  {
    if s != "" {
      EncodeAvoids(s[1..], plain, digits, c);
    }
  }

  /** One pair at the front of a body. */
  lemma FrontPair(key: string, raw: string, rest: string, wanted: string, size: nat)
    requires size > 0 && '&' !in key && '=' !in key && '&' !in raw
    ensures FindField(key + "=" + raw, wanted, size) == if key == wanted then Found(Decode(Clip(raw, size)))
            else Missing
    ensures FindField(key + "=" + raw + "&" + rest, wanted, size) ==
            if key == wanted then Found(Decode(Clip(raw, size))) else FindField(rest, wanted, size)
  {
    PairAlone(key, raw, wanted, size);
    var pair := key + "=" + raw;
    var body := pair + "&" + rest;
    assert body == pair + ("&" + rest) && body == key + ("=" + raw + "&" + rest);
    FindAfter(pair, "&" + rest, '&');
    FindAfter(key, "=" + raw + "&" + rest, '=');
    assert body[|pair| + 1..] == rest && body[..|key|] == key && body[|key| + 1..|pair|] == raw;
  }

  lemma PairAlone(key: string, raw: string, wanted: string, size: nat)
    requires size > 0 && '&' !in key && '=' !in key && '&' !in raw
    ensures FindField(key + "=" + raw, wanted, size) == if key == wanted then Found(Decode(Clip(raw, size)))
            else Missing
  {
    var pair := key + "=" + raw;
    assert pair == key + ("=" + raw);
    FindMeaning(pair, '&');
    FindAfter(key, "=" + raw, '=');
    assert pair[..|key|] == key && pair[|key| + 1..|pair|] == raw;
    assert FindField("", wanted, size) == Missing;
  }

  /** A pair without an equals sign is passed over. */
  lemma PairWithoutValue(text: string, rest: string, wanted: string, size: nat)
    requires size > 0 && '&' !in text && '=' !in text
    ensures FindField(text, wanted, size) == Missing
    ensures FindField(text + "&" + rest, wanted, size) == FindField(rest, wanted, size)
  {
    FindMeaning(text, '&');
    FindMeaning(text, '=');
    var body := text + "&" + rest;
    assert body == text + ("&" + rest) && body[|text| + 1..] == rest;
    FindAfter(text, "&" + rest, '&');
    FindAfter(text, "&" + rest, '=');
    assert FindField("", wanted, size) == Missing;
  }

  // ----- what a short buffer keeps -----

  lemma {:induction false} DecodePrefix(s: string, plain: set<char>, digits: string, rest: string)
    requires AreDigits(digits) && AreBytes(s) && '+' !in plain && '%' !in plain
    ensures Decode(Encode(s, plain, digits) + rest) == s + Decode(rest)
  {
    if s == "" {
      assert Encode(s, plain, digits) + rest == rest;
    } else {
      var front, back := EncodeByte(s[0], plain, digits), Encode(s[1..], plain, digits);
      JoinThree(front, back, rest);
      DecodeOneByte(s[0], plain, digits, back + rest);
      DecodePrefix(s[1..], plain, digits, rest);
      JoinThree([s[0]], s[1..], Decode(rest));
      assert s == [s[0]] + s[1..];
    }
  }

  lemma {:induction false} EncodeLength(s: string, plain: set<char>, digits: string)
    requires |digits| == 16 && AreBytes(s)
    ensures |Encode(s, plain, digits)| >= |s|
  {
    if s != "" {
      EncodeLength(s[1..], plain, digits);
    }
  }

  /** The value ends in `tail`, and n bytes of the encoding end after as many bytes behind the rest. */
  predicate EndsAtCut(s: string, tail: string, plain: set<char>, digits: string, n: nat)
    requires |digits| == 16 && AreBytes(s)
  {
    |s| >= |tail| && s[|s| - |tail|..] == tail && |Encode(s[..|s| - |tail|], plain, digits)| + |tail| == n
  }

  /** Cutting the encoding to n bytes leaves a percent sign, or a percent sign and a 2, that stand for
      themselves and happen to be how the value ends. */
  predicate KeptByChance(s: string, plain: set<char>, digits: string, n: nat)
    requires |digits| == 16 && AreBytes(s)
  {
    EndsAtCut(s, "%", plain, digits, n) || EndsAtCut(s, "%2", plain, digits, n)
  }

  lemma EncodeFirst(s: string, plain: set<char>, digits: string, c: char, rest: string)
    requires |digits| == 16 && AreBytes(s) && c as int < 256 && AreBytes(rest) && s == [c] + rest
    ensures Encode(s, plain, digits) == EncodeByte(c, plain, digits) + Encode(rest, plain, digits)
  {
    assert s[0] == c && s[1..] == rest;
  }

  lemma EndsAtCutInRest(s: string, tail: string, plain: set<char>, digits: string, n: nat)
    requires |digits| == 16 && AreBytes(s) && |s| > |tail| && |EncodeByte(s[0], plain, digits)| <= n
    ensures EndsAtCut(s, tail, plain, digits, n) <==>
            EndsAtCut(s[1..], tail, plain, digits, n - |EncodeByte(s[0], plain, digits)|)
  {
    var rest, k := s[1..], |s| - |tail|;
    assert s[..k] == [s[0]] + rest[..k - 1];
    EncodeFirst(s[..k], plain, digits, s[0], rest[..k - 1]);
    assert s[k..] == rest[k - 1..];
  }

  /** Nothing but the tail: its first byte is an escape, and too long. */
  lemma TailAloneIsTooShort(s: string, plain: set<char>, digits: string, n: nat)
    requires |digits| == 16 && AreBytes(s) && s != "" && s[0] !in plain && s[0] != ' '
    ensures EndsAtCut(s, s, plain, digits, n) <==> n == |s|
  {
    assert s[..0] == "" && s[0..] == s;
  }

  lemma ChanceIsInTheRest(s: string, plain: set<char>, digits: string, n: nat)
    requires AreDigits(digits) && AreBytes(s) && |s| > 1 && '%' !in plain
    requires |EncodeByte(s[0], plain, digits)| <= n
    ensures KeptByChance(s, plain, digits, n) <==>
            KeptByChance(s[1..], plain, digits, n - |EncodeByte(s[0], plain, digits)|)
  {
    EndsAtCutInRest(s, "%", plain, digits, n);
    if |s| > 2 {
      EndsAtCutInRest(s, "%2", plain, digits, n);
    } else if s == "%2" {
      TailAloneIsTooShort(s, plain, digits, n);
    } else {
      assert s[0..] == s;
    }
  }

  /** An escape that is cut short is taken literally. */
  lemma CutEscape(s: string, plain: set<char>, digits: string, n: nat)
    requires AreDigits(digits) && AreBytes(s) && '+' !in plain && '%' !in plain
    requires s != "" && n < |EncodeByte(s[0], plain, digits)|
    ensures Decode(EncodeByte(s[0], plain, digits)[..n]) == s <==> KeptByChance(s, plain, digits, n)
  {
    var code := EncodeByte(s[0], plain, digits);
    ShortCutEndsAll(s, "%", plain, digits, n);
    ShortCutEndsAll(s, "%2", plain, digits, n);
    CutCodeIsLiteral(s[0], plain, digits, n);
    if n == 2 && s == ['%', code[1]] {
      assert s[0] as int == 0x25 && HexValue(digits[2]) == 2;
    }
  }

  lemma CutCodeIsLiteral(c: char, plain: set<char>, digits: string, n: nat)
    requires AreDigits(digits) && c as int < 256 && n < |EncodeByte(c, plain, digits)|
    ensures n > 0 ==> EncodeByte(c, plain, digits)[0] == '%'
    ensures n == 2 ==> EncodeByte(c, plain, digits)[1] == digits[c as int / 16]
    ensures Decode(EncodeByte(c, plain, digits)[..n]) == EncodeByte(c, plain, digits)[..n]
  {
    var code := EncodeByte(c, plain, digits);
    if n == 1 {
      assert code[..1] == "%" && "%"[1..] == "" && Decode("%") == "%";
    } else if n == 2 {
      assert code[..2] == ['%', code[1]] && ['%', code[1]][1..] == [code[1]] && [code[1]][1..] == "";
      assert Decode([code[1]]) == [code[1]] && Decode(['%', code[1]]) == ['%', code[1]];
    }
  }

  /** A cut within the first escape can only be a chance when the value is nothing but the tail. */
  lemma ShortCutEndsAll(s: string, tail: string, plain: set<char>, digits: string, n: nat)
    requires |digits| == 16 && AreBytes(s) && s != "" && n < |EncodeByte(s[0], plain, digits)| && tail != ""
    ensures EndsAtCut(s, tail, plain, digits, n) <==> s == tail && n == |tail|
  {
    if s == tail {
      assert s[0..] == s && s[..0] == "";
    }
    if |s| > |tail| {
      assert s[..|s| - |tail|] == [s[0]] + s[1..|s| - |tail|];
      EncodeFirst(s[..|s| - |tail|], plain, digits, s[0], s[1..|s| - |tail|]);
    }
  }

  lemma SameRest(s: string, t: string)
    requires s != ""
    ensures [s[0]] + t == s <==> t == s[1..]
  {
    assert s == [s[0]] + s[1..];
    assert ([s[0]] + t)[1..] == t;
  }

  /** A value whose encoding is cut does not come back, but for that chance. */
  lemma {:induction false} CutValue(s: string, plain: set<char>, digits: string, n: nat)
    requires AreDigits(digits) && AreBytes(s) && '+' !in plain && '%' !in plain
    requires n < |Encode(s, plain, digits)|
    ensures Decode(Encode(s, plain, digits)[..n]) == s <==> KeptByChance(s, plain, digits, n)
  {
    var front, back := EncodeByte(s[0], plain, digits), Encode(s[1..], plain, digits);
    if n < |front| {
      assert Encode(s, plain, digits)[..n] == front[..n];
      CutEscape(s, plain, digits, n);
    } else {
      var m := n - |front|;
      assert Encode(s, plain, digits)[..n] == front + back[..m];
      DecodeOneByte(s[0], plain, digits, back[..m]);
      CutValue(s[1..], plain, digits, m);
      ChanceIsInTheRest(s, plain, digits, n);
      SameRest(s, Decode(back[..m]));
    }
  }

  /** What the portal reads from a submitted form: the first field with the key, decoded from as much
      of its encoding as has room. Other fields may be of any length. */
  lemma {:induction false} FieldsArrive(fields: seq<Field>, plain: set<char>, digits: string, key: string, size: nat)
    requires size > 0 && AreDigits(digits) && '+' !in plain && '%' !in plain && '&' !in plain && AreFields(fields)
    ensures FindField(Form(fields, plain, digits), key, size) ==
            match FirstWith(fields, key)
            case Missing => Missing
            case Found(value) => Found(Decode(Clip(Encode(value, plain, digits), size)))
  {
    if fields != [] {
      var raw := Encode(fields[0].value, plain, digits);
      EncodeAvoids(fields[0].value, plain, digits, '&');
      if |fields| == 1 {
        PairAlone(fields[0].key, raw, key, size);
        assert FirstWith(fields[1..], key) == Missing;
      } else {
        var rest := Form(fields[1..], plain, digits);
        FieldsArrive(fields[1..], plain, digits, key, size);
        FrontPair(fields[0].key, raw, rest, key, size);
      }
    } else {
      assert FindField("", key, size) == Missing;
    }
  }

  lemma ClippedValue(value: string, plain: set<char>, digits: string, size: nat)
    requires size > 0 && AreDigits(digits) && AreBytes(value) && '+' !in plain && '%' !in plain
    ensures Decode(Clip(Encode(value, plain, digits), size)) == value <==>
            |Encode(value, plain, digits)| < size || KeptByChance(value, plain, digits, size - 1)
  {
    if |Encode(value, plain, digits)| < size {
      DecodeUndoesEncode(value, plain, digits);
    } else {
      CutValue(value, plain, digits, size - 1);
    }
  }

  /** What a C program reads from the buffer. */
  function AsRead(found: Lookup): Lookup {
    match found
    case Missing => Missing
    case Found(value) => Found(CString(value))
  }

  lemma CutCodeHasNoNul(c: char, plain: set<char>, digits: string, n: nat)
    requires AreDigits(digits) && c as int < 256 && c != NUL && n < |EncodeByte(c, plain, digits)|
    ensures NUL !in Decode(EncodeByte(c, plain, digits)[..n])
  {
    CutCodeIsLiteral(c, plain, digits, n);
    assert n == 2 ==> IsHexDigit(digits[c as int / 16]);
  }

  /** A value without NUL is read without NUL, however it is cut. */
  lemma {:induction false} CutHasNoNul(s: string, plain: set<char>, digits: string, n: nat)
    requires AreDigits(digits) && AreBytes(s) && '+' !in plain && '%' !in plain && NUL !in s
    requires n <= |Encode(s, plain, digits)|
    ensures NUL !in Decode(Encode(s, plain, digits)[..n])
  {
    if s != "" {
      var front, back := EncodeByte(s[0], plain, digits), Encode(s[1..], plain, digits);
      if n < |front| {
        assert Encode(s, plain, digits)[..n] == front[..n];
        CutCodeHasNoNul(s[0], plain, digits, n);
      } else {
        var m := n - |front|;
        assert Encode(s, plain, digits)[..n] == front + back[..m];
        DecodeOneByte(s[0], plain, digits, back[..m]);
        CutHasNoNul(s[1..], plain, digits, m);
      }
    }
  }

  lemma ReadValue(value: string, plain: set<char>, digits: string, size: nat)
    requires size > 0 && AreDigits(digits) && AreBytes(value) && '+' !in plain && '%' !in plain
    ensures CString(Decode(Clip(Encode(value, plain, digits), size))) == value <==>
            NUL !in value && (|Encode(value, plain, digits)| < size || KeptByChance(value, plain, digits, size - 1))
  {
    var kept := Clip(Encode(value, plain, digits), size);
    CStringIdentity(Decode(kept));
    if NUL !in value {
      assert kept == Encode(value, plain, digits)[..|kept|];
      CutHasNoNul(value, plain, digits, |kept|);
      ClippedValue(value, plain, digits, size);
    }
  }

  /** The first field with a key comes back whole exactly when it has no NUL and its encoding fits the
      buffer of that key, or is cut where the rest happens to read like the value itself. */
  lemma FieldsComeBack(fields: seq<Field>, plain: set<char>, digits: string, key: string, size: nat)
    requires size > 0 && AreDigits(digits) && '+' !in plain && '%' !in plain && '&' !in plain && AreFields(fields)
    ensures AsRead(FindField(Form(fields, plain, digits), key, size)) == FirstWith(fields, key) <==>
            match FirstWith(fields, key)
            case Missing => true
            case Found(value) =>
              NUL !in value && (|Encode(value, plain, digits)| < size || KeptByChance(value, plain, digits, size - 1))
  {
    FieldsArrive(fields, plain, digits, key, size);
    match FirstWith(fields, key) {
      case Missing =>
      case Found(value) => ReadValue(value, plain, digits, size);
    }
  }
}
