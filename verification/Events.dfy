/** The alarm text that the simulator prints into an OPC UA event and the panel parses back. */
module Events {
  import opened CStrings

  const CODE_LENGTH := 48
  const REASON_LENGTH := 128
  const NAME_LENGTH := 64

  // ----- the printer -----

  function StateText(active: bool): string {
    if active then "ACTIVE" else "CLEARED"
  }

  function Print(code: string, active: bool, message: string): string {
    "[" + code + "] " + StateText(active) + ": " + message
  }

  // ----- pattern searches -----

  predicate Occurs(s: string, pattern: string) {
    exists k | 0 <= k <= |s| - |pattern| :: IsAt(s, pattern, k)
  }

  predicate IsAt(s: string, pattern: string, k: nat)
    requires k <= |s| - |pattern|
  {
    s[k..k + |pattern|] == pattern
  }

  function SkipSpaces(s: string): string {
    if s != "" && s[0] == ' ' then SkipSpaces(s[1..]) else s
  }

  lemma {:induction false} SkipSpacesMeaning(s: string)
    ensures |SkipSpaces(s)| <= |s|
    ensures SkipSpaces(s) == "" || SkipSpaces(s)[0] != ' '
    ensures s != "" && s[0] == ' ' ==> |SkipSpaces(s)| < |s|
    ensures forall c | c in SkipSpaces(s) :: c in s
  {
    if s != "" && s[0] == ' ' {
      SkipSpacesMeaning(s[1..]);
    }
  }

  // ----- the parser -----

  datatype ParsedEvent = Malformed | Parsed(code: string, active: bool, reason: string)

  /** What the panel reads out of a message that fits its buffer. */
  function ParseText(message: string): ParsedEvent {
    var start := Find(message, '[');
    FindMeaning(message, '[');
    if start == |message| then Malformed
    else
      var inner := message[start + 1..];
      var length := Find(inner, ']');
      FindMeaning(inner, ']');
      if length == |inner| || length == 0 then Malformed
      else
        ParseTail(inner[..length], inner[length..])
  }

  /** The state and the reason, from the closing bracket on. */
  function ParseTail(code: string, tail: string): ParsedEvent
    requires tail != ""
  {
    var active := Occurs(tail, " ACTIVE:");
    if !active && !Occurs(tail, " CLEARED:") then Malformed
    else
      FindMeaning(tail, ':');
      var colon := Find(tail, ':');
      var reason := if colon < |tail| then tail[colon + 1..] else tail[1..];
      Parsed(Clip(code, CODE_LENGTH), active, Clip(SkipSpaces(reason), REASON_LENGTH))
  }

  /** The message buffer holds the C string at the front of what arrived, clipped to its size. */
  function Received(text: string): string {
    CString(Clip(text, REASON_LENGTH))
  }

  method ParseEvent(text: string) returns (event: ParsedEvent)
    ensures event == ParseText(Received(text))
  {
    var message := Received(text);
    var start := Find(message, '[');
    FindMeaning(message, '[');
    if start == |message| {
      return Malformed;
    }
    var inner := message[start + 1..];
    var length := Find(inner, ']');
    FindMeaning(inner, ']');
    if length == |inner| || length == 0 {
      return Malformed;
    }
    event := ParseStateAndReason(inner[..length], inner[length..]);
  }

  /** The part of the handler that works from the closing bracket on. */
  method ParseStateAndReason(code: string, tail: string) returns (event: ParsedEvent)
    requires tail != ""
    ensures event == ParseTail(code, tail)
  {
    var active := Occurs(tail, " ACTIVE:");
    var cleared := Occurs(tail, " CLEARED:");
    if !active && !cleared {
      return Malformed;
    }
    var colon := Find(tail, ':');
    FindMeaning(tail, ':');
    var position := if colon < |tail| then colon + 1 else 1;
    var reason := SkipLeadingSpaces(tail[position..]);
    event := Parsed(Clip(code, CODE_LENGTH), active, Clip(reason, REASON_LENGTH));
  }

  method SkipLeadingSpaces(s: string) returns (rest: string)
    ensures rest == SkipSpaces(s)
  {
    var position := 0;
    while position < |s| && s[position] == ' '
      invariant position <= |s|
      invariant SkipSpaces(s[position..]) == SkipSpaces(s)
    {
      assert s[position..][1..] == s[position + 1..];
      position := position + 1;
    }
    rest := s[position..];
  }

  // ----- parsing undoes printing -----

  lemma TailFacts(code: string, tail: string)
    requires tail != "" && ParseTail(code, tail).Parsed? && NUL !in tail
    ensures var e := ParseTail(code, tail);
            e.code == Clip(code, CODE_LENGTH) && NUL !in e.reason && (e.reason == "" || e.reason[0] != ' ')
  {
    FindMeaning(tail, ':');
    var colon := Find(tail, ':');
    var reason := if colon < |tail| then tail[colon + 1..] else tail[1..];
    SkipSpacesMeaning(reason);
  }

  lemma CodeAndTail(message: string) returns (code: string, tail: string)
    requires ParseText(message).Parsed? && NUL !in message
    ensures tail != "" && ParseText(message) == ParseTail(code, tail)
    ensures code != "" && ']' !in code && NUL !in code && NUL !in tail
  {
    FindMeaning(message, '[');
    var inner := message[Find(message, '[') + 1..];
    FindMeaning(inner, ']');
    code, tail := inner[..Find(inner, ']')], inner[Find(inner, ']')..];
  }

  lemma ParsedFacts(message: string)
    requires ParseText(message).Parsed? && NUL !in message
    ensures var e := ParseText(message);
            IsCode(e.code) && NUL !in e.reason && (e.reason == "" || e.reason[0] != ' ')
  {
    var code, tail := CodeAndTail(message);
    TailFacts(code, tail);
  }

  /** A code that the panel can hold and find again. */
  predicate IsCode(code: string) {
    0 < |code| < CODE_LENGTH && ']' !in code && NUL !in code
  }

  /** The part of the text after the code. */
  function Tail(active: bool, rest: string): string {
    "] " + StateText(active) + ":" + rest
  }

  lemma ActiveOccurs(rest: string)
    ensures Occurs(Tail(true, rest), " ACTIVE:")
  {
    assert IsAt(Tail(true, rest), " ACTIVE:", 1);
  }

  /** A pattern whose first two bytes never meet in `head` occurs only beyond it. */
  lemma OccursBeyond(head: string, rest: string, pattern: string)
    requires |pattern| >= 2
    requires forall k | 0 <= k < |head| :: head[k] != pattern[0] || (k + 1 < |head| && head[k + 1] != pattern[1])
    ensures Occurs(head + rest, pattern) <==> Occurs(rest, pattern)
  {
    var whole := head + rest;
    if Occurs(whole, pattern) {
      var k :| 0 <= k <= |whole| - |pattern| && IsAt(whole, pattern, k);
      assert whole[k] == whole[k..k + |pattern|][0] && whole[k + 1] == whole[k..k + |pattern|][1];
      assert k >= |head|;
      assert rest[k - |head|..k - |head| + |pattern|] == whole[k..k + |pattern|];
      assert IsAt(rest, pattern, k - |head|);
    }
    if Occurs(rest, pattern) {
      var k :| 0 <= k <= |rest| - |pattern| && IsAt(rest, pattern, k);
      assert whole[|head| + k..|head| + k + |pattern|] == rest[k..k + |pattern|];
      assert IsAt(whole, pattern, |head| + k);
    }
  }

  lemma ClearedOccurs(rest: string)
    ensures Occurs(Tail(false, rest), " CLEARED:")
    ensures Occurs(Tail(false, rest), " ACTIVE:") <==> Occurs(rest, " ACTIVE:")
  {
    assert Tail(false, rest) == "] CLEARED:" + rest;
    assert IsAt(Tail(false, rest), " CLEARED:", 1);
    OccursBeyond("] CLEARED:", rest, " ACTIVE:");
  }

  lemma CodeFound(code: string, tail: string)
    requires code != "" && ']' !in code && tail != "" && tail[0] == ']'
    ensures ParseText(['['] + code + tail) == ParseTail(code, tail)
  {
    var message := ['['] + code + tail;
    assert message[1..] == code + tail;
    FindAfter(code, tail, ']');
    assert (code + tail)[..|code|] == code && (code + tail)[|code|..] == tail;
  }

  /** The parser on any text that begins like a printed one. */
  lemma ParseShape(code: string, active: bool, rest: string)
    requires IsCode(code)
    ensures ParseText(['['] + code + Tail(active, rest)) ==
            Parsed(code, active || Occurs(rest, " ACTIVE:"), Clip(SkipSpaces(rest), REASON_LENGTH))
  {
    CodeFound(code, Tail(active, rest));
    if active {
      ActiveTail(code, rest);
    } else {
      ClearedTail(code, rest);
    }
  }

  lemma TailAt(code: string, head: string, rest: string)
    requires ':' !in head
    requires Occurs(head + ":" + rest, " ACTIVE:") || Occurs(head + ":" + rest, " CLEARED:")
    ensures ParseTail(code, head + ":" + rest) ==
            Parsed(Clip(code, CODE_LENGTH), Occurs(head + ":" + rest, " ACTIVE:"),
                   Clip(SkipSpaces(rest), REASON_LENGTH))
  {
    ColonAt(head, rest);
  }

  lemma ActiveTail(code: string, rest: string)
    ensures ParseTail(code, Tail(true, rest)) == Parsed(Clip(code, CODE_LENGTH), true,
                                                        Clip(SkipSpaces(rest), REASON_LENGTH))
  {
    ActiveOccurs(rest);
    assert Tail(true, rest) == "] ACTIVE" + ":" + rest;
    TailAt(code, "] ACTIVE", rest);
  }

  lemma ClearedSplits(rest: string)
    ensures Tail(false, rest) == "] CLEARED" + ":" + rest
  {
  }

  lemma ClearedTail(code: string, rest: string)
    ensures ParseTail(code, Tail(false, rest)) ==
            Parsed(Clip(code, CODE_LENGTH), Occurs(rest, " ACTIVE:"), Clip(SkipSpaces(rest), REASON_LENGTH))
  {
    ClearedOccurs(rest);
    ClearedSplits(rest);
    TailAt(code, "] CLEARED", rest);
  }

  lemma ColonAt(head: string, rest: string)
    requires ':' !in head
    ensures Find(head + ":" + rest, ':') == |head| && (head + ":" + rest)[|head| + 1..] == rest
  {
    assert head + ":" + rest == head + (":" + rest);
    FindAfter(head, ":" + rest, ':');
  }

  /** What the buffer keeps of a text: a short NUL-free head always survives. */
  lemma KeepsHead(head: string, message: string) returns (rest: string)
    requires |head| < REASON_LENGTH && NUL !in head
    ensures rest <= message && NUL !in rest && Received(head + message) == head + rest
  {
    var text := head + message;
    var clipped := Clip(text, REASON_LENGTH);
    CStringIdentity(clipped);
    assert clipped[..|head|] == head;
    CStringKeeps(clipped, |head|);
    var kept := Received(text);
    rest := kept[|head|..];
    assert kept == head + rest;
    assert kept == text[..|kept|];
    assert rest == message[..|rest|];
  }

  lemma TailSplits(code: string, active: bool, rest: string)
    ensures ['['] + code + Tail(active, "") + rest == ['['] + code + Tail(active, rest)
  {
    assert Tail(active, "") + rest == Tail(active, rest);
  }

  lemma PrintSplits(code: string, active: bool, message: string)
    requires IsCode(code)
    ensures var head := ['['] + code + Tail(active, "");
            && |head| < REASON_LENGTH && NUL !in head
            && Print(code, active, message) == head + (" " + message)
            && forall rest :: head + rest == ['['] + code + Tail(active, rest)
  {
    forall rest
      ensures ['['] + code + Tail(active, "") + rest == ['['] + code + Tail(active, rest)
    {
      TailSplits(code, active, rest);
    }
    TailSplits(code, active, " " + message);
  }

  /** Code and state always survive the clipping; the reason loses at most its end. */
  lemma ReceivedShape(code: string, active: bool, message: string) returns (rest: string)
    requires IsCode(code)
    ensures rest <= " " + message && NUL !in rest
    ensures Received(Print(code, active, message)) == ['['] + code + Tail(active, rest)
    ensures rest == " " + message ==> Received(Print(code, active, message)) == Print(code, active, message)
  {
    PrintSplits(code, active, message);
    rest := KeepsHead(['['] + code + Tail(active, ""), " " + message);
  }

  predicate Quiet(message: string) {
    !Occurs(" " + message, " ACTIVE:")
  }

  lemma OccursInPrefix(part: string, whole: string, pattern: string)
    requires part <= whole && Occurs(part, pattern)
    ensures Occurs(whole, pattern)
  {
    var k :| 0 <= k <= |part| - |pattern| && IsAt(part, pattern, k);
    assert whole[k..k + |pattern|] == part[k..k + |pattern|];
    assert IsAt(whole, pattern, k);
  }

  /** Code and state come through whatever the length of the message, if a cleared one is quiet. */
  lemma KeyAndStateSurvive(code: string, active: bool, message: string)
    requires IsCode(code) && (active || Quiet(message))
    ensures var e := ParseText(Received(Print(code, active, message)));
            e.Parsed? && e.code == code && e.active == active
  {
    var rest := ReceivedShape(code, active, message);
    ParseShape(code, active, rest);
    if Occurs(rest, " ACTIVE:") {
      OccursInPrefix(rest, " " + message, " ACTIVE:");
    }
  }

  /** The texts that come back unchanged. */
  predicate Printable(code: string, active: bool, message: string) {
    && IsCode(code)
    && (message == "" || message[0] != ' ')
    && (active || Quiet(message))
    && |Print(code, active, message)| < REASON_LENGTH && NUL !in Print(code, active, message)
  }

  /** Parsing undoes printing exactly for the printable texts. */
  lemma ParseUndoesPrint(code: string, active: bool, message: string)
    ensures ParseText(Received(Print(code, active, message))) == Parsed(code, active, message) <==>
            Printable(code, active, message)
  {
    var received := Received(Print(code, active, message));
    CStringIdentity(Clip(Print(code, active, message), REASON_LENGTH));
    if Printable(code, active, message) {
      PrintableComesBack(code, active, message);
    } else if ParseText(received) == Parsed(code, active, message) {
      ParsedFacts(received);
      OnlyPrintableComesBack(code, active, message);
    }
  }

  lemma PrintableComesBack(code: string, active: bool, message: string)
    requires Printable(code, active, message)
    ensures ParseText(Received(Print(code, active, message))) == Parsed(code, active, message)
  {
    CStringIdentity(Print(code, active, message));
    PrintSplits(code, active, message);
    ParseShape(code, active, " " + message);
    assert (" " + message)[1..] == message;
  }

  lemma OnlyPrintableComesBack(code: string, active: bool, message: string)
    requires ParseText(Received(Print(code, active, message))) == Parsed(code, active, message)
    requires IsCode(code) && NUL !in message && (message == "" || message[0] != ' ')
    ensures Printable(code, active, message)
  {
    var rest := ReceivedShape(code, active, message);
    ParseShape(code, active, rest);
    PrintSplits(code, active, message);
    CStringIdentity(Clip(Print(code, active, message), REASON_LENGTH));
    if message != "" {
      SkipSpacesMeaning(rest);
      assert |message| <= |SkipSpaces(rest)| < |rest| by {
        assert rest[0] == (" " + message)[0] == ' ';
      }
      assert rest == " " + message;
    }
  }

  /** A reason that begins with no space arrives as far as the buffer has room behind code and state. */
  lemma ReasonIsCut(code: string, active: bool, message: string)
    requires IsCode(code) && (active || Quiet(message)) && (message == "" || message[0] != ' ')
    ensures |Print(code, active, "")| < REASON_LENGTH
    ensures var e := ParseText(Received(Print(code, active, message)));
            e.Parsed? && IsCut(e.reason, message, REASON_LENGTH - |Print(code, active, "")|)
  {
    var head, room := Print(code, active, ""), REASON_LENGTH - |Print(code, active, "")|;
    var reason := CString(Clip(message, room));
    PrintHead(code, active, message);
    ClippedIsCut(message, room);
    CStringBehind(head, Clip(message, room));
    assert Clip(head + message, REASON_LENGTH) == head + Clip(message, room);
    assert Received(Print(code, active, message)) == head + reason;
    PrintHead(code, active, reason);
    PrintTail(code, active, reason);
    ParseShape(code, active, " " + reason);
    KeyAndStateSurvive(code, active, message);
    assert SkipSpaces(" " + reason) == reason by { assert (" " + reason)[1..] == reason; }
  }

  lemma PrintHead(code: string, active: bool, message: string)
    requires IsCode(code)
    ensures Print(code, active, message) == Print(code, active, "") + message
    ensures NUL !in Print(code, active, "") && |Print(code, active, "")| < REASON_LENGTH
  {
    assert Print(code, active, "") + message == Print(code, active, message);
  }

  lemma PrintTail(code: string, active: bool, message: string)
    ensures Print(code, active, message) == ['['] + code + Tail(active, " " + message)
  {
    assert ['['] + code + Tail(active, " " + message) == Print(code, active, message);
  }

  // ----- which texts are events -----

  /** The code stands between the first opening bracket and the first closing one after it. */
  predicate IsCodeAt(message: string, open: nat, close: nat) {
    && open + 1 < close < |message|
    && message[open] == '[' && '[' !in message[..open]
    && message[close] == ']' && ']' !in message[open + 1..close]
  }

  /** One of the two states follows; the reason begins behind the first colon and the spaces after it. */
  predicate IsReasonAt(tail: string, colon: nat, start: nat) {
    && (Occurs(tail, " ACTIVE:") || Occurs(tail, " CLEARED:"))
    && colon < start <= |tail|
    && tail[colon] == ':' && ':' !in tail[..colon]
    && (forall k | colon < k < start :: tail[k] == ' ')
    && (start < |tail| ==> tail[start] != ' ')
  }

  ghost predicate IsEvent(message: string) {
    exists open: nat, close: nat, colon: nat, start: nat ::
      IsCodeAt(message, open, close) && IsReasonAt(message[close..], colon, start)
  }

  lemma {:induction false} FindIs(s: string, c: char, k: nat)
    requires k < |s| && s[k] == c && c !in s[..k]
    ensures Find(s, c) == k
  {
    if k > 0 {
      assert s[..k][0] == s[0] && s[..k][1..] == s[1..][..k - 1];
      FindIs(s[1..], c, k - 1);
    }
  }

  lemma {:induction false} SkipSpacesIs(s: string, k: nat)
    requires k <= |s| && (forall j | 0 <= j < k :: s[j] == ' ') && (k < |s| ==> s[k] != ' ')
    ensures SkipSpaces(s) == s[k..]
  {
    if k > 0 {
      SkipSpacesIs(s[1..], k - 1);
      assert s[1..][k - 1..] == s[k..];
    }
  }

  lemma StateHasColon(tail: string)
    requires Occurs(tail, " ACTIVE:") || Occurs(tail, " CLEARED:")
    ensures ':' in tail
  {
    if Occurs(tail, " ACTIVE:") {
      var k :| 0 <= k <= |tail| - 8 && IsAt(tail, " ACTIVE:", k);
      assert tail[k + 7] == tail[k..k + 8][7] == ':';
    } else {
      var k :| 0 <= k <= |tail| - 9 && IsAt(tail, " CLEARED:", k);
      assert tail[k + 8] == tail[k..k + 9][8] == ':';
    }
  }

  lemma TailParsedAt(code: string, tail: string, colon: nat, start: nat)
    requires IsReasonAt(tail, colon, start)
    ensures ParseTail(code, tail) ==
            Parsed(Clip(code, CODE_LENGTH), Occurs(tail, " ACTIVE:"), Clip(tail[start..], REASON_LENGTH))
  {
    FindIs(tail, ':', colon);
    SkipSpacesIs(tail[colon + 1..], start - colon - 1);
    assert tail[colon + 1..][start - colon - 1..] == tail[start..];
  }

  lemma CodeParsedAt(message: string, open: nat, close: nat)
    requires IsCodeAt(message, open, close)
    ensures ParseText(message) == ParseTail(message[open + 1..close], message[close..])
  {
    var inner := message[open + 1..];
    FindIs(message, '[', open);
    assert inner[..close - open - 1] == message[open + 1..close] && inner[close - open - 1..] == message[close..];
    FindIs(inner, ']', close - open - 1);
  }

  /** What the panel reads from a message with these places. */
  lemma ParsedAt(message: string, open: nat, close: nat, colon: nat, start: nat)
    requires IsCodeAt(message, open, close) && IsReasonAt(message[close..], colon, start)
    ensures ParseText(message) ==
            Parsed(Clip(message[open + 1..close], CODE_LENGTH), Occurs(message[close..], " ACTIVE:"),
                   Clip(message[close..][start..], REASON_LENGTH))
  {
    CodeParsedAt(message, open, close);
    TailParsedAt(message[open + 1..close], message[close..], colon, start);
  }

  lemma CodePlaces(message: string) returns (open: nat, close: nat)
    requires ParseText(message).Parsed?
    ensures IsCodeAt(message, open, close)
  {
    FindMeaning(message, '[');
    open := Find(message, '[');
    var inner := message[open + 1..];
    FindMeaning(inner, ']');
    close := open + 1 + Find(inner, ']');
    assert inner[..Find(inner, ']')] == message[open + 1..close];
  }

  lemma ReasonPlaces(tail: string) returns (colon: nat, start: nat)
    requires Occurs(tail, " ACTIVE:") || Occurs(tail, " CLEARED:")
    ensures IsReasonAt(tail, colon, start)
  {
    StateHasColon(tail);
    FindMeaning(tail, ':');
    colon := Find(tail, ':');
    start := colon + 1;
    while start < |tail| && tail[start] == ' '
      invariant colon < start <= |tail|
      invariant forall k | colon < k < start :: tail[k] == ' '
    {
      start := start + 1;
    }
  }

  /** The panel takes a message for an event exactly when it has a code, a state and a place for the
      reason. */
  lemma EventsAreExactly(message: string)
    ensures ParseText(message).Parsed? <==> IsEvent(message)
  {
    if ParseText(message).Parsed? {
      var open, close := CodePlaces(message);
      CodeParsedAt(message, open, close);
      var colon, start := ReasonPlaces(message[close..]);
    }
    if IsEvent(message) {
      var open: nat, close: nat, colon: nat, start: nat :|
        IsCodeAt(message, open, close) && IsReasonAt(message[close..], colon, start);
      ParsedAt(message, open, close, colon, start);
    }
  }
}
