/** The display form of browse names: camel case, digits and underscores become spaced words. */
module HumanName {
  import opened CStrings

  predicate IsUpper(c: char) { 'A' <= c <= 'Z' }
  predicate IsLower(c: char) { 'a' <= c <= 'z' }
  predicate IsDigit(c: char) { '0' <= c <= '9' }
  predicate IsDash(c: char) { c == '_' || c == '-' }

  /** Where a word begins inside a name. */
  predicate BeginsWord(previous: char, current: char, next: char) {
    || (IsUpper(current) && (IsLower(previous) || (IsUpper(previous) && IsLower(next))))
    || (IsDigit(current) && (IsLower(previous) || IsUpper(previous)))
    || ((IsLower(current) || IsUpper(current)) && IsDigit(previous))
  }

  /** A word begins at byte i of `s`; `last` follows its last byte. */
  predicate WordAt(s: string, i: nat, last: char)
    requires i < |s|
  {
    i > 0 && BeginsWord(s[i - 1], s[i], if i + 1 < |s| then s[i + 1] else last)
  }

  predicate EndsWithSpace(s: string) {
    s != "" && s[|s| - 1] == ' '
  }

  /** A separator is due before byte i when `written` has been written for the bytes before it. */
  predicate Separates(source: string, i: nat, written: string)
    requires i < |source|
  {
    written != "" && !EndsWithSpace(written) && (IsDash(source[i]) || WordAt(source, i, NUL))
  }

  /** What byte i of the source adds to what has been written. */
  function Piece(source: string, i: nat, written: string): string
    requires i < |source|
  {
    (if Separates(source, i, written) then " " else "") + (if IsDash(source[i]) then "" else [source[i]])
  }

  /** The text written for the first n bytes. */
  function Spaced(source: string, n: nat): string
    requires n <= |source|
  {
    if n == 0 then "" else Spaced(source, n - 1) + Piece(source, n - 1, Spaced(source, n - 1))
  }

  function Trimmed(s: string): string {
    if EndsWithSpace(s) then Trimmed(s[..|s| - 1]) else s
  }

  function Capitalized(s: string): string {
    if s != "" && IsLower(s[0]) then [s[0] - ' '] + s[1..] else s
  }

  /** The display form of the first n bytes. */
  function Shown(source: string, n: nat): string
    requires n <= |source|
  {
    Capitalized(Trimmed(Spaced(source, n)))
  }

  function Humanized(source: string): string {
    Shown(source, |source|)
  }

  // ----- size -----

  lemma {:induction false} AtMostTwice(source: string, n: nat)
    requires n <= |source|
    ensures |Spaced(source, n)| <= 2 * n
  {
    if n > 0 {
      AtMostTwice(source, n - 1);
    }
  }

  lemma {:induction false} TrimmedIsPrefix(s: string)
    ensures Trimmed(s) <= s && !EndsWithSpace(Trimmed(s))
    ensures forall i | |Trimmed(s)| <= i < |s| :: s[i] == ' '
  {
    if EndsWithSpace(s) {
      TrimmedIsPrefix(s[..|s| - 1]);
    }
  }

  /** A display name is at most twice as long as the browse name. */
  lemma HumanizedLength(source: string)
    ensures |Humanized(source)| <= 2 * |source|
  {
    AtMostTwice(source, |source|);
    TrimmedIsPrefix(Spaced(source, |source|));
  }

  // ----- content -----

  predicate IsSeparator(c: char) { c == ' ' || IsDash(c) }

  function Letter(c: char): string {
    if IsSeparator(c) then "" else [c]
  }

  /** The characters of a text without separators. */
  function Letters(s: string): string {
    if s == "" then "" else Letters(s[..|s| - 1]) + Letter(s[|s| - 1])
  }

  lemma LettersOfOne(c: char)
    ensures Letters([c]) == Letter(c)
  {
    assert [c][..0] == "";
  }

  lemma {:induction false} LettersConcat(a: string, b: string)
    ensures Letters(a + b) == Letters(a) + Letters(b)
  {
    if b == "" {
      assert a + b == a;
    } else {
      var c := b[|b| - 1];
      assert (a + b)[..|a + b| - 1] == a + b[..|b| - 1];
      LettersConcat(a, b[..|b| - 1]);
      assert (Letters(a) + Letters(b[..|b| - 1])) + Letter(c) == Letters(a) + (Letters(b[..|b| - 1]) + Letter(c));
    }
  }

  lemma PieceLetters(source: string, i: nat, written: string)
    requires i < |source|
    ensures Letters(Piece(source, i, written)) == Letter(source[i])
  {
    var gap := if Separates(source, i, written) then " " else "";
    var body := if IsDash(source[i]) then "" else [source[i]];
    LettersConcat(gap, body);
    LettersOfOne(' ');
    LettersOfOne(source[i]);
  }

  lemma LettersStep(a: string, b: string, piece: string, c: char, after: string, taken: string)
    requires Letters(a) == Letters(b) && Letters(piece) == Letter(c)
    requires after == a + piece && taken == b + [c]
    ensures Letters(after) == Letters(taken)
  {
    LettersConcat(a, piece);
    LettersConcat(b, [c]);
    LettersOfOne(c);
  }

  lemma SpacedNext(source: string, n: nat)
    requires 0 < n <= |source|
    ensures Spaced(source, n) == Spaced(source, n - 1) + Piece(source, n - 1, Spaced(source, n - 1))
  {
  }

  lemma TakeOne(s: string, n: nat)
    requires 0 < n <= |s|
    ensures s[..n] == s[..n - 1] + [s[n - 1]]
  {
  }

  lemma {:induction false} SpacedKeepsLetters(source: string, n: nat, taken: string)
    requires n <= |source| && taken == source[..n]
    ensures Letters(Spaced(source, n)) == Letters(taken)
  {
    if n > 0 {
      var before, fewer := Spaced(source, n - 1), source[..n - 1];
      SpacedKeepsLetters(source, n - 1, fewer);
      SpacedNext(source, n);
      TakeOne(source, n);
      PieceLetters(source, n - 1, before);
      LettersStep(before, fewer, Piece(source, n - 1, before), source[n - 1], Spaced(source, n), taken);
    }
  }

  lemma {:induction false} TrimmedKeepsLetters(s: string)
    ensures Letters(Trimmed(s)) == Letters(s)
  {
    if EndsWithSpace(s) {
      TrimmedKeepsLetters(s[..|s| - 1]);
    }
  }

  lemma LettersOfFirst(c: char, rest: string, s: string)
    requires !IsSeparator(c) && s == [c] + rest
    ensures Letters(s) == [c] + Letters(rest)
  {
    LettersConcat([c], rest);
    LettersOfOne(c);
  }

  lemma CapitalFirst(c: char, rest: string, s: string, t: string)
    requires IsLower(c) && s == [c] + rest && t == [c - ' '] + rest
    ensures Letters(t) == Capitalized(Letters(s))
  {
    LettersOfFirst(c, rest, s);
    LettersOfFirst(c - ' ', rest, t);
    assert ([c] + Letters(rest))[1..] == Letters(rest);
  }

  lemma CapitalizedLetters(s: string, t: string)
    requires t == Capitalized(s)
    ensures Letters(t) == Letters(s) || Letters(t) == Capitalized(Letters(s))
  {
    if t != s {
      CapitalFirst(s[0], s[1..], s, t);
    }
  }

  /** Humanizing keeps the characters of the name in their order, up to separators and the first
      capital. */
  lemma HumanizedKeepsLetters(source: string)
    ensures Letters(Humanized(source)) == Letters(source) || Letters(Humanized(source)) == Capitalized(Letters(source))
  {
    SpacedKeepsLetters(source, |source|, source);
    TrimmedKeepsLetters(Spaced(source, |source|));
    CapitalizedLetters(Trimmed(Spaced(source, |source|)), Humanized(source));
  }

  // ----- idempotence -----

  /** No word begins inside `s` without a space before it; `last` follows the last byte. */
  ghost predicate WordsSpaced(s: string, last: char) {
    && (forall i | 0 <= i < |s| :: !IsDash(s[i]))
    && (forall i | 0 <= i < |s| :: !WordAt(s, i, last))
  }

  ghost predicate IsDisplayForm(s: string) {
    WordsSpaced(s, NUL) && !EndsWithSpace(s) && (s != "" ==> !IsLower(s[0]))
  }

  /** No dash, and no place where a word begins right behind another: no capital behind a small letter,
      none between a capital and a small letter, no digit behind a letter and no letter behind a digit. */
  ghost predicate WordsApart(s: string) {
    && '_' !in s && '-' !in s
    && (forall i | 0 < i < |s| :: !('a' <= s[i - 1] <= 'z' && 'A' <= s[i] <= 'Z'))
    && (forall i | 0 < i < |s| - 1 ::
          !('A' <= s[i - 1] <= 'Z' && 'A' <= s[i] <= 'Z' && 'a' <= s[i + 1] <= 'z'))
    && (forall i | 0 < i < |s| ::
          !(('a' <= s[i - 1] <= 'z' || 'A' <= s[i - 1] <= 'Z') && '0' <= s[i] <= '9'))
    && (forall i | 0 < i < |s| ::
          !('0' <= s[i - 1] <= '9' && ('a' <= s[i] <= 'z' || 'A' <= s[i] <= 'Z')))
  }

  lemma SpacedIsApart(s: string)
    ensures WordsSpaced(s, NUL) <==> WordsApart(s)
  {
    if WordsSpaced(s, NUL) {
      assert forall i | 0 <= i < |s| :: !WordAt(s, i, NUL) && !IsDash(s[i]);
      assert WordsApart(s);
    }
    if WordsApart(s) {
      forall i | 0 <= i < |s|
        ensures !WordAt(s, i, NUL) && !IsDash(s[i])
      {
        assert s[i] in s;
      }
    }
  }

  /** The words of every display name are apart, and a name whose words are apart gets no separator. */
  lemma SeparatorsWhereWordsMeet(source: string)
    ensures WordsApart(Humanized(source))
    ensures WordsApart(source) ==> Humanized(source) == Capitalized(Trimmed(source))
  {
    DisplayFormReached(source);
    SpacedIsApart(Humanized(source));
    SpacedIsApart(source);
    if WordsApart(source) {
      DisplayFormIsKept(source, |source|);
      assert source[..|source|] == source;
    }
  }

  /** A separator closes a text with spaced words whatever comes after it. */
  lemma SpaceCloses(s: string, last: char, next: char)
    requires WordsSpaced(s, last)
    ensures WordsSpaced(s + " ", next)
  {
    var t := s + " ";
    forall k | 0 <= k < |t|
      ensures !WordAt(t, k, next)
    {
      if k < |s| {
        assert !WordAt(s, k, last);
      }
    }
  }

  /** A byte that begins no word keeps the words spaced. */
  lemma ByteExtends(s: string, c: char, next: char)
    requires WordsSpaced(s, c) && !IsDash(c)
    requires s != "" ==> !BeginsWord(s[|s| - 1], c, next)
    ensures WordsSpaced(s + [c], next)
  {
    var t := s + [c];
    forall k | 0 <= k < |t|
      ensures !WordAt(t, k, next)
    {
      if k < |s| {
        assert !WordAt(s, k, c);
      }
    }
  }

  /** What follows a separator does not matter. */
  lemma SpaceShields(s: string, last: char, next: char)
    requires WordsSpaced(s, last) && (s == "" || EndsWithSpace(s))
    ensures WordsSpaced(s, next)
  {
    forall k | 0 <= k < |s|
      ensures !WordAt(s, k, next)
    {
      assert !WordAt(s, k, last);
    }
  }

  function ByteAt(s: string, i: nat): char {
    if i < |s| then s[i] else NUL
  }

  /** The last byte written is the previous source byte unless it is a separator. */
  ghost predicate LastIsSource(source: string, n: nat, written: string)
    requires n <= |source|
  {
    written != "" && !EndsWithSpace(written) ==> n > 0 && written[|written| - 1] == source[n - 1]
  }

  lemma PieceIsSpaced(source: string, i: nat, before: string)
    requires i < |source| && WordsSpaced(before, source[i]) && LastIsSource(source, i, before)
    ensures WordsSpaced(before + Piece(source, i, before), ByteAt(source, i + 1))
    ensures LastIsSource(source, i + 1, before + Piece(source, i, before))
  {
    var c, next := source[i], ByteAt(source, i + 1);
    if Separates(source, i, before) {
      SpaceCloses(before, c, if IsDash(c) then next else c);
      if IsDash(c) {
        assert before + Piece(source, i, before) == before + " ";
      } else {
        ByteExtends(before + " ", c, next);
        assert before + Piece(source, i, before) == before + " " + [c];
      }
    } else if IsDash(c) {
      SpaceShields(before, c, next);
      assert before + Piece(source, i, before) == before;
    } else {
      ByteExtends(before, c, next);
      assert Piece(source, i, before) == [c];
    }
  }

  lemma {:induction false} SpacedIsSpaced(source: string, n: nat)
    requires n <= |source|
    ensures WordsSpaced(Spaced(source, n), ByteAt(source, n))
    ensures LastIsSource(source, n, Spaced(source, n))
  {
    if n > 0 {
      SpacedIsSpaced(source, n - 1);
      PieceIsSpaced(source, n - 1, Spaced(source, n - 1));
    }
  }

  /** Cutting off trailing spaces leaves the words spaced. */
  lemma PrefixIsSpaced(s: string, n: nat)
    requires WordsSpaced(s, NUL) && n <= |s| && (forall i | n <= i < |s| :: s[i] == ' ')
    ensures WordsSpaced(s[..n], NUL)
  {
    forall k | 0 <= k < n
      ensures !WordAt(s[..n], k, NUL)
    {
      assert !WordAt(s, k, NUL);
    }
  }

  /** Making the first letter a capital begins no word. */
  lemma CapitalIsSpaced(s: string)
    requires WordsSpaced(s, NUL)
    ensures WordsSpaced(Capitalized(s), NUL)
  {
    var t := Capitalized(s);
    forall k | 0 <= k < |t|
      ensures !WordAt(t, k, NUL)
    {
      assert !WordAt(s, k, NUL);
    }
  }

  lemma DisplayFormReached(source: string)
    ensures IsDisplayForm(Humanized(source))
  {
    var spaced := Spaced(source, |source|);
    SpacedIsSpaced(source, |source|);
    TrimmedIsPrefix(spaced);
    var trimmed := Trimmed(spaced);
    PrefixIsSpaced(spaced, |trimmed|);
    assert trimmed == spaced[..|trimmed|];
    CapitalIsSpaced(trimmed);
  }

  lemma {:induction false} DisplayFormIsKept(s: string, n: nat)
    requires WordsSpaced(s, NUL) && n <= |s|
    ensures Spaced(s, n) == s[..n]
  {
    if n > 0 {
      DisplayFormIsKept(s, n - 1);
      assert !WordAt(s, n - 1, NUL);
      assert s[..n] == s[..n - 1] + [s[n - 1]];
    }
  }

  /** A display name is its own display name. */
  lemma HumanizeIsIdempotent(source: string)
    ensures Humanized(Humanized(source)) == Humanized(source)
  {
    var shown := Humanized(source);
    DisplayFormReached(source);
    DisplayFormIsKept(shown, |shown|);
    assert shown[..|shown|] == shown;
  }

  /** A name of two parts whose words are apart: the dash between them becomes a space. */
  lemma {:induction false} SpacedAcrossDash(a: string, b: string, dash: char, n: nat)
    requires WordsSpaced(a, NUL) && WordsSpaced(b, NUL) && a != "" && !EndsWithSpace(a) && IsDash(dash)
    requires n <= |a| + 1 + |b|
    ensures Spaced(a + [dash] + b, n) == (a + " " + b)[..n]
  {
    var s, t := a + [dash] + b, a + " " + b;
    if n > 0 {
      SpacedAcrossDash(a, b, dash, n - 1);
      var i := n - 1;
      assert t[..n] == t[..i] + [t[i]];
      if i < |a| {
        assert s[i] == a[i] && !WordAt(a, i, NUL) && !IsDash(a[i]);
      } else if i == |a| {
        assert t[..i] == a && s[i] == dash;
      } else {
        var j := i - |a| - 1;
        assert s[i] == b[j] && !WordAt(b, j, NUL) && !IsDash(b[j]);
        assert s[i - 1] == if j == 0 then dash else b[j - 1];
      }
    }
  }

  lemma DashBecomesSpace(a: string, b: string, dash: char)
    requires WordsApart(a) && WordsApart(b) && a != "" && b != "" && !EndsWithSpace(a) && !EndsWithSpace(b)
    requires dash == '_' || dash == '-'
    ensures Humanized(a + [dash] + b) == Capitalized(a + " " + b)
  {
    SpacedIsApart(a);
    SpacedIsApart(b);
    SpacedAcrossDash(a, b, dash, |a| + 1 + |b|);
    TextAcrossDash(a + " " + b, a, b);
    NothingToTrim(a + [dash] + b, a + " " + b);
  }

  lemma TextAcrossDash(t: string, a: string, b: string)
    requires t == a + " " + b && b != "" && !EndsWithSpace(b)
    ensures t[..|a| + 1 + |b|] == t && !EndsWithSpace(t)
  {
  }

  lemma NothingToTrim(source: string, spaced: string)
    requires Spaced(source, |source|) == spaced && !EndsWithSpace(spaced)
    ensures Humanized(source) == Capitalized(spaced)
  {
  }

  // ----- the buffer -----

  /** Where the scan of the source stops: at its end, or with room for less than one byte. */
  function StopsAt(source: string, n: nat, size: nat): (stop: nat)
    requires n <= |source|
    ensures n <= stop <= |source|
    decreases |source| - n
  {
    if n == |source| || |Spaced(source, n)| + 1 >= size then n else StopsAt(source, n + 1, size)
  }

  /** A separator and its letter are written together although there is room for only one of them. */
  ghost predicate SpacedAtTheEdge(source: string, size: nat) {
    exists i :: 0 <= i < |source| && EdgeAt(source, i, size)
  }

  predicate EdgeAt(source: string, i: nat, size: nat)
    requires i < |source|
  {
    |Spaced(source, i)| + 2 == size && !IsDash(source[i]) && Separates(source, i, Spaced(source, i))
  }

  lemma {:induction false} SpacedGrows(source: string, m: nat, n: nat)
    requires m <= n <= |source|
    ensures |Spaced(source, m)| <= |Spaced(source, n)|
  {
    if m < n {
      SpacedGrows(source, m, n - 1);
    }
  }

  ghost predicate EdgeFrom(source: string, n: nat, size: nat) {
    exists i :: n <= i < |source| && EdgeAt(source, i, size)
  }

  lemma NoEdgeBeyond(source: string, n: nat, size: nat)
    requires n <= |source| && |Spaced(source, n)| + 1 >= size
    ensures !EdgeFrom(source, n, size)
  {
    forall i | n <= i < |source|
      ensures !EdgeAt(source, i, size)
    {
      SpacedGrows(source, n, i);
    }
  }

  lemma EdgeFromNext(source: string, n: nat, size: nat)
    requires n < |source|
    ensures EdgeFrom(source, n, size) <==> EdgeAt(source, n, size) || EdgeFrom(source, n + 1, size)
  {
  }

  /** One more byte of the source takes at most two places, and two only at an edge. */
  lemma NextPieceFits(source: string, n: nat, size: nat)
    requires n < |source| && |Spaced(source, n)| + 1 < size
    ensures |Spaced(source, n + 1)| <= size
    ensures |Spaced(source, n + 1)| == size <==> EdgeAt(source, n, size)
  {
  }

  lemma {:induction false} StopLeavesRoom(source: string, n: nat, size: nat)
    requires n <= |source| && |Spaced(source, n)| < size
    ensures |Spaced(source, StopsAt(source, n, size))| <= size
    ensures |Spaced(source, StopsAt(source, n, size))| == size <==> EdgeFrom(source, n, size)
    decreases |source| - n
  {
    if n < |source| {
      EdgeFromNext(source, n, size);
      if |Spaced(source, n)| + 1 < size {
        NextPieceFits(source, n, size);
        if !EdgeAt(source, n, size) {
          StopLeavesRoom(source, n + 1, size);
        }
      } else {
        NoEdgeBeyond(source, n, size);
      }
    }
  }

  /** The text and its terminator fit exactly when no separator falls on the last place but one. */
  lemma TerminatorFitsIffNoEdge(source: string, size: nat)
    requires size > 0
    ensures |Spaced(source, StopsAt(source, 0, size))| < size <==> !SpacedAtTheEdge(source, size)
  {
    StopLeavesRoom(source, 0, size);
  }

  /** "aB" in a buffer of three bytes: the separator and the letter take the terminator's place. */
  lemma TerminatorCanLackRoom()
    ensures SpacedAtTheEdge("aB", 3)
    ensures |Spaced("aB", StopsAt("aB", 0, 3))| == 3
  {
    assert Spaced("aB", 1) == "a";
    assert EdgeAt("aB", 1, 3);
    StopLeavesRoom("aB", 0, 3);
  }

  /** A buffer of more than twice the length of the name shows all of it. */
  lemma {:induction false} LongBufferShowsAll(source: string, n: nat, size: nat)
    requires n <= |source| && 2 * |source| < size
    ensures StopsAt(source, n, size) == |source|
    ensures !SpacedAtTheEdge(source, size)
    decreases |source| - n
  {
    forall i | 0 <= i < |source|
      ensures !EdgeAt(source, i, size) && |Spaced(source, i)| + 1 < size
    {
      AtMostTwice(source, i);
    }
    if n < |source| {
      LongBufferShowsAll(source, n + 1, size);
    }
  }

  /** Drops the separators at the end of the first n bytes of `destination`. */
  method Trim(destination: array<char>, n: nat) returns (length: nat)
    requires n <= destination.Length
    ensures length <= n && destination[..length] == Trimmed(destination[..n])
  {
    length := n;
    while length > 0 && destination[length - 1] == ' '
      invariant length <= n
      invariant Trimmed(destination[..length]) == Trimmed(destination[..n])
    {
      ghost var s := destination[..length];
      assert s[length - 1] == destination[length - 1];
      assert s[..length - 1] == destination[..length - 1];
      length := length - 1;
    }
    assert length > 0 ==> destination[..length][length - 1] == destination[length - 1];
  }

  /** Writes what one byte of the name adds behind the n bytes already written. */
  method WritePiece(destination: array<char>, n: nat, source: string, i: nat, previous: char) returns (length: nat)
    requires i < |source| && n + 1 < destination.Length
    requires n + |Piece(source, i, destination[..n])| <= destination.Length
    requires previous == if i == 0 then NUL else source[i - 1]
    modifies destination
    ensures length <= destination.Length
    ensures destination[..length] == old(destination[..n]) + Piece(source, i, old(destination[..n]))
  {
    length := n;
    ghost var written := destination[..n];
    assert n > 0 ==> written[n - 1] == destination[n - 1];
    var current := source[i];
    var next := ByteAt(source, i + 1);
    if IsDash(current) {
      if length > 0 && destination[length - 1] != ' ' {
        destination[length] := ' ';
        length := length + 1;
      }
    } else {
      var needsSeparator := length > 0 && destination[length - 1] != ' ' && BeginsWord(previous, current, next);
      assert needsSeparator == Separates(source, i, written);
      if needsSeparator && length + 1 < destination.Length {
        destination[length] := ' ';
        length := length + 1;
      }
      destination[length] := current;
      length := length + 1;
    }
  }

  /** Ends the text and gives it its capital. */
  method Finish(destination: array<char>, n: nat)
    requires n < destination.Length
    modifies destination
    ensures Holds(destination[..], Capitalized(old(destination[..n])))
  {
    ghost var text := destination[..n];
    destination[n] := NUL;
    assert destination[..n] == text;
    if IsLower(destination[0]) {
      destination[0] := destination[0] - ' ';
    }
    assert destination[..][..n] == Capitalized(text);
  }

  lemma PieceFits(source: string, i: nat, size: nat)
    requires i < |source| && |Spaced(source, i)| + 1 < size && !EdgeAt(source, i, size)
    ensures Spaced(source, i + 1) == Spaced(source, i) + Piece(source, i, Spaced(source, i))
    ensures |Spaced(source, i + 1)| < size
  {
  }

  /** Fills `destination` with the display form of as much of the name as has room. */
  method HumanizeName(destination: array<char>, source: string)
    requires NUL !in source && !SpacedAtTheEdge(source, destination.Length)
    modifies destination
    ensures destination.Length > 0 ==>
              Holds(destination[..], Shown(source, StopsAt(source, 0, destination.Length)))
  {
    if destination.Length == 0 { return; }
    var sourceIndex, destinationIndex := 0, 0;
    var previous := NUL;
    while sourceIndex < |source| && destinationIndex + 1 < destination.Length
      invariant sourceIndex <= |source|
      invariant 0 <= destinationIndex < destination.Length
      invariant StopsAt(source, sourceIndex, destination.Length) == StopsAt(source, 0, destination.Length)
      invariant destination[..destinationIndex] == Spaced(source, sourceIndex)
      invariant previous == if sourceIndex == 0 then NUL else source[sourceIndex - 1]
    {
      PieceFits(source, sourceIndex, destination.Length);
      destinationIndex := WritePiece(destination, destinationIndex, source, sourceIndex, previous);
      previous := source[sourceIndex];
      sourceIndex := sourceIndex + 1;
    }
    destinationIndex := Trim(destination, destinationIndex);
    Finish(destination, destinationIndex);
  }
}
