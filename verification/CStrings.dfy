/** Texts as C sees them: bytes, written as characters, that end at the first NUL. */
module CStrings {

  const NUL: char := '\0'

  /** The C string that starts at the first byte: everything before the first NUL. */
  function CString(s: string): string {
    if s == "" || s[0] == NUL then "" else [s[0]] + CString(s[1..])
  }

  lemma {:induction false} CStringIdentity(s: string)
    ensures CString(s) == s <==> NUL !in s
    ensures NUL !in CString(s)
    ensures CString(s) <= s
    ensures NUL in s ==> |CString(s)| < |s|
  {
    if s != "" && s[0] != NUL {
      CStringIdentity(s[1..]);
      assert s == [s[0]] + s[1..];
      assert CString(s)[1..] == CString(s[1..]);
    }
  }

  /** What fits in a buffer of `size` bytes besides the terminating NUL. */
  function Clip(s: string, size: nat): string
    requires size > 0
  {
    if |s| < size then s else s[..size - 1]
  }

  /** `cut` is as much of `text` as a buffer of `size` bytes shows: up to the first NUL, and no more than
      leaves room for the terminator. */
  predicate IsCut(cut: string, text: string, size: nat) {
    && cut <= text && NUL !in cut && |cut| < size
    && (|cut| == |text| || |cut| == size - 1 || text[|cut|] == NUL)
  }

  lemma ClippedIsCut(text: string, size: nat)
    requires size > 0
    ensures IsCut(CString(Clip(text, size)), text, size)
  {
    var clipped := Clip(text, size);
    CStringIdentity(clipped);
    CStringStops(clipped);
  }

  /** What follows the C string in its buffer is a NUL or nothing. */
  lemma {:induction false} CStringStops(s: string)
    ensures CString(s) <= s
    ensures |CString(s)| == |s| || s[|CString(s)|] == NUL
  {
    CStringIdentity(s);
    if s != "" && s[0] != NUL {
      CStringStops(s[1..]);
    }
  }

  lemma {:induction false} CStringBehind(head: string, rest: string)
    requires NUL !in head
    ensures CString(head + rest) == head + CString(rest)
  {
    if head == "" {
      assert head + rest == rest;
    } else {
      assert (head + rest)[1..] == head[1..] + rest;
      CStringBehind(head[1..], rest);
    }
  }

  lemma {:induction false} CStringKeeps(s: string, k: nat)
    requires k <= |s| && NUL !in s[..k]
    ensures s[..k] <= CString(s)
  {
    if k > 0 {
      assert s[..k][0] == s[0] && s[..k][1..] == s[1..][..k - 1];
      CStringKeeps(s[1..], k - 1);
    }
  }

  /** The first position of a byte, or the length. */
  function Find(s: string, c: char): nat {
    if s == "" || s[0] == c then 0 else 1 + Find(s[1..], c)
  }

  lemma {:induction false} FindMeaning(s: string, c: char)
    ensures Find(s, c) <= |s|
    ensures Find(s, c) < |s| ==> s[Find(s, c)] == c
    ensures c !in s[..Find(s, c)]
    ensures Find(s, c) == |s| <==> c !in s
  {
    if s != "" && s[0] != c {
      FindMeaning(s[1..], c);
      assert s == [s[0]] + s[1..];
      assert s[..Find(s, c)] == [s[0]] + s[1..][..Find(s[1..], c)];
    }
  }

  lemma {:induction false} FindAfter(a: string, b: string, c: char)
    requires c !in a
    ensures Find(a + b, c) == |a| + Find(b, c)
  {
    if a == "" {
      assert a + b == b;
    } else {
      assert (a + b)[1..] == a[1..] + b;
      FindAfter(a[1..], b, c);
    }
  }

  /** The text in a buffer: the bytes before its terminator. */
  ghost predicate Holds(buffer: seq<char>, text: string) {
    |text| < |buffer| && buffer[..|text|] == text && buffer[|text|] == NUL
  }
}
