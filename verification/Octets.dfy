/**
 * Octet strings and UTF-8.
 *
 * An octet is a `char` with a code below 256, so that protocol text can be
 * written as ordinary string literals.  A code of 256 or more is no octet of a
 * UTF-8 sequence; every statement holds for such strings too.
 */
module Octets {

  const NUL: char := '\0'
  const CR: char := '\r'
  const LF: char := '\n'
  const CRLF: string := [CR, LF]

  datatype Option<+T> = None | Some(value: T)

  /** The position of the first `c` in `s`, or `|s|` when there is none. */
  function Find(s: string, c: char): (n: nat)
    ensures n <= |s|
    ensures c !in s[..n]
    ensures n < |s| ==> s[n] == c
  {
    FindFrom(s, c, 0)
  }

  function FindFrom(s: string, c: char, i: nat): (n: nat)
    requires i <= |s| && c !in s[..i]
    ensures i <= n <= |s|
    ensures c !in s[..n]
    ensures n < |s| ==> s[n] == c
    decreases |s| - i
  {
    if i == |s| || s[i] == c then i else FindFrom(s, c, i + 1)
  }

  /** `Find` is the only position with its defining properties. */
  lemma FindUnique(s: string, c: char, n: nat)
    requires n <= |s| && c !in s[..n]
    requires n < |s| ==> s[n] == c
    ensures Find(s, c) == n
  {
  }

  /** Searching past a prefix that is free of the searched octet. */
  lemma FindAfter(a: string, b: string, c: char)
    requires c !in a
    ensures Find(a + b, c) == |a| + Find(b, c)
  {
    var n := Find(b, c);
    assert (a + b)[..|a| + n] == a + b[..n];
    FindUnique(a + b, c, |a| + n);
  }

  /** A head and, if there is a tail, the separator and the tail. */
  function Join(head: string, c: char, tail: Option<string>): string {
    if tail.Some? then head + [c] + tail.value else head
  }

  /** The parts before and after the first `c`. */
  function Cut(s: string, c: char): (r: (string, Option<string>))
    ensures c !in r.0 && s == Join(r.0, c, r.1)
  {
    var n := Find(s, c);
    if n == |s| then (s, None) else (s[..n], Some(s[n + 1..]))
  }

  /** `Cut` undoes `Join`. */
  lemma CutJoin(head: string, c: char, tail: Option<string>)
    requires c !in head
    ensures Cut(Join(head, c, tail), c) == (head, tail)
  {
    var s := Join(head, c, tail);
    if tail.Some? {
      assert s == head + ([c] + tail.value);
      FindAfter(head, [c] + tail.value, c);
      assert s[..|head|] == head && s[|head| + 1..] == tail.value;
    } else {
      FindUnique(s, c, |s|);
    }
  }

  predicate IsContinuation(c: char) {
    0x80 <= c as int <= 0xBF
  }

  /**
   * The length of the UTF-8 sequence at the front of `s` (RFC 3629, section 4),
   * or 0 when `s` does not start with a well-formed sequence.
   */
  function Width(s: string): (w: nat)
    ensures w <= |s| && w <= 4
    ensures s != [] && s[0] as int < 0x80 ==> w == 1
  {
    if s == [] then 0
    else
      var a := s[0] as int;
      if a < 0x80 then 1
      else if |s| >= 2 && 0xC2 <= a <= 0xDF && IsContinuation(s[1]) then 2
      else if |s| >= 3 && IsContinuation(s[2]) && (
                || (a == 0xE0 && 0xA0 <= s[1] as int <= 0xBF)
                || (0xE1 <= a <= 0xEC && IsContinuation(s[1]))
                || (a == 0xED && 0x80 <= s[1] as int <= 0x9F)
                || (0xEE <= a <= 0xEF && IsContinuation(s[1]))) then 3
      else if |s| >= 4 && IsContinuation(s[2]) && IsContinuation(s[3]) && (
                || (a == 0xF0 && 0x90 <= s[1] as int <= 0xBF)
                || (0xF1 <= a <= 0xF3 && IsContinuation(s[1]))
                || (a == 0xF4 && 0x80 <= s[1] as int <= 0x8F)) then 4
      else 0
  }

  predicate ValidUtf8(s: string)
    decreases |s|
  {
    s == [] || (Width(s) > 0 && ValidUtf8(s[Width(s)..]))
  }

  /**
   * The length of the character that `str::chars` yields next.  On the strings
   * Rust calls `str` this is `Width`; one octet is taken elsewhere.
   */
  function CharLen(s: string): (n: nat)
    requires s != []
    ensures 1 <= n <= |s|
    ensures n > 1 ==> forall i :: 0 <= i < n ==> s[i] as int >= 0x80
  {
    if Width(s) > 0 then Width(s) else 1
  }

  lemma WidthExtends(a: string, b: string)
    requires Width(a) > 0
    ensures Width(a + b) == Width(a)
  {
  }

  /** The character at the front is a sequence of its own. */
  lemma WidthOfFirst(s: string)
    requires Width(s) > 0
    ensures Width(s[..Width(s)]) == Width(s)
    ensures ValidUtf8(s[..Width(s)])
  {
    var c := s[..Width(s)];
    assert c[Width(c)..] == [];
  }

  lemma {:induction false} ValidConcat(a: string, b: string)
    requires ValidUtf8(a) && ValidUtf8(b)
    ensures ValidUtf8(a + b)
    decreases |a|
  {
    if a == [] {
      assert a + b == b;
    } else {
      WidthExtends(a, b);
      assert (a + b)[Width(a)..] == a[Width(a)..] + b;
      ValidConcat(a[Width(a)..], b);
    }
  }

  lemma {:induction false} ValidAscii(s: string)
    requires forall i :: 0 <= i < |s| ==> s[i] as int < 0x80
    ensures ValidUtf8(s)
    decreases |s|
  {
    if s != [] {
      ValidAscii(s[1..]);
    }
  }

  /** Octets that may not stand inside a line. */
  predicate IsLineBreaking(c: char) {
    c == NUL || c == CR || c == LF
  }

  predicate Clean(s: string) {
    forall i :: 0 <= i < |s| ==> !IsLineBreaking(s[i])
  }

  lemma CleanConcat(a: string, b: string)
    requires Clean(a) && Clean(b)
    ensures Clean(a + b)
  {
  }

  /** Clean and without spaces, so that it stays one piece when a line is split. */
  predicate Solid(s: string) {
    forall i :: 0 <= i < |s| ==> s[i] != ' ' && !IsLineBreaking(s[i])
  }

  lemma SolidHasNoSpace(s: string)
    requires Solid(s)
    ensures ' ' !in s
  {
  }

  lemma SolidParts(head: string, c: char, tail: Option<string>)
    requires Solid(Join(head, c, tail))
    ensures Solid(head) && (tail.Some? ==> Solid(tail.value))
  {
    var s := Join(head, c, tail);
    assert head == s[..|head|];
    assert tail.Some? ==> tail.value == s[|head| + 1..];
  }

  predicate IsDigit(c: char) {
    '0' <= c <= '9'
  }

  predicate IsUpper(c: char) {
    'A' <= c <= 'Z'
  }

  function UpperChar(c: char): char {
    if 'a' <= c <= 'z' then (c as int - 32) as char else c
  }

  /** ASCII upper case. */
  function Upper(s: string): string {
    seq(|s|, i requires 0 <= i < |s| => UpperChar(s[i]))
  }

  /** The same letters, whatever their case, as a name in capitals. */
  predicate Spells(name: string, capitals: string) {
    && |name| == |capitals|
    && forall i :: 0 <= i < |name| ==>
                     name[i] == capitals[i] || ('A' <= capitals[i] <= 'Z' && name[i] as int == capitals[i] as int + 32)
  }

  /** In upper case a string is a name in capitals exactly if it spells it. */
  lemma UpperIffSpells(name: string, capitals: string)
    requires forall i :: 0 <= i < |capitals| ==> !('a' <= capitals[i] <= 'z')
    ensures Upper(name) == capitals <==> Spells(name, capitals)
  {
    if Upper(name) == capitals {
      forall i | 0 <= i < |name|
        ensures name[i] == capitals[i] || ('A' <= capitals[i] <= 'Z' && name[i] as int == capitals[i] as int + 32)
      {
        assert Upper(name)[i] == capitals[i];
      }
    }
  }

  lemma UpperOfUpper(s: string)
    requires forall i :: 0 <= i < |s| ==> IsUpper(s[i])
    ensures Upper(s) == s
  {
  }

  predicate IsAlpha(c: char) {
    'A' <= c <= 'Z' || 'a' <= c <= 'z'
  }

  predicate AllDigits(s: string) {
    forall i :: 0 <= i < |s| ==> IsDigit(s[i])
  }

  predicate AllAlpha(s: string) {
    forall i :: 0 <= i < |s| ==> IsAlpha(s[i])
  }

}
