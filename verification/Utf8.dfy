/** UTF-8 as an encoding of scalar values (section 3 of RFC 3629). */
module Utf8 {
  import opened Octets

  /** A code point that is no surrogate. */
  predicate IsScalar(n: nat) {
    n <= 0x10FFFF && !(0xD800 <= n <= 0xDFFF)
  }

  function Octet(n: nat): char
    requires n < 256
  {
    n as char
  }

  function EncodeScalar(n: nat): (s: string)
    requires IsScalar(n)
    ensures 1 <= |s| <= 4
  {
    if n < 0x80 then [Octet(n)]
    else if n < 0x800 then [Octet(0xC0 + n / 0x40), Octet(0x80 + n % 0x40)]
    else if n < 0x1_0000 then [Octet(0xE0 + n / 0x1000), Octet(0x80 + n / 0x40 % 0x40), Octet(0x80 + n % 0x40)]
    else [Octet(0xF0 + n / 0x4_0000), Octet(0x80 + n / 0x1000 % 0x40), Octet(0x80 + n / 0x40 % 0x40), Octet(0x80 + n % 0x40)]
  }

  function Encode(ns: seq<nat>): string
    requires forall i :: 0 <= i < |ns| ==> IsScalar(ns[i])
  {
    if ns == [] then [] else EncodeScalar(ns[0]) + Encode(ns[1..])
  }

  /** The scalar value at the front. */
  function Scalar(s: string): nat
    requires Width(s) > 0
  {
    var a := s[0] as int;
    match Width(s)
    case 1 => a
    case 2 => (a - 0xC0) * 0x40 + (s[1] as int - 0x80)
    case 3 => (a - 0xE0) * 0x1000 + (s[1] as int - 0x80) * 0x40 + (s[2] as int - 0x80)
    case _ => (a - 0xF0) * 0x4_0000 + (s[1] as int - 0x80) * 0x1000 + (s[2] as int - 0x80) * 0x40 + (s[3] as int - 0x80)
  }

  lemma WidthOfEncoded(n: nat, rest: string)
    requires IsScalar(n)
    ensures Width(EncodeScalar(n) + rest) == |EncodeScalar(n)|
  {
  }

  lemma FrontIsScalar(s: string)
    requires Width(s) > 0
    ensures IsScalar(Scalar(s)) && EncodeScalar(Scalar(s)) == s[..Width(s)]
  {
    hide EncodeScalar, Scalar, IsScalar;
    match Width(s)
    case 1 => ShortFront(s);
    case 2 => ShortFront(s);
    case 3 => Front3(s);
    case _ => Front4(s);
  }

  lemma ShortFront(s: string)
    requires Width(s) == 1 || Width(s) == 2
    ensures IsScalar(Scalar(s)) && EncodeScalar(Scalar(s)) == s[..Width(s)]
  {
    if Width(s) == 2 {
      Digits2(s[0] as int - 0xC0, s[1] as int - 0x80);
    }
  }

  lemma Front3(s: string)
    requires Width(s) == 3
    ensures IsScalar(Scalar(s)) && EncodeScalar(Scalar(s)) == s[..3]
  {
    Digits3(s[0] as int - 0xE0, s[1] as int - 0x80, s[2] as int - 0x80);
  }

  lemma Front4(s: string)
    requires Width(s) == 4
    ensures IsScalar(Scalar(s)) && EncodeScalar(Scalar(s)) == s[..4]
  {
    Digits4(s[0] as int - 0xF0, s[1] as int - 0x80, s[2] as int - 0x80, s[3] as int - 0x80);
  }

  lemma Digits2(a: nat, b: nat)
    requires b < 0x40
    ensures (a * 0x40 + b) / 0x40 == a && (a * 0x40 + b) % 0x40 == b
  {
  }

  lemma Digits3(a: nat, b: nat, c: nat)
    requires b < 0x40 && c < 0x40
    ensures var n := a * 0x1000 + b * 0x40 + c;
            n / 0x1000 == a && n / 0x40 % 0x40 == b && n % 0x40 == c
  {
  }

  lemma Digits4(a: nat, b: nat, c: nat, d: nat)
    requires b < 0x40 && c < 0x40 && d < 0x40
    ensures var n := a * 0x4_0000 + b * 0x1000 + c * 0x40 + d;
            n / 0x4_0000 == a && n / 0x1000 % 0x40 == b && n / 0x40 % 0x40 == c && n % 0x40 == d
  {
    var n, h := a * 0x4_0000 + b * 0x1000 + c * 0x40 + d, a * 0x1000 + b * 0x40 + c;
    assert n == h * 0x40 + d;
    Digits2(h, d);
    Digits3(a, b, c);
    assert n / 0x1000 == n / 0x40 / 0x40 && n / 0x4_0000 == n / 0x40 / 0x1000;
  }

  ghost predicate IsEncoded(s: string) {
    exists ns :: IsEncodingOf(s, ns)
  }

  predicate IsEncodingOf(s: string, ns: seq<nat>) {
    (forall i :: 0 <= i < |ns| ==> IsScalar(ns[i])) && s == Encode(ns)
  }

  lemma {:induction false} EncodedIsValid(ns: seq<nat>)
    requires forall i :: 0 <= i < |ns| ==> IsScalar(ns[i])
    ensures ValidUtf8(Encode(ns))
  {
    hide EncodeScalar, Width;
    if ns != [] {
      var head, rest := EncodeScalar(ns[0]), Encode(ns[1..]);
      EncodedIsValid(ns[1..]);
      WidthOfEncoded(ns[0], rest);
      assert (head + rest)[|head|..] == rest;
    }
  }

  lemma {:induction false} ValidIsEncoded(s: string) returns (ns: seq<nat>)
    requires ValidUtf8(s)
    ensures IsEncodingOf(s, ns)
    decreases |s|
  {
    hide EncodeScalar, Width;
    if s == [] {
      ns := [];
    } else {
      var rest := ValidIsEncoded(s[Width(s)..]);
      FrontIsScalar(s);
      ns := [Scalar(s)] + rest;
      assert ns[1..] == rest;
      assert s == s[..Width(s)] + s[Width(s)..];
    }
  }

  /** Strings that are valid are exactly the encodings of sequences of scalar values. */
  lemma ValidIffEncoded(s: string)
    ensures ValidUtf8(s) <==> IsEncoded(s)
  {
    hide ValidUtf8, Encode;
    if ValidUtf8(s) {
      var ns := ValidIsEncoded(s);
    }
    if IsEncoded(s) {
      var ns :| IsEncodingOf(s, ns);
      EncodedIsValid(ns);
    }
  }
}
