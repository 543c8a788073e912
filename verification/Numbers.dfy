/** Printing and parsing unsigned numbers the way Rust's formatter and `from_str_radix` do. */
module Numbers {
  import opened Octets

  type Base = b: int | b == 10 || b == 16 witness 10

  const U64_RANGE: nat := 0x1_0000_0000_0000_0000

  function DigitChar(d: nat): (c: char)
    requires d < 16
    ensures DigitOf(c, 16) == Some(d)
    ensures d < 10 ==> DigitOf(c, 10) == Some(d)
    ensures c as int < 0x80
  {
    if d < 10 then ('0' as int + d) as char else ('a' as int + d - 10) as char
  }

  function DigitOf(c: char, base: Base): (d: Option<nat>)
    ensures d.Some? ==> d.value < base
  {
    if '0' <= c <= '9' then Some(c as int - '0' as int)
    else if base == 16 && 'a' <= c <= 'f' then Some(c as int - 'a' as int + 10)
    else if base == 16 && 'A' <= c <= 'F' then Some(c as int - 'A' as int + 10)
    else None
  }

  predicate IsNumeral(s: string, base: Base) {
    forall i :: 0 <= i < |s| ==> DigitOf(s[i], base).Some?
  }

  function Value(s: string, base: Base): nat
    requires IsNumeral(s, base)
  {
    if s == [] then 0
    else Value(s[..|s| - 1], base) * base + DigitOf(s[|s| - 1], base).value
  }

  function Print(n: nat, base: Base): (s: string)
    ensures s != [] && IsNumeral(s, base)
    ensures forall i :: 0 <= i < |s| ==> s[i] as int < 0x80 && s[i] != '-' && s[i] != '+'
    decreases n
  {
    if n < base then [DigitChar(n)]
    else
      assert n / base < n by { Quotient(n, base); }
      Print(n / base, base) + [DigitChar(n % base)]
  }

  lemma Quotient(n: nat, base: Base)
    requires n >= base
    ensures 0 < n / base < n && (n / base) * base + n % base == n
  {
    if base == 10 {
    } else {
    }
  }

  lemma {:induction false} ValueOfPrint(n: nat, base: Base)
    ensures Value(Print(n, base), base) == n
    decreases n
  {
    var s := Print(n, base);
    if n < base {
      assert s[..|s| - 1] == [];
    } else {
      Quotient(n, base);
      ValueOfPrint(n / base, base);
      assert s[..|s| - 1] == Print(n / base, base);
    }
  }

  function Pad(s: string, width: nat): (r: string)
    ensures |r| >= width
    decreases width - |s|
  {
    if |s| >= width then s else Pad(['0'] + s, width)
  }

  lemma PadLength(s: string, width: nat)
    requires |s| <= width
    ensures |Pad(s, width)| == width
    decreases width - |s|
  {
  }

  lemma {:induction false} ValueOfZeroed(s: string, base: Base)
    requires IsNumeral(s, base)
    ensures IsNumeral(['0'] + s, base) && Value(['0'] + s, base) == Value(s, base)
    decreases |s|
  {
    var z := ['0'] + s;
    if s == [] {
      assert z[..0] == [];
    } else {
      assert z[..|z| - 1] == ['0'] + s[..|s| - 1];
      ValueOfZeroed(s[..|s| - 1], base);
    }
  }

  lemma {:induction false} ValueOfPadded(s: string, width: nat, base: Base)
    requires IsNumeral(s, base)
    ensures IsNumeral(Pad(s, width), base) && Value(Pad(s, width), base) == Value(s, base)
    decreases width - |s|
  {
    if |s| < width {
      ValueOfZeroed(s, base);
      ValueOfPadded(['0'] + s, width, base);
    }
  }

  /** `u64::from_str_radix` (and `str::parse::<u64>` for base 10). */
  function ParseU64(s: string, base: Base): Option<nat> {
    var digits := if |s| > 1 && s[0] == '+' then s[1..] else s;
    if digits == [] || !IsNumeral(digits, base) || Value(digits, base) >= U64_RANGE then None
    else Some(Value(digits, base))
  }

  function Decimal(n: nat): string {
    Print(n, 10)
  }

  lemma ParseDecimal(n: nat)
    requires n < U64_RANGE
    ensures ParseU64(Decimal(n), 10) == Some(n)
  {
    ValueOfPrint(n, 10);
  }

  // --------------------------------------------------------------- numerals, spelled out

  /** Figures, and for base 16 the letters to `f` in either case. */
  lemma DigitMeaning(c: char, base: Base, d: nat)
    ensures DigitOf(c, base) == Some(d)
       <==> || (d < 10 && c as int == 48 + d)
            || (base == 16 && 10 <= d < 16 && (c as int == 97 + d - 10 || c as int == 65 + d - 10))
  {
  }

  /** Numerals are positional. */
  lemma ValueStep(s: string, c: char, base: Base)
    requires IsNumeral(s, base) && DigitOf(c, base).Some?
    ensures IsNumeral(s + [c], base) && Value(s + [c], base) == Value(s, base) * base + DigitOf(c, base).value
    ensures Value([], base) == 0
  {
    assert (s + [c])[..|s|] == s && (s + [c])[|s|] == c;
  }

  /** Printed numbers are in small letters and have no zero in front. */
  lemma {:induction false} PrintForm(n: nat, base: Base)
    ensures n > 0 ==> Print(n, base)[0] != '0'
    ensures forall i :: 0 <= i < |Print(n, base)| ==> !('A' <= Print(n, base)[i] <= 'Z')
    decreases n
  {
    if n >= base {
      Quotient(n, base);
      PrintForm(n / base, base);
    }
  }

  function Power(base: nat, k: nat): nat {
    if k == 0 then 1 else base * Power(base, k - 1)
  }

  lemma QuotientBelow(n: nat, base: Base, p: nat)
    requires n < base * p
    ensures n / base < p
  {
    if base == 10 {
    } else {
    }
  }

  lemma {:induction false} PrintLength(n: nat, base: Base, k: nat)
    requires k >= 1 && n < Power(base, k)
    ensures |Print(n, base)| <= k
    decreases k
  {
    if n >= base {
      Quotient(n, base);
      assert k > 1;
      QuotientBelow(n, base, Power(base, k - 1));
      PrintLength(n / base, base, k - 1);
    }
  }

  /** What parses: figures, after a `+` that need not be there, of a value below two to the sixty-fourth. */
  lemma ParseU64Iff(s: string, base: Base, n: nat)
    ensures ParseU64(s, base) == Some(n)
       <==> exists digits :: Reads(s, digits, base) && Value(digits, base) == n && n < 0x1_0000_0000_0000_0000
  {
    if ParseU64(s, base) == Some(n) {
      var digits := if |s| > 1 && s[0] == '+' then s[1..] else s;
      assert Reads(s, digits, base);
    }
    forall digits | Reads(s, digits, base)
      ensures digits == if |s| > 1 && s[0] == '+' then s[1..] else s
    {
      assert DigitOf('+', base).None?;
      if s == "+" + digits {
        assert s[1..] == digits;
      } else {
        assert s[0] != '+';
      }
    }
  }

  predicate Reads(s: string, digits: string, base: Base) {
    (s == digits || s == "+" + digits) && digits != [] && IsNumeral(digits, base)
  }
}
