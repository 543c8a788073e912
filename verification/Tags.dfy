/** Tag values and their escaped wire form (ferrix-protocol/src/tags.rs). */
module Tags {
  import opened Octets

  /** Octets of a raw value that the wire form writes as an escape pair. */
  predicate NeedsEscape(c: char) {
    c == ';' || c == ' ' || c == '\\' || c == CR || c == LF
  }

  predicate Plain(s: string) {
    forall i :: 0 <= i < |s| ==> !NeedsEscape(s[i])
  }

  /** What may stand in a tag value on the wire: everything but the separators. */
  predicate WireSafe(s: string) {
    forall i :: 0 <= i < |s| ==> s[i] != ';' && s[i] != ' ' && s[i] != CR && s[i] != LF
  }

  function EscapeOctet(c: char): string {
    match c
    case ';' => "\\:"
    case ' ' => "\\s"
    case '\\' => "\\\\"
    case '\r' => "\\r"
    case '\n' => "\\n"
    case _ => [c]
  }

  function UnescapeOctet(c: char): char {
    match c
    case ':' => ';'
    case 's' => ' '
    case 'r' => CR
    case 'n' => LF
    case _ => c
  }

  /** One character, given as the octets of its UTF-8 form. */
  function EscapeChar(c: string): string {
    if |c| == 1 then EscapeOctet(c[0]) else c
  }

  function Escape(v: string): string {
    if v == [] then [] else EscapeOctet(v[0]) + Escape(v[1..])
  }

  function Unescape(v: string): string {
    if v == [] then []
    else if v[0] != '\\' then [v[0]] + Unescape(v[1..])
    else if |v| == 1 then []
    else [UnescapeOctet(v[1])] + Unescape(v[2..])
  }

  lemma {:induction false} EscapeConcat(a: string, b: string)
    ensures Escape(a + b) == Escape(a) + Escape(b)
  {
    if a == [] {
      assert a + b == b;
    } else {
      assert (a + b)[1..] == a[1..] + b;
      EscapeConcat(a[1..], b);
    }
  }

  lemma {:induction false} EscapePlain(v: string)
    requires Plain(v)
    ensures Escape(v) == v
  {
    if v != [] {
      EscapePlain(v[1..]);
    }
  }

  lemma {:induction false} UnescapePlain(a: string, b: string)
    requires '\\' !in a
    ensures Unescape(a + b) == a + Unescape(b)
  {
    if a == [] {
      assert a + b == b;
    } else {
      assert (a + b)[1..] == a[1..] + b;
      UnescapePlain(a[1..], b);
    }
  }

  lemma UnescapePair(c: char, rest: string)
    ensures Unescape(EscapeOctet(c) + rest) == [c] + Unescape(rest)
  {
    var e := EscapeOctet(c);
    assert (e + rest)[|e|..] == rest;
  }

  /** Decoding undoes encoding, for every value. */
  lemma {:induction false} UnescapeEscape(v: string)
    ensures Unescape(Escape(v)) == v
  {
    if v != [] {
      UnescapeEscape(v[1..]);
      UnescapePair(v[0], Escape(v[1..]));
    }
  }

  lemma {:induction false} EscapeIsWireSafe(v: string)
    ensures WireSafe(Escape(v))
    ensures NUL !in v ==> NUL !in Escape(v)
  {
    if v != [] {
      EscapeIsWireSafe(v[1..]);
    }
  }

  /**
   * Re-encoding a decoded value never needs more room than the value took on
   * the wire: an unknown escape loses its backslash, nothing grows.
   */
  lemma {:induction false} EscapeUnescapeNoLonger(v: string)
    requires WireSafe(v)
    ensures |Escape(Unescape(v))| <= |v|
    decreases |v|
  {
    if v == [] {
    } else if v[0] != '\\' {
      EscapeUnescapeNoLonger(v[1..]);
      EscapeConcat([v[0]], Unescape(v[1..]));
    } else if |v| > 1 {
      EscapeUnescapeNoLonger(v[2..]);
      EscapeConcat([UnescapeOctet(v[1])], Unescape(v[2..]));
    }
  }

  lemma {:induction false} UnescapeNoNul(v: string)
    requires NUL !in v
    ensures NUL !in Unescape(v)
    decreases |v|
  {
    if v == [] {
    } else if v[0] != '\\' {
      UnescapeNoNul(v[1..]);
    } else if |v| > 1 {
      UnescapeNoNul(v[2..]);
    }
  }

  /** An escape in a value makes its decoded form shorter. */
  lemma {:induction false} UnescapeShortens(v: string)
    ensures |Unescape(v)| <= |v|
    ensures '\\' in v ==> |Unescape(v)| < |v|
    decreases |v|
  {
    if v == [] {
    } else if v[0] != '\\' {
      UnescapeShortens(v[1..]);
    } else if |v| > 1 {
      UnescapeShortens(v[2..]);
    }
  }

  lemma EscapedCharIsUtf8(v: string)
    requires Width(v) > 0
    ensures ValidUtf8(EscapeChar(v[..Width(v)]))
  {
    WidthOfFirst(v);
    if Width(v) == 1 {
      ValidAscii(EscapeOctet(v[0]));
    }
  }

  lemma {:induction false} EscapeIsUtf8(v: string)
    requires ValidUtf8(v)
    ensures ValidUtf8(Escape(v))
    decreases |v|
  {
    if v != [] {
      var w := Width(v);
      EscapeIsUtf8(v[w..]);
      EscapeFirstChar(v);
      EscapedCharIsUtf8(v);
      ValidConcat(EscapeChar(v[..w]), Escape(v[w..]));
    }
  }

  lemma {:induction false} UnescapeIsUtf8(v: string)
    requires ValidUtf8(v)
    ensures ValidUtf8(Unescape(v))
    decreases |v|
  {
    if v != [] {
      if v[0] != '\\' {
        UnescapeFirstChar(v);
        UnescapeIsUtf8(v[Width(v)..]);
        WidthOfFirst(v);
        ValidConcat(v[..Width(v)], Unescape(v[Width(v)..]));
      } else if |v| > 1 {
        var r := v[1..];
        assert ValidUtf8(r);
        UnescapeIsUtf8(r[Width(r)..]);
        UnescapeEscaped(v);
        WidthOfFirst(r);
        if Width(r) == 1 {
          ValidAscii([UnescapeOctet(r[0])]);
        }
        ValidConcat(if Width(r) == 1 then [UnescapeOctet(r[0])] else r[..Width(r)], Unescape(r[Width(r)..]));
      }
    }
  }

  lemma UnescapeFirstChar(v: string)
    requires v != [] && v[0] != '\\'
    ensures Unescape(v) == v[..CharLen(v)] + Unescape(v[CharLen(v)..])
  {
    var n := CharLen(v);
    assert v == v[..n] + v[n..];
    UnescapePlain(v[..n], v[n..]);
  }

  lemma UnescapeStep(v: string)
    requires v != []
    ensures v[0] != '\\' ==> Unescape(v) == [v[0]] + Unescape(v[1..])
    ensures v[0] == '\\' && |v| > 1 ==> Unescape(v) == [UnescapeOctet(v[1])] + Unescape(v[2..])
  {
  }

  /** A backslash and the whole character after it. */
  lemma UnescapeEscaped(v: string)
    requires |v| > 1 && v[0] == '\\'
    ensures var next := v[1..];
            var n := CharLen(next);
            Unescape(v) == (if n == 1 then [UnescapeOctet(next[0])] else next[..n]) + Unescape(next[n..])
  {
    hide Width, Unescape;
    var next := v[1..];
    assert v[2..] == next[1..];
    UnescapeStep(v);
    UnescapeStep(next);
    if CharLen(next) > 1 {
      UnescapeFirstChar(next);
    }
  }

  lemma EscapeFirstChar(v: string)
    requires v != []
    ensures Escape(v) == EscapeChar(v[..CharLen(v)]) + Escape(v[CharLen(v)..])
  {
    var n := CharLen(v);
    if n > 1 {
      assert v == v[..n] + v[n..];
      EscapeConcat(v[..n], v[n..]);
      EscapePlain(v[..n]);
    }
  }

  /** `unescape_value`: the character loop behind the no-backslash shortcut. */
  method UnescapeValue(value: string) returns (out: string)
    ensures out == Unescape(value)
  {
    if '\\' !in value {
      UnescapePlain(value, []);
      assert value + [] == value;
      return value;
    }
    out := [];
    var rest := value;
    while rest != []
      invariant Unescape(value) == out + Unescape(rest)
      decreases |rest|
    {
      var n := CharLen(rest);
      if rest[0] != '\\' {
        UnescapeFirstChar(rest);
        assert out + Unescape(rest) == (out + rest[..n]) + Unescape(rest[n..]);
        out := out + rest[..n];
        rest := rest[n..];
      } else if |rest| == 1 {
        rest := [];
      } else {
        var next := rest[1..];
        var m := CharLen(next);
        var piece := if m == 1 then [UnescapeOctet(next[0])] else next[..m];
        UnescapeEscaped(rest);
        assert out + Unescape(rest) == (out + piece) + Unescape(next[m..]);
        out := out + piece;
        rest := next[m..];
      }
    }
  }

  lemma NothingEscaped()
    ensures Escape([]) == []
  {
  }

  /** `escape_value`: the character loop behind the nothing-to-escape shortcut. */
  method EscapeValue(value: string) returns (out: string)
    ensures out == Escape(value)
  {
    if forall i :: 0 <= i < |value| ==> !NeedsEscape(value[i]) {
      EscapePlain(value);
      return value;
    }
    hide Escape, EscapeChar, CharLen;
    out := [];
    var rest := value;
    assert Escape([]) == [] by { NothingEscaped(); }
    while rest != []
      invariant Escape(value) == out + Escape(rest)
      decreases |rest|
    {
      var n := CharLen(rest);
      EscapeFirstChar(rest);
      var piece := EscapeChar(rest[..n]);
      assert out + Escape(rest) == (out + piece) + Escape(rest[n..]);
      out := out + piece;
      rest := rest[n..];
    }
  }

  // ------------------------------------------------------------- the table, spelled out

  /** The escapes of the message-tags specification; every other octet stands for itself. */
  lemma EscapeTable(c: char, rest: string)
    ensures Escape([c] + rest) == (match c
                                   case ';' => "\\:"
                                   case ' ' => "\\s"
                                   case '\\' => "\\\\"
                                   case '\r' => "\\r"
                                   case '\n' => "\\n"
                                   case _ => [c]) + Escape(rest)
  {
    assert ([c] + rest)[1..] == rest;
  }

  /** Escapes are undone; a backslash before any other octet is dropped, and so is one at the end. */
  lemma UnescapeTable(c: char, rest: string)
    ensures Unescape(['\\', c] + rest) == (match c
                                           case ':' => ";"
                                           case 's' => " "
                                           case '\\' => "\\"
                                           case 'r' => "\r"
                                           case 'n' => "\n"
                                           case _ => [c]) + Unescape(rest)
    ensures c != '\\' ==> Unescape([c] + rest) == [c] + Unescape(rest)
    ensures Unescape("\\") == ""
  {
    assert (['\\', c] + rest)[2..] == rest && ([c] + rest)[1..] == rest;
  }
}
