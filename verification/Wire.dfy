/** Building outbound lines (ferrixd/src/wire.rs). */
module Wire {
  import opened Octets
  import opened Protocol
  import Parser
  import Encode

  /** Middle parameters, each after a space. */
  function Spaced(mids: seq<string>): string {
    if mids == [] then [] else [' '] + mids[0] + Spaced(mids[1..])
  }

  function Body(verb: string, mids: seq<string>, trailing: Option<string>): string {
    verb + Spaced(mids) + (if trailing.Some? then [' ', ':'] + trailing.value else [])
  }

  /** The parameters a line was built from. */
  function Params(mids: seq<string>, trailing: Option<string>): seq<string> {
    mids + (if trailing.Some? then [trailing.value] else [])
  }

  /** The fields that can be written as one line and read back. */
  predicate Legal(mids: seq<string>, trailing: Option<string>) {
    && (forall i :: 0 <= i < |mids| ==> Token(mids[i]))
    && (trailing.Some? ==> Text(trailing.value))
  }

  class Line {
    var buf: string

    /** `Line::bare`. */
    constructor ()
      ensures buf == []
    {
      buf := [];
    }

    method Command(verb: string)
      modifies this
      ensures buf == old(buf) + verb
    {
      buf := buf + verb;
    }

    method Param(param: string)
      modifies this
      ensures buf == old(buf) + [' '] + param
    {
      buf := buf + [' '];
      buf := buf + param;
    }

    method Trailing(trailing: string)
      modifies this
      ensures buf == old(buf) + ([' ', ':'] + trailing)
    {
      buf := buf + [' ', ':'];
      buf := buf + trailing;
    }

    method Build() returns (line: string)
      ensures line == buf + CRLF
    {
      line := buf + CRLF;
    }
  }

  /** The builder calls behind every `to_line`. */
  method BuildLine(verb: string, mids: seq<string>, trailing: Option<string>) returns (line: string)
    ensures line == Body(verb, mids, trailing) + CRLF
  {
    var l := new Line();
    l.Command(verb);
    assert mids[0..] == mids;
    for i := 0 to |mids|
      invariant l.buf + Spaced(mids[i..]) == verb + Spaced(mids)
    {
      assert mids[i..][1..] == mids[i + 1..];
      assert l.buf + ([' '] + mids[i] + Spaced(mids[i + 1..])) == l.buf + [' '] + mids[i] + Spaced(mids[i + 1..]);
      l.Param(mids[i]);
    }
    assert l.buf + [] == l.buf;
    if trailing.Some? {
      l.Trailing(trailing.value);
    }
    line := l.Build();
  }

  lemma {:induction false} ParseSpaced(mids: seq<string>, rest: string)
    requires forall i :: 0 <= i < |mids| ==> Token(mids[i])
    requires rest != [] ==> rest[0] == ' '
    ensures Parser.ParseParams(Spaced(mids) + rest) == Parser.Append(mids, Parser.ParseParams(rest))
  {
    hide ValidUtf8, Parser.ParseParams, Parser.Cons, Parser.Append, Token;
    if mids == [] {
      assert [] + rest == rest;
      Parser.AppendNothing(Parser.ParseParams(rest));
    } else {
      var more := Spaced(mids[1..]) + rest;
      ParseSpaced(mids[1..], rest);
      assert Spaced(mids) + rest == [' '] + mids[0] + more;
      Encode.ParseMiddle(mids[0], more);
      Parser.ConsAppend(mids[0], mids[1..], Parser.ParseParams(rest));
      assert [mids[0]] + mids[1..] == mids;
    }
  }

  /** Parsing a line without tags and source. */
  lemma ParseBare(verb: string, rest: string, limits: Limits)
    requires verb != [] && AllAlpha(verb)
    requires rest != [] ==> rest[0] == ' '
    requires Clean(rest)
    ensures Parser.Parse(verb + rest + CRLF, limits) ==
            if |verb + rest| > limits.maxBodyBytes then Err(BodyTooLong(limits.maxBodyBytes))
            else
              match Parser.ParseParams(rest)
              case Err(e) => Err(e)
              case Ok(ps) => Ok(Message([], None, Named(verb), ps))
  {
    hide Parser.ParseParams, Parser.Strip;
    var s := verb + rest;
    assert IsAlpha(verb[0]);
    assert Clean(verb);
    Encode.StripRendered(s);
    FindAfter(verb, rest, ' ');
    assert s[..|verb|] == verb && s[|verb|..] == rest;
  }

  lemma {:induction false} SpacedIsClean(mids: seq<string>)
    requires forall i :: 0 <= i < |mids| ==> Clean(mids[i])
    ensures Clean(Spaced(mids))
    ensures mids != [] ==> Spaced(mids)[0] == ' '
  {
    if mids != [] {
      SpacedIsClean(mids[1..]);
    }
  }

  /** A built line, read back under the given budgets. */
  function ReadBack(verb: string, mids: seq<string>, trailing: Option<string>, limits: Limits): Result<Message> {
    Parser.Parse(Body(verb, mids, trailing) + CRLF, limits)
  }

  lemma LegalReadsBack(verb: string, mids: seq<string>, trailing: Option<string>, limits: Limits)
    requires verb != [] && AllAlpha(verb)
    requires Legal(mids, trailing)
    requires |Body(verb, mids, trailing)| <= limits.maxBodyBytes
    ensures ReadBack(verb, mids, trailing, limits) == Ok(Message([], None, Named(verb), Params(mids, trailing)))
  {
    hide ValidUtf8, Parser.Parse, Parser.ParseParams;
    var tail := if trailing.Some? then [' ', ':'] + trailing.value else [];
    var rest := Spaced(mids) + tail;
    SpacedIsClean(mids);
    assert Body(verb, mids, trailing) == verb + rest;
    ParseBare(verb, rest, limits);
    ParseSpaced(mids, tail);
    if trailing.Some? {
      Encode.ParseTrailing(trailing.value);
    } else {
      Encode.ParseNothing();
    }
  }

  lemma {:induction false} SpacedLast(mids: seq<string>, last: string)
    ensures Spaced(mids + [last]) == Spaced(mids) + ([' '] + last)
  {
    if mids == [] {
      assert Spaced([last]) == [' '] + last + [];
    } else {
      assert (mids + [last])[1..] == mids[1..] + [last];
      SpacedLast(mids[1..], last);
    }
  }

  /** The parameter at the front of `buf`. */
  function FirstOf(buf: string): string {
    if buf == [] then [] else if buf[0] == ':' then buf[1..] else buf[..Find(buf, ' ')]
  }

  lemma FirstIsTrailing(buf: string, x: string)
    requires Text(x) && !Token(x) && buf != [] && buf[0] != ' ' && x == FirstOf(buf)
    ensures buf == [':'] + x
  {
    hide Text, Token, Find;
    if buf[0] != ':' {
      MiddleIsToken(buf, x);
    }
  }

  lemma MiddleIsToken(buf: string, x: string)
    requires Text(x) && buf != [] && buf[0] != ' ' && buf[0] != ':' && x == buf[..Find(buf, ' ')]
    ensures Token(x)
  {
    hide ValidUtf8;
    assert forall i :: 0 <= i < |x| ==> x[i] in x;
  }

  lemma SpaceIsSkipped(s: string)
    ensures |Parser.SkipSpaces([' '] + s)| <= |s|
  {
    assert ([' '] + s)[0] == ' ';
  }

  /** A lone parameter that is no token was written after a colon. */
  lemma LoneIsTrailing(s: string, x: string)
    requires Text(x) && !Token(x) && Parser.ParseParams(s) == Ok([x])
    ensures Parser.SkipSpaces(s) == [':'] + x
  {
    hide Parser.ParseParams, Parser.SkipSpaces, Find, Text, Token;
    Parser.ParseParamsStep(s);
    var buf := Parser.SkipSpaces(s);
    var ps := [FirstOf(buf)] + (if buf != [] && buf[0] != ':' then Parser.ParseParams(buf[Find(buf, ' ')..]).value else []);
    assert buf != [];
    assert ps == [x] && ps[0] == FirstOf(buf);
    FirstIsTrailing(buf, x);
  }

  /** What a parser returned is text throughout. */
  lemma ParamsAreText(mids: seq<string>, trailing: Option<string>)
    requires ValidParams(Params(mids, trailing))
    ensures forall i :: 0 <= i < |mids| ==> Text(mids[i])
    ensures forall i :: 0 <= i < |mids| - 1 ==> Token(mids[i])
    ensures trailing.Some? ==> Text(trailing.value) && forall i :: 0 <= i < |mids| ==> Token(mids[i])
  {
    hide Text, Token;
    var ps := Params(mids, trailing);
    TokensAreText();
    assert forall i :: 0 <= i < |mids| ==> mids[i] == ps[i];
    assert trailing.Some? ==> trailing.value == ps[|mids|];
  }

  lemma LastReadsBack(mids: seq<string>)
    requires mids != [] && Text(mids[|mids| - 1]) && forall i :: 0 <= i < |mids| - 1 ==> Token(mids[i])
    requires Parser.ParseParams(Spaced(mids)) == Ok(mids)
    ensures Token(mids[|mids| - 1])
  {
    hide Text, Token, Parser.ParseParams, Parser.SkipSpaces;
    var init, last := mids[..|mids| - 1], mids[|mids| - 1];
    assert mids == init + [last];
    SpacedLast(init, last);
    ParseSpaced(init, [' '] + last);
    var r := Parser.ParseParams([' '] + last);
    assert (init + r.value)[|init|..] == r.value && (init + [last])[|init|..] == [last];
    SpaceIsSkipped(last);
    if !Token(last) {
      LoneIsTrailing([' '] + last, last);
    }
  }

  lemma NoTrailing(mids: seq<string>)
    ensures Params(mids, None) == mids
  {
  }

  lemma RestIsClean(mids: seq<string>, trailing: Option<string>)
    requires (forall i :: 0 <= i < |mids| ==> Text(mids[i])) && (trailing.Some? ==> Text(trailing.value))
    ensures var rest := Spaced(mids) + if trailing.Some? then [' ', ':'] + trailing.value else [];
            Clean(rest) && (rest != [] ==> rest[0] == ' ')
  {
    hide ValidUtf8, Clean, Spaced;
    SpacedIsClean(mids);
    var tail := if trailing.Some? then [' ', ':'] + trailing.value else [];
    if trailing.Some? {
      ColonIsClean();
      CleanConcat([' ', ':'], trailing.value);
    } else {
      NothingIsClean();
    }
    CleanConcat(Spaced(mids), tail);
    if mids == [] {
      NothingSpaced();
    }
  }

  lemma ColonIsClean()
    ensures Clean([' ', ':'])
  {
  }

  lemma NothingIsClean()
    ensures Clean([])
  {
  }

  lemma NothingSpaced()
    ensures Spaced([]) == []
  {
  }

  lemma TokensAreText()
    ensures forall p :: Token(p) ==> Text(p)
  {
  }

  /**
   * What a line is built from is what the parser reads off it exactly when every
   * middle parameter is a token, the trailing one is text, and the line fits.
   */
  lemma ReadsBackIffLegal(verb: string, mids: seq<string>, trailing: Option<string>, limits: Limits)
    requires verb != [] && AllAlpha(verb)
    ensures ReadBack(verb, mids, trailing, limits) == Ok(Message([], None, Named(verb), Params(mids, trailing)))
       <==> Legal(mids, trailing) && |Body(verb, mids, trailing)| <= limits.maxBodyBytes
  {
    hide Token, Text, Parser.Parse, Parser.ParseParams, ValidParams, Params;
    if ReadBack(verb, mids, trailing, limits) == Ok(Message([], None, Named(verb), Params(mids, trailing))) {
      Parser.ParsedIsWellFormed(Body(verb, mids, trailing) + CRLF, limits);
      ParamsAreText(mids, trailing);
      var tail := if trailing.Some? then [' ', ':'] + trailing.value else [];
      var rest := Spaced(mids) + tail;
      RestIsClean(mids, trailing);
      assert Body(verb, mids, trailing) == verb + rest;
      ParseBare(verb, rest, limits);
      if trailing.None? && mids != [] {
        assert rest == Spaced(mids);
        NoTrailing(mids);
        LastReadsBack(mids);
      }
    } else if Legal(mids, trailing) && |Body(verb, mids, trailing)| <= limits.maxBodyBytes {
      LegalReadsBack(verb, mids, trailing, limits);
    }
  }
}
