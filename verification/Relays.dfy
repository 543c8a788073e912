/** Exactly which link messages are read off their own line (ferrixd/src/s2s.rs, ferrixd/src/link.rs). */
module Relays {
  import opened Octets
  import opened Protocol
  import opened Numbers
  import Parser
  import Wire
  import opened S2s

  // ------------------------------------------------------- a field that reads itself

  function Spaces(n: nat): (s: string)
    ensures |s| == n && forall i :: 0 <= i < n ==> s[i] == ' '
  {
    seq(n, _ => ' ')
  }

  /** Any number of copies of ` :`. */
  predicate Colons(x: string) {
    x == [] || (|x| >= 2 && x[0] == ' ' && x[1] == ':' && Colons(x[2..]))
  }

  /**
   * A middle field that is no token can only come back as the last parameter, and
   * then the line from there on is spaces, a colon, and the field again.
   */
  lemma EchoEquation(x: string, rest: string) returns (j: nat)
    requires Parser.SkipSpaces([' '] + x + rest) == [':'] + x
    ensures x + rest == Spaces(j) + [':'] + x && |rest| == j + 1
  {
    hide Parser.SkipSpaces;
    var s := [' '] + x + rest;
    var n := |s| - |x| - 1;
    assert s[n..] == [':'] + x;
    assert n > 0 by {
      assert s[0] == ' ';
    }
    j := n - 1;
    assert s[1..] == x + rest;
    assert s == Spaces(n) + [':'] + x;
    assert s[1..] == Spaces(j) + [':'] + x;
  }

  lemma {:induction false} CommutesWithColon(x: string)
    requires x + [' ', ':'] == [' ', ':'] + x
    ensures Colons(x)
    decreases |x|
  {
    if x != [] {
      var left, right := x + [' ', ':'], [' ', ':'] + x;
      assert left[0] == right[0] == x[0] == ' ';
      assert |x| >= 2 by {
        assert left[1] == right[1];
      }
      assert left[1] == x[1] == ':';
      var y := x[2..];
      assert x == [' ', ':'] + y;
      assert y + [' ', ':'] == left[2..] == right[2..] == x;
      CommutesWithColon(y);
    }
  }

  lemma {:induction false} ColonsCommute(x: string)
    requires Colons(x)
    ensures x + [' ', ':'] == [' ', ':'] + x
    ensures forall i :: 0 <= i < |x| ==> x[i] == ' ' || x[i] == ':'
    decreases |x|
  {
    if x != [] {
      var y := x[2..];
      ColonsCommute(y);
      assert x == [' ', ':'] + y;
      assert x + [' ', ':'] == [' ', ':'] + (y + [' ', ':']);
    }
  }

  lemma ColonsAreText(x: string)
    requires Colons(x)
    ensures Text(x) && [' '] + x + [' ', ':'] == [' ', ' '] + ([':'] + x)
  {
    hide ValidUtf8;
    ColonsCommute(x);
    ValidAscii(x);
    assert [' '] + x + [' ', ':'] == [' '] + (x + [' ', ':']);
  }

  /** Copies of ` :`, followed by an empty trailing parameter, read as themselves. */
  lemma ColonsEcho(x: string)
    requires Colons(x)
    ensures Parser.ParseParams([' '] + x + [' ', ':']) == Ok([x])
  {
    hide ValidUtf8, Parser.ParseParams, Parser.SkipSpaces, Find, Colons;
    ColonsAreText(x);
    var s, buf := [' '] + x + [' ', ':'], [':'] + x;
    TwoSpaces(buf);
    Parser.ParseParamsStep(s);
    assert buf[1..] == x;
  }

  lemma TwoSpaces(buf: string)
    requires buf != [] && buf[0] != ' '
    ensures Parser.SkipSpaces([' ', ' '] + buf) == buf
  {
    Parser.SkipOneSpace(buf);
    assert ([' ', ' '] + buf)[1..] == [' '] + buf;
  }

  // ----------------------------------------------------------- what a decoder returns

  predicate AllText(p: seq<string>) {
    forall i :: 0 <= i < |p| ==> Text(p[i])
  }

  predicate AllTokens(p: seq<string>) {
    forall i :: 0 <= i < |p| ==> Token(p[i])
  }

  /** Parameters as a parser returns them: tokens, and a last one that is text. */
  predicate Parsed(p: seq<string>) {
    AllText(p) && forall i :: 0 <= i < |p| - 1 ==> Token(p[i])
  }

  lemma ParsedParams(p: seq<string>)
    requires ValidParams(p)
    ensures Parsed(p)
  {
    hide ValidUtf8;
  }

  /** Every field is text: NUL, line breaks and broken UTF-8 never come out of a parser. */
  predicate TextFields(f: Fields) {
    AllText(f.mids) && (f.trailing.Some? ==> Text(f.trailing.value))
  }

  /** The first `k` fields are tokens; the next is none, and the parameters end with it. */
  predicate Stuck(f: Fields, k: int, p: seq<string>) {
    && 0 <= k < |f.mids| && |p| == k + 1 && p[k] == f.mids[k] && !Token(p[k])
    && forall i :: 0 <= i < k ==> Token(f.mids[i])
  }

  /** The field at which a message may stop short and still be decoded. */
  function Turn(m: LinkMessage): int {
    if m.Sjoin? then 1 else |FieldsOf(m).mids| - 1
  }

  /** What decoding `p` as `m` says of the fields of `m`. */
  predicate Sorted(v: Verb, m: LinkMessage, p: seq<string>) {
    var f := FieldsOf(m);
    && f.verb == v && TextFields(f) && Representable(m)
    && (|| AllTokens(f.mids)
        || (Stuck(f, Turn(m), p) && (f.trailing.None? || MayEcho(m)))
        || (m.Smode? && Unnumbered(m.channel, m.source, p)))
  }

  /** The messages whose empty trailing parameter a decoder does not miss. */
  predicate MayEcho(m: LinkMessage) {
    (m.Sredact? || m.Srename?) && m.reason == ""
  }

  /** SMODE parameters without a timestamp. */
  predicate Unnumbered(channel: string, source: string, p: seq<string>) {
    |p| > 2 && p[0] == channel && p[1] == source && ParseU64(p[2], 10).None?
  }

  lemma {:induction false} DecimalIsToken(n: nat)
    ensures Token(Decimal(n))
  {
    hide ValidUtf8, Print;
    var s := Decimal(n);
    assert forall i :: 0 <= i < |s| ==> DigitOf(s[i], 10).Some?;
    ValidAscii(s);
  }

  lemma MarkIsToken(s: string)
    requires s != [] && forall i :: 0 <= i < |s| ==> s[i] in "*NP+-ov"
    ensures Token(s)
  {
    hide ValidUtf8;
    ValidAscii(s);
  }

  /** The fields the printer makes up itself are tokens. */
  lemma MarksAreTokens()
    ensures Token("*") && Token("N") && Token("P") && Token("+") && Token("-")
    ensures forall op, voice :: Token(Flags(op, voice))
    ensures forall n: nat :: Token(Decimal(n))
    ensures forall x :: Token(x) ==> Text(x)
    ensures Text("")
  {
    hide Token, Text, Decimal;
    MarkIsToken("*");
    MarkIsToken("N");
    MarkIsToken("P");
    MarkIsToken("+");
    MarkIsToken("-");
    MarkIsToken("o");
    MarkIsToken("v");
    MarkIsToken("ov");
    forall n: nat
      ensures Token(Decimal(n))
    {
      DecimalIsToken(n);
    }
    Wire.TokensAreText();
    EmptyIsText();
  }

  lemma EmptyIsText()
    ensures Text("")
  {
  }

  lemma NumbersAreSmall()
    ensures forall s :: ParseU64(s, 10).Some? ==> ParseU64(s, 10).value < U64_RANGE
  {
  }

  lemma DecodedGreeting(v: Verb, p: seq<string>)
    requires Parsed(p) && Decode(v, p).Some?
    requires v == PASS || v == SERVER || v == SSERVER || v == PING || v == PONG || v == QUIT
    ensures Sorted(v, Decode(v, p).value, p)
  {
    hide Token, Text;
    MarksAreTokens();
  }

  lemma DecodedText(v: Verb, p: seq<string>)
    requires Parsed(p) && Decode(v, p).Some?
    requires v == SPART || v == SKNOCK || v == STAGMSG || v == SKICK || v == SSETNAME || v == SWALLOPS
    ensures Sorted(v, Decode(v, p).value, p)
  {
    hide Token, Text;
    MarksAreTokens();
  }

  lemma DecodedEnding(v: Verb, p: seq<string>)
    requires Parsed(p) && Decode(v, p).Some?
    requires v == SBAN || v == KILL || v == SQUIT || v == ERROR
    ensures Sorted(v, Decode(v, p).value, p)
  {
    hide Token, Text;
    MarksAreTokens();
  }

  lemma DecodedPair(v: Verb, p: seq<string>)
    requires Parsed(p) && Decode(v, p).Some?
    requires v == NICK || v == SUMODE || v == SACCOUNT || v == SCHGHOST
    ensures Sorted(v, Decode(v, p).value, p)
  {
    hide Token, Text;
    MarksAreTokens();
  }

  lemma DecodedOpenEnded(v: Verb, p: seq<string>)
    requires Parsed(p) && Decode(v, p).Some?
    requires v == SINVITE || v == SAWAY
    ensures Sorted(v, Decode(v, p).value, p)
  {
    hide Token, Text;
    MarksAreTokens();
  }

  lemma DecodedForgiving(v: Verb, p: seq<string>)
    requires Parsed(p) && Decode(v, p).Some?
    requires v == SREDACT || v == SRENAME
    ensures Sorted(v, Decode(v, p).value, p)
  {
    hide Token, Text;
    MarksAreTokens();
  }

  lemma DecodedUid(v: Verb, p: seq<string>)
    requires Parsed(p) && Decode(v, p).Some?
    requires v == UID || v == STOPIC
    ensures Sorted(v, Decode(v, p).value, p)
  {
    hide Token, Text, Decimal, ParseU64, Flags;
    MarksAreTokens();
    NumbersAreSmall();
  }

  lemma DecodedSjoin(v: Verb, p: seq<string>)
    requires Parsed(p) && Decode(v, p).Some?
    requires v == SJOIN
    ensures Sorted(v, Decode(v, p).value, p)
  {
    hide Token, Text, Decimal, ParseU64, Flags;
    MarksAreTokens();
    NumbersAreSmall();
  }

  lemma DecodedRelayed(v: Verb, p: seq<string>)
    requires Parsed(p) && Decode(v, p).Some?
    requires v == SMSG || v == SCMSG
    ensures Sorted(v, Decode(v, p).value, p)
  {
    hide Token, Text, Decimal, ParseU64, Flags;
    MarksAreTokens();
    NumbersAreSmall();
  }

  lemma DecodedSmode(v: Verb, p: seq<string>)
    requires Parsed(p) && Decode(v, p).Some?
    requires v == SMODE
    ensures Sorted(v, Decode(v, p).value, p)
  {
    hide Token, Text, Decimal, ParseU64, Flags;
    MarksAreTokens();
    NumbersAreSmall();
  }

  /** Whatever is decoded: all fields are text, and all but perhaps the last one read are tokens. */
  lemma DecodedIsSorted(v: Verb, p: seq<string>)
    requires Parsed(p) && Decode(v, p).Some?
    ensures Sorted(v, Decode(v, p).value, p)
  {
    hide Parsed, Decode, Sorted;
    match v
    case PASS | SERVER | SSERVER | PING | PONG | QUIT => DecodedGreeting(v, p);
    case SPART | SKNOCK | STAGMSG | SKICK | SSETNAME | SWALLOPS => DecodedText(v, p);
    case SBAN | KILL | SQUIT | ERROR => DecodedEnding(v, p);
    case NICK | SUMODE | SACCOUNT | SCHGHOST => DecodedPair(v, p);
    case SINVITE | SAWAY => DecodedOpenEnded(v, p);
    case SREDACT | SRENAME => DecodedForgiving(v, p);
    case UID | STOPIC => DecodedUid(v, p);
    case SJOIN => DecodedSjoin(v, p);
    case SMSG | SCMSG => DecodedRelayed(v, p);
    case SMODE => DecodedSmode(v, p);
  }

  // ---------------------------------------------------------------- lines of messages

  function Tail(f: Fields): string {
    if f.trailing.Some? then [' ', ':'] + f.trailing.value else []
  }

  /** Everything after the verb. */
  function Rest(f: Fields): string {
    Wire.Spaced(f.mids) + Tail(f)
  }

  lemma RestIsClean(f: Fields)
    requires TextFields(f)
    ensures Clean(Rest(f)) && (Rest(f) != [] ==> Rest(f)[0] == ' ')
  {
    hide Text;
    Wire.RestIsClean(f.mids, f.trailing);
  }

  lemma LineParses(m: LinkMessage, limits: Limits)
    requires TextFields(FieldsOf(m))
    ensures var f := FieldsOf(m);
            Parser.Parse(ToLine(m), limits) ==
            if |LineBody(m)| > limits.maxBodyBytes then Err(BodyTooLong(limits.maxBodyBytes))
            else
              match Parser.ParseParams(Rest(f))
              case Err(e) => Err(e)
              case Ok(ps) => Ok(Message([], None, Named(VerbName(f.verb)), ps))
  {
    hide Parser.Parse, Parser.ParseParams, FieldsOf, VerbName, TextFields, Rest;
    var f := FieldsOf(m);
    RestIsClean(f);
    VerbNameIsUpper(f.verb);
    assert LineBody(m) == VerbName(f.verb) + Rest(f) by {
      BodyIsVerbAndRest(VerbName(f.verb), f);
    }
    Wire.ParseBare(VerbName(f.verb), Rest(f), limits);
  }

  lemma BodyIsVerbAndRest(verb: string, f: Fields)
    ensures Wire.Body(verb, f.mids, f.trailing) == verb + Rest(f)
  {
    assert verb + Wire.Spaced(f.mids) + Tail(f) == verb + (Wire.Spaced(f.mids) + Tail(f));
  }

  /** A line whose first `k` fields are tokens, from the field after them on. */
  lemma ParseUpTo(f: Fields, k: nat)
    requires k < |f.mids| && AllTokens(f.mids[..k])
    ensures var rest := Wire.Spaced(f.mids[k + 1..]) + Tail(f);
            && (rest != [] ==> rest[0] == ' ')
            && Parser.ParseParams(Rest(f)) == Parser.Append(f.mids[..k], Parser.ParseParams([' '] + f.mids[k] + rest))
  {
    hide Parser.ParseParams, Token;
    var rest := Wire.Spaced(f.mids[k + 1..]) + Tail(f);
    var from := [' '] + f.mids[k] + rest;
    assert f.mids == f.mids[..k] + f.mids[k..] && f.mids[k..][1..] == f.mids[k + 1..];
    SpacedConcat(f.mids[..k], f.mids[k..]);
    assert Rest(f) == Wire.Spaced(f.mids[..k]) + from;
    Wire.ParseSpaced(f.mids[..k], from);
  }

  lemma StuckEchoes(f: Fields, k: nat, p: seq<string>) returns (j: nat)
    requires TextFields(f) && Stuck(f, k, p) && Parser.ParseParams(Rest(f)) == Ok(p)
    ensures k < |f.mids|
    ensures var x, rest := f.mids[k], Wire.Spaced(f.mids[k + 1..]) + Tail(f);
            x + rest == Spaces(j) + [':'] + x && |rest| == j + 1
  {
    hide Parser.ParseParams, Token, Text, Rest;
    ParseUpTo(f, k);
    var x, rest := f.mids[k], Wire.Spaced(f.mids[k + 1..]) + Tail(f);
    var r := Parser.ParseParams([' '] + x + rest);
    assert f.mids[..k] + r.value == p;
    assert (f.mids[..k] + r.value)[k..] == r.value;
    assert p[k..] == [x];
    Wire.LoneIsTrailing([' '] + x + rest, x);
    j := EchoEquation(x, rest);
  }

  lemma EchoChars(x: string, rest: string, j: nat)
    requires x + rest == Spaces(j) + [':'] + x
    ensures forall i :: 0 <= i < |rest| ==> rest[i] == ' ' || rest[i] == ':'
  {
    var pad := Spaces(j) + [':'];
    assert x + rest == pad + x;
    assert multiset(x + rest) == multiset(x) + multiset(rest);
    assert multiset(pad + x) == multiset(pad) + multiset(x);
    forall c
      ensures multiset(rest)[c] == multiset(pad)[c]
    {
      assert multiset(x + rest)[c] == multiset(pad + x)[c];
    }
    forall i | 0 <= i < |rest|
      ensures rest[i] == ' ' || rest[i] == ':'
    {
      assert rest[i] in multiset(rest);
      assert rest[i] in pad;
    }
  }

  // ------------------------------------------------------------------ the exact condition

  /**
   * A message whose last middle field is not a token and still comes back: a redaction
   * or rename without a reason, whose last middle field is copies of ` :` or empty.
   */
  predicate Echoes(m: LinkMessage) {
    && MayEcho(m) && Token(FieldsOf(m).mids[0]) && Token(FieldsOf(m).mids[1]) && Colons(FieldsOf(m).mids[2])
  }

  /** Legal, or that one exception; and it fits. */
  predicate Faithful(m: LinkMessage, limits: Limits) {
    |LineBody(m)| <= limits.maxBodyBytes && (LegalMessage(m) || Echoes(m))
  }

  lemma EchoReadsBack(m: LinkMessage, limits: Limits)
    requires Echoes(m) && |LineBody(m)| <= limits.maxBodyBytes
    ensures FromLine(ToLine(m), limits) == Some(m)
  {
    hide Parser.Parse, Parser.ParseParams, Token, Text, Colons, VerbName, VerbOf, ToLine, LineBody;
    var f := FieldsOf(m);
    var x := f.mids[2];
    ColonsAreText(x);
    MarksAreTokens();
    LineParses(m, limits);
    ParseUpTo(f, 2);
    assert Wire.Spaced(f.mids[3..]) + Tail(f) == [' ', ':'];
    ColonsEcho(x);
    assert f.mids[..2] + [x] == f.mids;
    VerbRoundTrip(f.verb);
  }

  lemma SjoinRest(m: LinkMessage)
    requires m.Sjoin?
    ensures var rest := Wire.Spaced(FieldsOf(m).mids[2..]) + Tail(FieldsOf(m));
            |rest| > 1 && rest[1] in "ov-"
  {
    hide Decimal;
    var mids := FieldsOf(m).mids[2..];
    assert mids[0] == Flags(m.op, m.voice);
    assert Wire.Spaced(mids)[1] == mids[0][0];
  }

  lemma StuckMayEcho(m: LinkMessage, p: seq<string>)
    requires var f := FieldsOf(m);
             TextFields(f) && Stuck(f, Turn(m), p) && Parser.ParseParams(Rest(f)) == Ok(p)
    requires FieldsOf(m).trailing.None? || MayEcho(m)
    ensures Echoes(m)
  {
    hide Parser.ParseParams, Token, Text, Rest, Decimal;
    var f, k := FieldsOf(m), Turn(m);
    var j := StuckEchoes(f, k, p);
    var x, rest := f.mids[k], Wire.Spaced(f.mids[k + 1..]) + Tail(f);
    if m.Sjoin? {
      SjoinRest(m);
      EchoChars(x, rest, j);
    } else {
      assert f.mids[k + 1..] == [];
      assert rest == Tail(f);
      if MayEcho(m) {
        assert rest == [' ', ':'];
        assert Spaces(1) + [':'] == [' ', ':'];
        CommutesWithColon(x);
      }
    }
  }

  lemma SmodeThird(m: LinkMessage, p: seq<string>)
    requires m.Smode? && Token(m.channel) && Token(m.source) && Parser.ParseParams(Rest(FieldsOf(m))) == Ok(p)
    ensures |p| > 2 && p[2] == Decimal(m.ts)
  {
    hide Parser.ParseParams, Token, Text, Rest, Decimal;
    var f := FieldsOf(m);
    MarksAreTokens();
    ParseUpTo(f, 3);
    assert p[2] == f.mids[..3][2];
  }

  lemma NotUnnumbered(m: LinkMessage, p: seq<string>)
    requires m.Smode? && m.ts < U64_RANGE && Parsed(p) && Parser.ParseParams(Rest(FieldsOf(m))) == Ok(p)
    ensures !Unnumbered(m.channel, m.source, p)
  {
    hide Parser.ParseParams, Token, Text, Rest, Decimal, ParseU64, FieldsOf;
    if Unnumbered(m.channel, m.source, p) {
      SmodeThird(m, p);
      ParseDecimal(m.ts);
    }
  }

  lemma ReadsBackOnlyIfFaithful(m: LinkMessage, limits: Limits)
    requires FromLine(ToLine(m), limits) == Some(m)
    ensures Faithful(m, limits)
  {
    hide Parser.Parse, Parser.ParseParams, Token, Text, Rest, FieldsOf, Decode, VerbName, VerbOf, LineBody, ToLine,
         TextFields, Stuck, Turn, Representable, Parsed, ValidParams, Echoes, MayEcho, Unnumbered, AllTokens;
    var msg := Parser.Parse(ToLine(m), limits).value;
    Parser.ParsedIsWellFormed(ToLine(m), limits);
    var p, v := msg.params, VerbOf(msg.command.name).value;
    ParsedParams(p);
    DecodedIsSorted(v, p);
    LineParses(m, limits);
    var f := FieldsOf(m);
    assert Parser.ParseParams(Rest(f)) == Ok(p);
    if AllTokens(f.mids) {
      TokensAreLegal(f);
    } else {
      if m.Smode? {
        SmodeIsSmall(m);
        NotUnnumbered(m, p);
      }
      StuckMayEcho(m, p);
    }
  }

  lemma TokensAreLegal(f: Fields)
    requires AllTokens(f.mids) && TextFields(f)
    ensures Wire.Legal(f.mids, f.trailing)
  {
    hide Token, Text;
  }

  lemma SmodeIsSmall(m: LinkMessage)
    requires m.Smode? && Representable(m)
    ensures m.ts < U64_RANGE
  {
  }

  /** A message is read off its own line if and only if it is legal, or that exception, and fits. */
  lemma ReadsBackIffFaithful(m: LinkMessage, limits: Limits)
    ensures FromLine(ToLine(m), limits) == Some(m) <==> Faithful(m, limits)
  {
    hide FromLine, ToLine, LineBody, LegalMessage, Echoes;
    if FromLine(ToLine(m), limits) == Some(m) {
      ReadsBackOnlyIfFaithful(m, limits);
    } else if Faithful(m, limits) {
      if LegalMessage(m) {
        FromLineToLine(m, limits);
      } else {
        EchoReadsBack(m, limits);
      }
    }
  }

  /** What the server after `n` relays makes of the line. */
  function ReadAfter(m: LinkMessage, n: nat, limits: Limits): Option<LinkMessage> {
    var line := Hops(ToLine(m), n, limits);
    if line.None? then None else FromLine(line.value, limits)
  }

  lemma {:induction false} FaithfulTravels(m: LinkMessage, n: nat, limits: Limits)
    requires Faithful(m, limits)
    ensures Hops(ToLine(m), n, limits) == Some(ToLine(m)) && ReadAfter(m, n, limits) == Some(m)
  {
    hide FromLine, ToLine, Faithful;
    ReadsBackIffFaithful(m, limits);
    if n > 0 {
      FaithfulTravels(m, n - 1, limits);
    }
  }

  /** Every server on every route reads the message that was sent, if and only if it is faithful. */
  lemma TravelsIffFaithful(m: LinkMessage, limits: Limits)
    ensures (forall n: nat :: ReadAfter(m, n, limits) == Some(m)) <==> Faithful(m, limits)
  {
    hide FromLine, ToLine, Faithful;
    ReadsBackIffFaithful(m, limits);
    if Faithful(m, limits) {
      forall n: nat
        ensures ReadAfter(m, n, limits) == Some(m)
      {
        FaithfulTravels(m, n, limits);
      }
    } else {
      assert ReadAfter(m, 0, limits) != Some(m);
    }
  }

  /** The exception exists: an illegal redaction that every server reads as it was sent. */
  lemma IllegalYetFaithful(limits: Limits)
    requires limits.maxBodyBytes >= 16
    ensures var m := Sredact("s", "t", " :", "");
            !LegalMessage(m) && Faithful(m, limits)
  {
    hide ValidUtf8;
    var m := Sredact("s", "t", " :", "");
    ValidAscii("s");
    ValidAscii("t");
    assert " :"[2..] == [];
    assert FieldsOf(m).mids[2][0] == ' ';
    assert !Token(" :");
    var mids := ["s", "t", " :"];
    assert mids[1..] == ["t", " :"] && mids[1..][1..] == [" :"] && [" :"][1..] == [];
    assert |Wire.Spaced([" :"])| == 3 && |Wire.Spaced(mids[1..])| == 5 && |Wire.Spaced(mids)| == 7;
    assert |LineBody(m)| == 7 + 7 + 2;
  }
}
