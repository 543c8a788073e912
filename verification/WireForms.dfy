/** The server-to-server lines as they are documented (ferrixd/src/s2s.rs). */
module WireForms {
  import opened Octets
  import opened Numbers
  import Wire
  import opened S2s

  /** Words with single spaces between them. */
  function Words(words: seq<string>): string {
    if words == [] then []
    else if |words| == 1 then words[0]
    else words[0] + " " + Words(words[1..])
  }

  function Letter(notice: bool): string {
    if notice then "N" else "P"
  }

  /** A value, or the mark of its absence. */
  function Star(v: Option<string>): string {
    match v
    case None => "*"
    case Some(s) => s
  }

  function Count(v: Option<nat>): string {
    match v
    case None => "*"
    case Some(n) => Decimal(n)
  }

  function Prefix(op: bool, voice: bool): string {
    match (op, voice)
    case (true, true) => "ov"
    case (true, false) => "o"
    case (false, true) => "v"
    case (false, false) => "-"
  }

  /** The words of each message's line, in the order of its documentation. */
  function Documented(m: LinkMessage): seq<string> {
    match m
    case Pass(token) => ["PASS", ":" + token]
    case Server(name, sid, description) => ["SERVER", name, sid, ":" + description]
    case Sserver(name, sid, uplink, description) => ["SSERVER", name, sid, uplink, ":" + description]
    case Ping(token) => ["PING", ":" + token]
    case Pong(token) => ["PONG", ":" + token]
    case Uid(sid, uid, lamport, nick, user, host, account, realname) =>
      ["UID", sid, uid, Decimal(lamport), nick, user, host, account, ":" + realname]
    case Nick(uid, nick) => ["NICK", uid, nick]
    case Quit(uid, reason) => ["QUIT", uid, ":" + reason]
    case UserMessage(source, target, notice, msgid, timeMs, tags, text) =>
      ["SMSG", source, target, Letter(notice), Star(msgid), Count(timeMs), Star(tags), ":" + text]
    case Sjoin(channel, uid, op, voice, ts) => ["SJOIN", channel, uid, Prefix(op, voice), Decimal(ts)]
    case Spart(channel, uid, reason) => ["SPART", channel, uid, ":" + reason]
    case ChanMessage(source, channel, notice, msgid, timeMs, tags, text) =>
      ["SCMSG", source, channel, Letter(notice), Star(msgid), Count(timeMs), Star(tags), ":" + text]
    case Sumode(uid, flags) => ["SUMODE", uid, flags]
    case Sknock(source, channel, mask) => ["SKNOCK", source, channel, ":" + mask]
    case TagMessage(source, target, tagList) => ["STAGMSG", source, target, ":" + tagList]
    case Sredact(source, target, id, reason) => ["SREDACT", source, target, id, ":" + reason]
    case Srename(source, oldName, newName, reason) => ["SRENAME", source, oldName, newName, ":" + reason]
    case Stopic(channel, source, setBy, setAt, text) =>
      ["STOPIC", channel, source, setBy, Decimal(setAt), ":" + text]
    case Smode(channel, source, ts, flags, args) => ["SMODE", channel, source, Decimal(ts), flags] + args
    case Skick(channel, source, target, reason) => ["SKICK", channel, source, target, ":" + reason]
    case Saway(uid, reason) => if reason.Some? then ["SAWAY", uid, ":" + reason.value] else ["SAWAY", uid]
    case Saccount(uid, account) => ["SACCOUNT", uid, account]
    case Ssetname(uid, realname) => ["SSETNAME", uid, ":" + realname]
    case Schghost(uid, host) => ["SCHGHOST", uid, host]
    case Swallops(source, text) => ["SWALLOPS", source, ":" + text]
    case Sinvite(source, target, channel) => ["SINVITE", source, target, channel]
    case Sban(add, mask, setBy, reason) => ["SBAN", if add then "+" else "-", mask, setBy, ":" + reason]
    case Kill(uid, reason) => ["KILL", uid, ":" + reason]
    case Squit(sid, reason) => ["SQUIT", sid, ":" + reason]
    case Error(reason) => ["ERROR", ":" + reason]
  }

  function Line(f: Fields): seq<string> {
    [VerbName(f.verb)] + f.mids + if f.trailing.Some? then [":" + f.trailing.value] else []
  }

  lemma {:induction false} SpacedWords(mids: seq<string>, first: string)
    ensures Words([first] + mids) == first + Wire.Spaced(mids)
    decreases |mids|
  {
    var words := [first] + mids;
    if mids == [] {
      assert words == [first];
      assert first + [] == first;
    } else {
      assert words[1..] == mids == [mids[0]] + mids[1..];
      SpacedWords(mids[1..], mids[0]);
      assert first + " " + (mids[0] + Wire.Spaced(mids[1..])) == first + ([' '] + mids[0] + Wire.Spaced(mids[1..]));
    }
  }

  lemma BodyIsWords(f: Fields)
    ensures Wire.Body(VerbName(f.verb), f.mids, f.trailing) == Words(Line(f))
  {
    hide VerbName, Words;
    var verb := VerbName(f.verb);
    if f.trailing.Some? {
      var last := ":" + f.trailing.value;
      assert [verb] + f.mids + [last] == [verb] + (f.mids + [last]);
      SpacedWords(f.mids + [last], verb);
      Wire.SpacedLast(f.mids, last);
      assert verb + (Wire.Spaced(f.mids) + ([' '] + last)) == verb + Wire.Spaced(f.mids) + ([' ', ':'] + f.trailing.value);
    } else {
      assert [verb] + f.mids + [] == [verb] + f.mids;
      SpacedWords(f.mids, verb);
      assert verb + Wire.Spaced(f.mids) + [] == verb + Wire.Spaced(f.mids);
    }
  }

  predicate OfThree(m: LinkMessage) {
    m.Sserver? || m.Sredact? || m.Srename? || m.Skick? || m.Sinvite? || m.Sban?
  }

  lemma ThreeLine(m: LinkMessage)
    requires OfThree(m)
    ensures Line(FieldsOf(m)) == Documented(m)
  {
    hide Decimal;
  }

  lemma TwoLine(m: LinkMessage)
    requires Long(m) && !OfThree(m)
    ensures Line(FieldsOf(m)) == Documented(m)
  {
    hide Decimal;
  }

  lemma NumberedLine(m: LinkMessage)
    requires Numbered(m) && !m.Smode?
    ensures Line(FieldsOf(m)) == Documented(m)
  {
    hide Decimal;
  }

  lemma ModeLine(m: LinkMessage)
    requires m.Smode?
    ensures Line(FieldsOf(m)) == Documented(m)
  {
    hide Decimal;
    assert ["SMODE"] + ([m.channel, m.source, Decimal(m.ts), m.flags] + m.args) + []
        == ["SMODE", m.channel, m.source, Decimal(m.ts), m.flags] + m.args;
  }

  lemma RelayedLine(m: LinkMessage)
    requires Relayed(m)
    ensures Line(FieldsOf(m)) == Documented(m)
  {
    hide Decimal;
  }

  lemma ShortLine(m: LinkMessage)
    requires !Long(m) && !Numbered(m) && !Relayed(m)
    ensures Line(FieldsOf(m)) == Documented(m)
  {
    hide Decimal;
  }

  /** Every message is written as documented: verb and fields in this order, with single spaces, then CR LF. */
  lemma LineIsAsDocumented(m: LinkMessage)
    ensures ToLine(m) == Words(Documented(m)) + CRLF
  {
    hide FieldsOf, Documented, Words, Line, Wire.Body, VerbName;
    BodyIsWords(FieldsOf(m));
    if OfThree(m) {
      ThreeLine(m);
    } else if Long(m) {
      TwoLine(m);
    } else if m.Smode? {
      ModeLine(m);
    } else if Numbered(m) {
      NumberedLine(m);
    } else if Relayed(m) {
      RelayedLine(m);
    } else {
      ShortLine(m);
    }
  }

  // ----------------------------------------------------------------- what is read besides

  /** Verbs are recognised in any case. */
  lemma VerbInAnyCase(name: string, v: Verb)
    requires Spells(name, VerbName(v))
    ensures VerbOf(name) == Some(v)
  {
    hide VerbName, Spells, Lookup, Upper;
    VerbNameIsUpper(v);
    UpperIffSpells(name, VerbName(v));
    UpperOfUpper(VerbName(v));
    VerbRoundTrip(v);
  }

  /** Six parameters of a relayed message decode like seven with absent tags, whatever the id and the time. */
  lemma SixIsSeven(v: Verb, p: seq<string>)
    requires (v == SMSG || v == SCMSG) && |p| == 6
    ensures Decode(v, p) == Decode(v, p[..5] + ["*"] + p[5..])
  {
    hide ParseU64;
    var q := p[..5] + ["*"] + p[5..];
    assert q[..5] == p[..5] && q[6] == p[5];
  }

  /** Four decode like seven with id, time and tags absent. */
  lemma FourIsSeven(v: Verb, p: seq<string>)
    requires (v == SMSG || v == SCMSG) && |p| == 4
    ensures Decode(v, p) == Decode(v, p[..3] + ["*", "*", "*"] + p[3..])
  {
    hide ParseU64;
    NumbersRoundTrip();
    var q := p[..3] + ["*", "*", "*"] + p[3..];
    assert q[..3] == p[..3] && q[6] == p[3];
  }

  /** A notice is marked in either case; anything else is a message. */
  lemma NoticeLetter(p: seq<string>)
    requires |p| == 7
    ensures Decode(SMSG, p).Some? && (Decode(SMSG, p).value.notice <==> p[2] == "N" || p[2] == "n")
    ensures Decode(SCMSG, p).Some? && (Decode(SCMSG, p).value.notice <==> p[2] == "N" || p[2] == "n")
  {
    hide ParseU64;
  }

  /** SJOIN without status, or without a timestamp, or with one that is no number. */
  lemma JoinDefaults(channel: string, uid: string, flags: string, ts: string)
    ensures Decode(SJOIN, [channel, uid]) == Some(Sjoin(channel, uid, false, false, 0))
    ensures Decode(SJOIN, [channel, uid, flags]) == Some(Sjoin(channel, uid, 'o' in flags, 'v' in flags, 0))
    ensures ParseU64(ts, 10).None? ==>
              Decode(SJOIN, [channel, uid, flags, ts]) == Some(Sjoin(channel, uid, 'o' in flags, 'v' in flags, 0))
  {
    hide ParseU64;
  }

  /** How many parameters a verb needs at least, and how many it looks at. */
  function Arity(v: Verb): (int, int) {
    match v
    case PASS => (1, 1) case PING => (1, 1) case PONG => (1, 1) case ERROR => (1, 1) case SAWAY => (1, 2)
    case NICK => (2, 2) case QUIT => (2, 2) case SUMODE => (2, 2) case SACCOUNT => (2, 2) case SSETNAME => (2, 2)
    case SCHGHOST => (2, 2) case SWALLOPS => (2, 2) case KILL => (2, 2) case SQUIT => (2, 2) case SJOIN => (2, 4)
    case SERVER => (3, 3) case SPART => (3, 3) case SKNOCK => (3, 3) case STAGMSG => (3, 3) case SINVITE => (3, 3)
    case SREDACT => (3, 4) case SRENAME => (3, 4) case SSERVER => (4, 4) case SKICK => (4, 4) case SBAN => (4, 4)
    case STOPIC => (5, 5) case UID => (8, 8) case SMSG => (4, 7) case SCMSG => (4, 7) case SMODE => (3, 4)
  }

  /** The numbers a verb cannot do without are numbers; no generation of SMSG has five parameters. */
  predicate InForm(v: Verb, p: seq<string>)
    requires |p| >= Arity(v).0
  {
    && (v == UID ==> ParseU64(p[2], 10).Some?)
    && (v == STOPIC ==> ParseU64(p[3], 10).Some?)
    && (v == SMSG || v == SCMSG ==> |p| != 5)
    && (v == SMODE && ParseU64(p[2], 10).Some? ==> |p| >= 4)
  }

  lemma FewAreEnough(v: Verb, p: seq<string>)
    requires Arity(v).0 <= 2
    ensures Decode(v, p).Some? <==> |p| >= Arity(v).0 && InForm(v, p)
  {
    hide ParseU64;
  }

  /** A line of a known verb is read exactly if it has enough parameters, in form. */
  lemma ReadIffEnough(v: Verb, p: seq<string>)
    ensures Decode(v, p).Some? <==> |p| >= Arity(v).0 && InForm(v, p)
  {
    hide ParseU64;
    if Arity(v).0 <= 2 {
      hide Decode;
      FewAreEnough(v, p);
    }
  }

  /** What comes after the last parameter that is looked at makes no difference. */
  lemma ExtrasAreIgnored(v: Verb, p: seq<string>, more: seq<string>)
    requires v != SMODE && |p| >= Arity(v).1
    ensures Decode(v, p + more) == Decode(v, p)
  {
    hide ParseU64;
  }

  /** A reason left out is empty; only `+` adds a ban. */
  lemma OptionalParts(a: string, b: string, c: string, d: string)
    ensures Decode(SREDACT, [a, b, c]) == Some(Sredact(a, b, c, ""))
    ensures Decode(SRENAME, [a, b, c]) == Some(Srename(a, b, c, ""))
    ensures Decode(SBAN, [a, b, c, d]) == Some(Sban(a == "+", b, c, d))
    ensures Decode(SAWAY, [a]) == Some(Saway(a, None))
  {
    hide ParseU64;
  }
}
