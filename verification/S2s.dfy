/** The server-to-server message grammar (ferrixd/src/s2s.rs). */
module S2s {
  import opened Octets
  import opened Protocol
  import opened Numbers
  import Parser
  import Wire

  datatype LinkMessage =
    | Pass(token: string)
    | Server(name: string, sid: string, description: string)
    | Sserver(name: string, sid: string, uplink: string, description: string)
    | Ping(token: string)
    | Pong(token: string)
    | Uid(sid: string, uid: string, lamport: nat, nick: string, user: string, host: string, account: string,
          realname: string)
    | Nick(uid: string, nick: string)
    | Quit(uid: string, reason: string)
    | UserMessage(source: string, target: string, notice: bool, msgid: Option<string>, timeMs: Option<nat>,
                  tags: Option<string>, text: string)
    | Sjoin(channel: string, uid: string, op: bool, voice: bool, ts: nat)
    | Spart(channel: string, uid: string, reason: string)
    | ChanMessage(source: string, channel: string, notice: bool, msgid: Option<string>, timeMs: Option<nat>,
                  tags: Option<string>, text: string)
    | Sumode(uid: string, flags: string)
    | Sknock(source: string, channel: string, mask: string)
    | TagMessage(source: string, target: string, tagList: string)
    | Sredact(source: string, target: string, id: string, reason: string)
    | Srename(source: string, oldName: string, newName: string, reason: string)
    | Stopic(channel: string, source: string, setBy: string, setAt: nat, text: string)
    | Smode(channel: string, source: string, ts: nat, flags: string, args: seq<string>)
    | Skick(channel: string, source: string, target: string, reason: string)
    | Saway(uid: string, awayReason: Option<string>)
    | Saccount(uid: string, account: string)
    | Ssetname(uid: string, realname: string)
    | Schghost(uid: string, host: string)
    | Swallops(source: string, text: string)
    | Sinvite(source: string, target: string, channel: string)
    | Sban(add: bool, mask: string, setBy: string, reason: string)
    | Kill(uid: string, reason: string)
    | Squit(sid: string, reason: string)
    | Error(reason: string)

  datatype Verb =
    | PASS | SERVER | SSERVER | PING | PONG | UID | NICK | QUIT | SMSG | SJOIN
    | SPART | SCMSG | SUMODE | SKNOCK | STAGMSG | SREDACT | SRENAME | STOPIC | SMODE | SKICK
    | SAWAY | SACCOUNT | SSETNAME | SCHGHOST | SWALLOPS | SINVITE | SBAN | KILL | SQUIT | ERROR

  function VerbName(v: Verb): string {
    match v
    case PASS => "PASS" case SERVER => "SERVER" case SSERVER => "SSERVER" case PING => "PING"
    case PONG => "PONG" case UID => "UID" case NICK => "NICK" case QUIT => "QUIT"
    case SMSG => "SMSG" case SJOIN => "SJOIN" case SPART => "SPART" case SCMSG => "SCMSG"
    case SUMODE => "SUMODE" case SKNOCK => "SKNOCK" case STAGMSG => "STAGMSG" case SREDACT => "SREDACT"
    case SRENAME => "SRENAME" case STOPIC => "STOPIC" case SMODE => "SMODE" case SKICK => "SKICK"
    case SAWAY => "SAWAY" case SACCOUNT => "SACCOUNT" case SSETNAME => "SSETNAME" case SCHGHOST => "SCHGHOST"
    case SWALLOPS => "SWALLOPS" case SINVITE => "SINVITE" case SBAN => "SBAN" case KILL => "KILL"
    case SQUIT => "SQUIT" case ERROR => "ERROR"
  }

  const VERBS: seq<Verb> := [
    PASS, SERVER, SSERVER, PING, PONG, UID, NICK, QUIT, SMSG, SJOIN,
    SPART, SCMSG, SUMODE, SKNOCK, STAGMSG, SREDACT, SRENAME, STOPIC, SMODE, SKICK,
    SAWAY, SACCOUNT, SSETNAME, SCHGHOST, SWALLOPS, SINVITE, SBAN, KILL, SQUIT, ERROR]

  /** The first verb of `vs` with this name. */
  function Lookup(name: string, vs: seq<Verb>): Option<Verb> {
    if vs == [] then None else if name == VerbName(vs[0]) then Some(vs[0]) else Lookup(name, vs[1..])
  }

  function VerbOf(name: string): Option<Verb> {
    Lookup(Upper(name), VERBS)
  }

  function Flags(op: bool, voice: bool): string {
    if op && voice then "ov" else if op then "o" else if voice then "v" else "-"
  }

  function OrStar(v: Option<string>): string {
    if v.Some? then v.value else "*"
  }

  function NumberOrStar(v: Option<nat>): string {
    if v.Some? then Decimal(v.value) else "*"
  }

  datatype Fields = Fields(verb: Verb, mids: seq<string>, trailing: Option<string>)

  /** What each message writes: verb, middle parameters, trailing parameter. */
  function FieldsOf(m: LinkMessage): Fields {
    match m
    case Pass(token) => Fields(PASS, [], Some(token))
    case Server(name, sid, description) => Fields(SERVER, [name, sid], Some(description))
    case Sserver(name, sid, uplink, description) => Fields(SSERVER, [name, sid, uplink], Some(description))
    case Ping(token) => Fields(PING, [], Some(token))
    case Pong(token) => Fields(PONG, [], Some(token))
    case Uid(sid, uid, lamport, nick, user, host, account, realname) =>
      Fields(UID, [sid, uid, Decimal(lamport), nick, user, host, account], Some(realname))
    case Nick(uid, nick) => Fields(NICK, [uid, nick], None)
    case Quit(uid, reason) => Fields(QUIT, [uid], Some(reason))
    case UserMessage(source, target, notice, msgid, timeMs, tags, text) =>
      Fields(SMSG, [source, target, if notice then "N" else "P", OrStar(msgid), NumberOrStar(timeMs), OrStar(tags)],
             Some(text))
    case Sjoin(channel, uid, op, voice, ts) => Fields(SJOIN, [channel, uid, Flags(op, voice), Decimal(ts)], None)
    case Spart(channel, uid, reason) => Fields(SPART, [channel, uid], Some(reason))
    case ChanMessage(source, channel, notice, msgid, timeMs, tags, text) =>
      Fields(SCMSG, [source, channel, if notice then "N" else "P", OrStar(msgid), NumberOrStar(timeMs), OrStar(tags)],
             Some(text))
    case Sumode(uid, flags) => Fields(SUMODE, [uid, flags], None)
    case Sknock(source, channel, mask) => Fields(SKNOCK, [source, channel], Some(mask))
    case TagMessage(source, target, tagList) => Fields(STAGMSG, [source, target], Some(tagList))
    case Sredact(source, target, id, reason) => Fields(SREDACT, [source, target, id], Some(reason))
    case Srename(source, oldName, newName, reason) => Fields(SRENAME, [source, oldName, newName], Some(reason))
    case Stopic(channel, source, setBy, setAt, text) =>
      Fields(STOPIC, [channel, source, setBy, Decimal(setAt)], Some(text))
    case Smode(channel, source, ts, flags, args) => Fields(SMODE, [channel, source, Decimal(ts), flags] + args, None)
    case Skick(channel, source, target, reason) => Fields(SKICK, [channel, source, target], Some(reason))
    case Saway(uid, reason) => Fields(SAWAY, [uid], reason)
    case Saccount(uid, account) => Fields(SACCOUNT, [uid, account], None)
    case Ssetname(uid, realname) => Fields(SSETNAME, [uid], Some(realname))
    case Schghost(uid, host) => Fields(SCHGHOST, [uid, host], None)
    case Swallops(source, text) => Fields(SWALLOPS, [source], Some(text))
    case Sinvite(source, target, channel) => Fields(SINVITE, [source, target, channel], None)
    case Sban(add, mask, setBy, reason) => Fields(SBAN, [if add then "+" else "-", mask, setBy], Some(reason))
    case Kill(uid, reason) => Fields(KILL, [uid], Some(reason))
    case Squit(sid, reason) => Fields(SQUIT, [sid], Some(reason))
    case Error(reason) => Fields(ERROR, [], Some(reason))
  }

  function LineBody(m: LinkMessage): string {
    var f := FieldsOf(m);
    Wire.Body(VerbName(f.verb), f.mids, f.trailing)
  }

  function ToLine(m: LinkMessage): string {
    LineBody(m) + CRLF
  }

  function Unstar(v: string): Option<string> {
    if v == "*" then None else Some(v)
  }

  datatype MessageTail = MessageTail(msgid: Option<string>, timeMs: Option<nat>, tags: Option<string>, text: string)

  /** The three wire generations of SMSG and SCMSG. */
  function ParseMessageTail(p: seq<string>): Option<MessageTail> {
    if |p| <= 4 then (if |p| == 4 then Some(MessageTail(None, None, None, p[3])) else None)
    else if |p| <= 6 then
      (if |p| == 6 then Some(MessageTail(Unstar(p[3]), ParseU64(p[4], 10), None, p[5])) else None)
    else Some(MessageTail(Unstar(p[3]), ParseU64(p[4], 10), Unstar(p[5]), p[6]))
  }

  function OrEmpty(p: seq<string>, i: nat): string {
    if i < |p| then p[i] else ""
  }

  function DecodeSmode(p: seq<string>): Option<LinkMessage> {
    var ts := if |p| > 2 then ParseU64(p[2], 10) else None;
    var at := if ts.Some? then 3 else 2;
    if |p| <= at then None
    else Some(Smode(p[0], p[1], if ts.Some? then ts.value else 0, p[at], p[at + 1..]))
  }

  /** `from_message` once the verb is known; `p` are the parameters. */
  function Decode(v: Verb, p: seq<string>): Option<LinkMessage> {
    match v
    case PASS => if |p| < 1 then None else Some(Pass(p[0]))
    case SERVER => if |p| < 3 then None else Some(Server(p[0], p[1], p[2]))
    case SSERVER => if |p| < 4 then None else Some(Sserver(p[0], p[1], p[2], p[3]))
    case PING => if |p| < 1 then None else Some(Ping(p[0]))
    case PONG => if |p| < 1 then None else Some(Pong(p[0]))
    case UID =>
      if |p| < 8 || ParseU64(p[2], 10).None? then None
      else Some(Uid(p[0], p[1], ParseU64(p[2], 10).value, p[3], p[4], p[5], p[6], p[7]))
    case NICK => if |p| < 2 then None else Some(Nick(p[0], p[1]))
    case QUIT => if |p| < 2 then None else Some(Quit(p[0], p[1]))
    case SMSG =>
      (match ParseMessageTail(p)
       case None => None
       case Some(t) =>
         Some(UserMessage(p[0], p[1], p[2] == "N" || p[2] == "n", t.msgid, t.timeMs, t.tags, t.text)))
    case SJOIN =>
      if |p| < 2 then None
      else
        var flags := if |p| > 2 then p[2] else "-";
        var ts := if |p| > 3 then ParseU64(p[3], 10) else None;
        Some(Sjoin(p[0], p[1], 'o' in flags, 'v' in flags, if ts.Some? then ts.value else 0))
    case STOPIC =>
      if |p| < 5 || ParseU64(p[3], 10).None? then None
      else Some(Stopic(p[0], p[1], p[2], ParseU64(p[3], 10).value, p[4]))
    case SMODE => DecodeSmode(p)
    case SKICK => if |p| < 4 then None else Some(Skick(p[0], p[1], p[2], p[3]))
    case SAWAY => if |p| < 1 then None else Some(Saway(p[0], if |p| > 1 then Some(p[1]) else None))
    case SSETNAME => if |p| < 2 then None else Some(Ssetname(p[0], p[1]))
    case SCHGHOST => if |p| < 2 then None else Some(Schghost(p[0], p[1]))
    case SWALLOPS => if |p| < 2 then None else Some(Swallops(p[0], p[1]))
    case SINVITE => if |p| < 3 then None else Some(Sinvite(p[0], p[1], p[2]))
    case SBAN => if |p| < 4 then None else Some(Sban(p[0] == "+", p[1], p[2], p[3]))
    case SACCOUNT => if |p| < 2 then None else Some(Saccount(p[0], p[1]))
    case SPART => if |p| < 3 then None else Some(Spart(p[0], p[1], p[2]))
    case SCMSG =>
      (match ParseMessageTail(p)
       case None => None
       case Some(t) =>
         Some(ChanMessage(p[0], p[1], p[2] == "N" || p[2] == "n", t.msgid, t.timeMs, t.tags, t.text)))
    case SUMODE => if |p| < 2 then None else Some(Sumode(p[0], p[1]))
    case SKNOCK => if |p| < 3 then None else Some(Sknock(p[0], p[1], p[2]))
    case STAGMSG => if |p| < 3 then None else Some(TagMessage(p[0], p[1], p[2]))
    case SREDACT => if |p| < 3 then None else Some(Sredact(p[0], p[1], p[2], OrEmpty(p, 3)))
    case SRENAME => if |p| < 3 then None else Some(Srename(p[0], p[1], p[2], OrEmpty(p, 3)))
    case KILL => if |p| < 2 then None else Some(Kill(p[0], p[1]))
    case SQUIT => if |p| < 2 then None else Some(Squit(p[0], p[1]))
    case ERROR => if |p| < 1 then None else Some(Error(p[0]))
  }

  function FromMessage(m: Message): Option<LinkMessage> {
    match m.command
    case Numeric(_) => None
    case Named(name) =>
      match VerbOf(name)
      case None => None
      case Some(v) => Decode(v, m.params)
  }

  /** What a link's read loop makes of one line. */
  function FromLine(line: string, limits: Limits): Option<LinkMessage> {
    match Parser.Parse(line, limits)
    case Err(_) => None
    case Ok(m) => FromMessage(m)
  }

  /** Numbers fit their Rust type, and present values are not the absence marker. */
  predicate Representable(m: LinkMessage) {
    match m
    case Uid(_, _, lamport, _, _, _, _, _) => lamport < U64_RANGE
    case Sjoin(_, _, _, _, ts) => ts < U64_RANGE
    case Stopic(_, _, _, setAt, _) => setAt < U64_RANGE
    case Smode(_, _, ts, _, _) => ts < U64_RANGE
    case UserMessage(_, _, _, msgid, timeMs, tags, _) =>
      msgid != Some("*") && tags != Some("*") && (timeMs.Some? ==> timeMs.value < U64_RANGE)
    case ChanMessage(_, _, _, msgid, timeMs, tags, _) =>
      msgid != Some("*") && tags != Some("*") && (timeMs.Some? ==> timeMs.value < U64_RANGE)
    case _ => true
  }

  /** Middle fields are tokens, trailing fields are text. */
  predicate LegalMessage(m: LinkMessage) {
    Representable(m) && Wire.Legal(FieldsOf(m).mids, FieldsOf(m).trailing)
  }

  // ------------------------------------------------------------------ round trip

  lemma VerbNameIsUpper(v: Verb)
    ensures VerbName(v) != [] && forall i :: 0 <= i < |VerbName(v)| ==> IsUpper(VerbName(v)[i])
  {
  }

  lemma NamesDiffer(v: Verb, w: Verb)
    requires VerbName(v) == VerbName(w)
    ensures v == w
  {
  }

  lemma {:induction false} LookupFinds(v: Verb, vs: seq<Verb>)
    requires v in vs
    ensures Lookup(VerbName(v), vs) == Some(v)
  {
    hide VerbName;
    if VerbName(v) == VerbName(vs[0]) {
      NamesDiffer(v, vs[0]);
    } else {
      assert vs == [vs[0]] + vs[1..];
      LookupFinds(v, vs[1..]);
    }
  }

  lemma EveryVerbIsListed(v: Verb)
    ensures v in VERBS
  {
  }

  lemma VerbRoundTrip(v: Verb)
    ensures VerbOf(VerbName(v)) == Some(v)
  {
    hide VerbName;
    VerbNameIsUpper(v);
    UpperOfUpper(VerbName(v));
    EveryVerbIsListed(v);
    LookupFinds(v, VERBS);
  }

  lemma NumbersRoundTrip()
    ensures forall n: nat :: n < U64_RANGE ==> ParseU64(Decimal(n), 10) == Some(n)
    ensures ParseU64("*", 10) == None
  {
    forall n: nat | n < U64_RANGE
      ensures ParseU64(Decimal(n), 10) == Some(n)
    {
      ParseDecimal(n);
    }
    assert DigitOf("*"[0], 10).None?;
  }

  lemma DecodeRelayed(m: LinkMessage)
    requires Representable(m) && (m.UserMessage? || m.ChanMessage?)
    ensures var f := FieldsOf(m);
            Decode(f.verb, Wire.Params(f.mids, f.trailing)) == Some(m)
  {
    hide Decimal, ParseU64;
    NumbersRoundTrip();
  }

  lemma DecodeNumbered(m: LinkMessage)
    requires Representable(m) && (m.Uid? || m.Sjoin? || m.Stopic? || m.Smode?)
    ensures var f := FieldsOf(m);
            Decode(f.verb, Wire.Params(f.mids, f.trailing)) == Some(m)
  {
    hide Decimal, ParseU64;
    NumbersRoundTrip();
    if m.Smode? {
      assert Wire.Params(FieldsOf(m).mids, None)[4..] == m.args;
    }
  }

  predicate Numbered(m: LinkMessage) {
    m.Uid? || m.Sjoin? || m.Stopic? || m.Smode?
  }

  predicate Relayed(m: LinkMessage) {
    m.UserMessage? || m.ChanMessage?
  }

  /** Of two or more middle fields, or one and no trailing. */
  predicate Long(m: LinkMessage) {
    || m.Server? || m.Sserver? || m.Nick? || m.Spart? || m.Sumode? || m.Sknock? || m.TagMessage? || m.Sredact?
    || m.Srename? || m.Skick? || m.Saccount? || m.Schghost? || m.Sinvite? || m.Sban?
  }

  lemma DecodeLong(m: LinkMessage)
    requires Long(m)
    ensures var f := FieldsOf(m);
            Decode(f.verb, Wire.Params(f.mids, f.trailing)) == Some(m)
  {
    hide Decimal, ParseU64, Flags;
  }

  lemma DecodeShort(m: LinkMessage)
    requires !Long(m) && !Numbered(m) && !Relayed(m)
    ensures var f := FieldsOf(m);
            Decode(f.verb, Wire.Params(f.mids, f.trailing)) == Some(m)
  {
    hide Decimal, ParseU64, Flags;
  }

  /** Decoding the written fields gives the message back. */
  lemma DecodeFields(m: LinkMessage)
    requires Representable(m)
    ensures var f := FieldsOf(m);
            Decode(f.verb, Wire.Params(f.mids, f.trailing)) == Some(m)
  {
    hide Decode, FieldsOf, Wire.Params, Representable;
    if Relayed(m) {
      DecodeRelayed(m);
    } else if Numbered(m) {
      DecodeNumbered(m);
    } else if Long(m) {
      DecodeLong(m);
    } else {
      DecodeShort(m);
    }
  }

  /**
   * Every legal message that fits the budget is read off its line exactly, so a
   * frame says the same on both ends of a link.
   */
  lemma FromLineToLine(m: LinkMessage, limits: Limits)
    requires LegalMessage(m) && |LineBody(m)| <= limits.maxBodyBytes
    ensures FromLine(ToLine(m), limits) == Some(m)
  {
    hide Parser.Parse, VerbName, VerbOf, Decode, FieldsOf, Wire.Body, Wire.Legal, Wire.Params;
    var f := FieldsOf(m);
    VerbNameIsUpper(f.verb);
    Wire.LegalReadsBack(VerbName(f.verb), f.mids, f.trailing, limits);
    VerbRoundTrip(f.verb);
    DecodeFields(m);
  }

  /** A server relays what it understood of a line (the `raw` copy of the read loop). */
  function Relay(line: string, limits: Limits): Option<string> {
    match FromLine(line, limits)
    case None => None
    case Some(m) => Some(ToLine(m))
  }

  function Hops(line: string, n: nat, limits: Limits): Option<string> {
    if n == 0 then Some(line)
    else
      var last := Hops(line, n - 1, limits);
      if last.None? then None else Relay(last.value, limits)
  }

  /** Any number of relaying servers leaves a legal frame unchanged. */
  lemma {:induction false} HopsKeepFrame(m: LinkMessage, n: nat, limits: Limits)
    requires LegalMessage(m) && |LineBody(m)| <= limits.maxBodyBytes
    ensures Hops(ToLine(m), n, limits) == Some(ToLine(m))
  {
    hide FromLine, ToLine, LegalMessage, LineBody;
    if n > 0 {
      FromLineToLine(m, limits);
      HopsKeepFrame(m, n - 1, limits);
    }
  }

  /**
   * A frame with a field that is no token is not relayed faithfully: the next
   * server reads a nick with a space in it, the one after that only its first
   * word.
   */
  lemma RelayLosesSpacedNick(limits: Limits)
    requires limits.maxBodyBytes >= 16
    ensures var m := Nick("u", "a b");
            && FromLine(Wire.Body("NICK", ["u"], Some("a b")) + CRLF, limits) == Some(m)
            && FromLine(ToLine(m), limits) == Some(Nick("u", "a"))
  {
    hide Parser.Parse, VerbOf, ValidUtf8, Find;
    VerbRoundTrip(NICK);
    ValidAscii("u");
    ValidAscii("a");
    ValidAscii("b");
    ValidAscii("a b");
    Wire.LegalReadsBack("NICK", ["u"], Some("a b"), limits);
    Wire.LegalReadsBack("NICK", ["u", "a", "b"], None, limits);
    SpacedOutNick();
  }

  lemma SpacedOutNick()
    ensures Wire.Body("NICK", ["u", "a b"], None) == Wire.Body("NICK", ["u", "a", "b"], None)
    ensures |Wire.Body("NICK", ["u"], Some("a b"))| <= 16 && |Wire.Body("NICK", ["u", "a", "b"], None)| <= 16
  {
    assert Wire.Spaced(["u", "a b"]) == " u a b" by {
      assert Wire.Spaced(["u", "a b"][1..]) == " a b" + Wire.Spaced([]);
    }
    assert Wire.Spaced(["u", "a", "b"]) == " u a b" by {
      assert ["u", "a", "b"][1..] == ["a", "b"] && ["a", "b"][1..] == ["b"];
      assert Wire.Spaced(["b"]) == " b";
    }
  }

  // ------------------------------------------------------------- older wire forms

  /** SMSG and SCMSG with the optional fields absent, in all three generations. */
  lemma MessageFormsAgree(verb: Verb, head: seq<string>, text: string, limits: Limits)
    requires verb == SMSG || verb == SCMSG
    requires |head| == 3 && Wire.Legal(head, Some(text))
    requires |Wire.Body(VerbName(verb), head + ["*", "*", "*"], Some(text))| <= limits.maxBodyBytes
    ensures var four := FromLine(Wire.Body(VerbName(verb), head, Some(text)) + CRLF, limits);
            var six := FromLine(Wire.Body(VerbName(verb), head + ["*", "*"], Some(text)) + CRLF, limits);
            var seven := FromLine(Wire.Body(VerbName(verb), head + ["*", "*", "*"], Some(text)) + CRLF, limits);
            four.Some? && four == six == seven
  {
    hide Parser.Parse, VerbName, VerbOf, ParseU64, Wire.Body;
    VerbNameIsUpper(verb);
    VerbRoundTrip(verb);
    NumbersRoundTrip();
    StarIsToken();
    BodyGrows(VerbName(verb), head, ["*", "*", "*"], Some(text));
    BodyGrows(VerbName(verb), head + ["*", "*"], ["*"], Some(text));
    assert head + ["*", "*"] + ["*"] == head + ["*", "*", "*"];
    Wire.LegalReadsBack(VerbName(verb), head, Some(text), limits);
    Wire.LegalReadsBack(VerbName(verb), head + ["*", "*"], Some(text), limits);
    Wire.LegalReadsBack(VerbName(verb), head + ["*", "*", "*"], Some(text), limits);
  }

  lemma StarIsToken()
    ensures Token("*")
  {
    ValidAscii("*");
  }

  lemma {:induction false} SpacedConcat(a: seq<string>, b: seq<string>)
    ensures Wire.Spaced(a + b) == Wire.Spaced(a) + Wire.Spaced(b)
  {
    if a == [] {
      assert a + b == b;
    } else {
      assert (a + b)[1..] == a[1..] + b;
      SpacedConcat(a[1..], b);
    }
  }

  lemma BodyGrows(verb: string, mids: seq<string>, more: seq<string>, trailing: Option<string>)
    ensures |Wire.Body(verb, mids, trailing)| <= |Wire.Body(verb, mids + more, trailing)|
  {
    SpacedConcat(mids, more);
  }

  /**
   * SMODE without a timestamp is still read as such exactly when its flags are
   * not themselves a number; Rust's `u64` parser takes a leading `+`.
   */
  lemma SmodeWithoutTs(channel: string, source: string, flags: string, args: seq<string>)
    ensures Decode(SMODE, [channel, source, flags] + args) == Some(Smode(channel, source, 0, flags, args))
       <==> ParseU64(flags, 10).None?
  {
    hide ParseU64;
    var p := [channel, source, flags] + args;
    assert p[2] == flags && p[3..] == args;
    if ParseU64(flags, 10).Some? && |p| > 3 {
      assert |p[4..]| < |args|;
    }
  }

  lemma SmodeReadsPlusDigits()
    ensures Decode(SMODE, ["#c", "*", "+5", "x"]) == Some(Smode("#c", "*", 5, "x", []))
  {
    var d := "+5"[1..];
    assert d == "5" && d[..0] == [];
    assert Value(d, 10) == 5;
  }
}
