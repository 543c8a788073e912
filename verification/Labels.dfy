/** Buffering and framing the replies of one labeled command (ferrixd/src/session.rs). */
module Labels {
  import opened Octets
  import opened Protocol
  import opened Sequences
  import Tags
  import Parser
  import Encode
  import Wire
  import opened Session

  // ------------------------------------------------------------------- lines

  function ServerLine(server: string, verb: string, mids: seq<string>): string {
    [':'] + server + [' '] + (verb + Wire.Spaced(mids)) + CRLF
  }

  function ServerMessage(server: string, verb: string, mids: seq<string>): Message {
    Message([], Some(Source(server, None, None)), Named(verb), mids)
  }

  /** A server line that can be read back under `limits`. */
  predicate ReadableServerLine(server: string, verb: string, mids: seq<string>, limits: Limits) {
    && ValidSource(Source(server, None, None))
    && verb != [] && AllAlpha(verb)
    && (forall i :: 0 <= i < |mids| ==> Token(mids[i]))
    && 2 + |server| + |verb + Wire.Spaced(mids)| <= limits.maxBodyBytes
  }

  lemma {:induction false} RenderTokens(mids: seq<string>)
    requires forall i :: 0 <= i < |mids| ==> Token(mids[i])
    ensures Encode.RenderParams(mids) == Wire.Spaced(mids)
  {
    hide ValidUtf8;
    if |mids| == 1 {
      assert forall i :: 0 <= i < |mids[0]| ==> mids[0][i] in mids[0];
      assert !Encode.NeedsColon(mids[0]);
      assert mids[1..] == [];
      assert [' '] + mids[0] + [] == [' '] + mids[0];
    } else if |mids| > 1 {
      RenderTokens(mids[1..]);
    }
  }

  lemma TokensAreParams(mids: seq<string>)
    requires forall i :: 0 <= i < |mids| ==> Token(mids[i])
    ensures ValidParams(mids)
  {
    hide ValidUtf8;
  }

  lemma ServerLineIsRead(server: string, verb: string, mids: seq<string>, limits: Limits)
    requires ReadableServerLine(server, verb, mids, limits)
    ensures Parser.Parse(ServerLine(server, verb, mids), limits) == Ok(ServerMessage(server, verb, mids))
  {
    hide Parser.Parse, ValidSource, Token, ValidParams;
    var m := ServerMessage(server, verb, mids);
    TokensAreParams(mids);
    RenderTokens(mids);
    assert Encode.RenderSource(m.source.value) == server;
    assert Encode.Render(m) == ServerLine(server, verb, mids);
    Encode.ParseRender(m, limits);
  }

  /** What follows the first space, or nothing. */
  function AfterSpace(s: string): string {
    Parser.After(s, Find(s, ' '))
  }

  function SkipMarked(s: string, mark: char): string {
    if s != [] && s[0] == mark then AfterSpace(s[1..]) else s
  }

  /** Does a rendered line open a batch of its own? */
  predicate OpensBatch(line: string) {
    var rest := SkipMarked(SkipMarked(line, '@'), ':');
    var arg := AfterSpace(rest);
    && ValidUtf8(line)
    && rest[..Find(rest, ' ')] == "BATCH"
    && Find(rest, ' ') < |rest|
    && arg != [] && arg[0] == '+'
  }

  function BatchText(reference: string): string {
    "batch=" + reference
  }

  function BatchTag(reference: string): Tag {
    Tag("batch", Some(reference))
  }

  function TagAll(lines: seq<string>, tag: string): seq<string> {
    seq(|lines|, i requires 0 <= i < |lines| => PrependTag(lines[i], tag))
  }

  /** What `end_label` sends for the buffered replies. */
  function Frame(text: string, buffer: seq<string>, server: string, reference: string): seq<string> {
    if |buffer| == 0 then [PrependTag(ServerLine(server, "ACK", []), LabelText(text))]
    else if |buffer| == 1 || OpensBatch(buffer[0]) then [PrependTag(buffer[0], LabelText(text))] + buffer[1..]
    else
      [PrependTag(ServerLine(server, "BATCH", ["+" + reference, "labeled-response"]), LabelText(text))]
      + TagAll(buffer, BatchText(reference))
      + [ServerLine(server, "BATCH", ["-" + reference])]
  }

  // ------------------------------------------------------------------ the session

  datatype State = State(pending: Option<string>, buffer: Option<seq<string>>, sent: seq<string>)

  function ValueOfTag(tags: seq<Tag>, key: string): Option<string> {
    if tags == [] then None
    else if tags[0].key == key then tags[0].value
    else ValueOfTag(tags[1..], key)
  }

  function Begin(st: State, capable: bool, m: Message): State {
    var found := ValueOfTag(m.tags, "label");
    if capable && found.Some? then st.(pending := found, buffer := Some([])) else st
  }

  function Emit(st: State, line: string): State {
    if st.buffer.Some? then st.(buffer := Some(st.buffer.value + [line])) else st.(sent := st.sent + [line])
  }

  function End(st: State, server: string, reference: string): State {
    if st.pending.None? then st
    else if st.buffer.None? then st.(pending := None)
    else State(None, None, st.sent + Frame(st.pending.value, st.buffer.value, server, reference))
  }

  class LabeledSession {
    const server: string
    var pending: Option<string>
    var buffer: Option<seq<string>>
    var sent: seq<string>

    ghost function View(): State
      reads this
    {
      State(pending, buffer, sent)
    }

    constructor (server: string)
      ensures this.server == server && View() == State(None, None, [])
    {
      this.server, pending, buffer, sent := server, None, None, [];
    }

    method BeginLabel(capable: bool, m: Message)
      modifies this
      ensures View() == Begin(old(View()), capable, m)
    {
      if !capable {
        return;
      }
      var found := ValueOfTag(m.tags, "label");
      if found.Some? {
        pending := found;
        buffer := Some([]);
      }
    }

    method EmitLine(line: string)
      modifies this
      ensures View() == Emit(old(View()), line)
    {
      if buffer.Some? {
        buffer := Some(buffer.value + [line]);
      } else {
        sent := sent + [line];
      }
    }

    method SendAll(lines: seq<string>)
      modifies this`sent
      ensures sent == old(sent) + lines
    {
      for i := 0 to |lines|
        invariant sent == old(sent) + lines[..i]
      {
        sent := sent + [lines[i]];
      }
      assert lines[..|lines|] == lines;
    }

    method SendTagged(lines: seq<string>, tag: string)
      modifies this`sent
      ensures sent == old(sent) + TagAll(lines, tag)
    {
      hide PrependTag;
      ghost var tagged := TagAll(lines, tag);
      for i := 0 to |lines|
        invariant sent == old(sent) + tagged[..i]
      {
        sent := sent + [PrependTag(lines[i], tag)];
      }
      assert tagged[..|lines|] == tagged;
    }

    method EndLabel(reference: string)
      modifies this
      ensures View() == End(old(View()), server, reference)
    {
      hide PrependTag, ServerLine, OpensBatch, TagAll;
      if pending.None? {
        return;
      }
      var tag := LabelText(pending.value);
      pending := None;
      if buffer.None? {
        return;
      }
      var lines := buffer.value;
      buffer := None;
      if |lines| == 0 {
        sent := sent + [PrependTag(ServerLine(server, "ACK", []), tag)];
      } else if |lines| == 1 || OpensBatch(lines[0]) {
        sent := sent + [PrependTag(lines[0], tag)];
        SendAll(lines[1..]);
      } else {
        sent := sent + [PrependTag(ServerLine(server, "BATCH", ["+" + reference, "labeled-response"]), tag)];
        SendTagged(lines, BatchText(reference));
        sent := sent + [ServerLine(server, "BATCH", ["-" + reference])];
      }
    }
  }

  function EmitAll(st: State, lines: seq<string>): State
    decreases |lines|
  {
    if lines == [] then st else EmitAll(Emit(st, lines[0]), lines[1..])
  }

  lemma {:induction false} EmitAllBuffers(st: State, lines: seq<string>)
    requires st.buffer.Some?
    ensures EmitAll(st, lines) == st.(buffer := Some(st.buffer.value + lines))
    decreases |lines|
  {
    if lines == [] {
      assert st.buffer.value + [] == st.buffer.value;
    } else {
      EmitAllBuffers(Emit(st, lines[0]), lines[1..]);
      assert st.buffer.value + [lines[0]] + lines[1..] == st.buffer.value + lines;
    }
  }

  /** One labeled command, from its arrival to the flush of its replies. */
  lemma LabeledCommand(st: State, m: Message, lines: seq<string>, server: string, reference: string)
    requires ValueOfTag(m.tags, "label").Some?
    ensures End(EmitAll(Begin(st, true, m), lines), server, reference) ==
            State(None, None, st.sent + Frame(ValueOfTag(m.tags, "label").value, lines, server, reference))
  {
    hide Frame;
    EmitAllBuffers(Begin(st, true, m), lines);
    assert [] + lines == lines;
  }

  /** The value of the first tag with this key, if it has one. */
  ghost predicate FirstValue(tags: seq<Tag>, key: string, v: string) {
    exists i :: 0 <= i < |tags| && tags[i] == Tag(key, Some(v)) && forall k :: 0 <= k < i ==> tags[k].key != key
  }

  lemma {:induction false} ValueOfTagIff(tags: seq<Tag>, key: string, v: string)
    ensures ValueOfTag(tags, key) == Some(v) <==> FirstValue(tags, key, v)
  {
    if tags != [] {
      var rest := tags[1..];
      ValueOfTagIff(rest, key, v);
      assert tags[0].value == Some(v) ==> tags[0] == Tag(tags[0].key, Some(v));
      if tags[0].key != key {
        if FirstValue(rest, key, v) {
          var i :| 0 <= i < |rest| && rest[i] == Tag(key, Some(v)) && forall k :: 0 <= k < i ==> rest[k].key != key;
          assert tags[i + 1] == rest[i];
          assert forall k :: 0 < k < i + 1 ==> tags[k] == rest[k - 1];
        }
        if FirstValue(tags, key, v) {
          var i :| 0 <= i < |tags| && tags[i] == Tag(key, Some(v)) && forall k :: 0 <= k < i ==> tags[k].key != key;
          assert rest[i - 1] == tags[i];
          assert forall k :: 0 <= k < i - 1 ==> rest[k] == tags[k + 1];
        }
      }
    }
  }

  // ------------------------------------------------------------------------------ runs

  /** One command: the message, whether the client may label, the replies, and an id for a batch. */
  datatype Request = Request(m: Message, capable: bool, lines: seq<string>, reference: string)

  function Handle(st: State, server: string, c: Request): State {
    End(EmitAll(Begin(st, c.capable, c.m), c.lines), server, c.reference)
  }

  function HandleAll(st: State, server: string, commands: seq<Request>): State
    decreases |commands|
  {
    if commands == [] then st else HandleAll(Handle(st, server, commands[0]), server, commands[1..])
  }

  /** The command is labeled `v`. */
  ghost predicate IsLabeled(c: Request, v: string) {
    c.capable && FirstValue(c.m.tags, "label", v)
  }

  /** What a command should send: its replies as they are, or their frame if it is labeled. */
  ghost predicate IsShare(server: string, c: Request, share: seq<string>) {
    && (forall v :: IsLabeled(c, v) ==> share == Frame(v, c.lines, server, c.reference))
    && ((forall v :: !IsLabeled(c, v)) ==> share == c.lines)
  }

  lemma {:induction false} EmitAllSends(st: State, lines: seq<string>)
    requires st.buffer.None?
    ensures EmitAll(st, lines) == st.(sent := st.sent + lines)
    decreases |lines|
  {
    if lines == [] {
      assert st.sent + [] == st.sent;
    } else {
      EmitAllSends(Emit(st, lines[0]), lines[1..]);
      assert st.sent + [lines[0]] + lines[1..] == st.sent + lines;
    }
  }

  predicate Idle(st: State) {
    st.pending.None? && st.buffer.None?
  }

  lemma HandleSends(st: State, server: string, c: Request) returns (share: seq<string>)
    requires Idle(st)
    ensures IsShare(server, c, share) && Handle(st, server, c) == State(None, None, st.sent + share)
  {
    hide Frame, FirstValue;
    forall v
      ensures ValueOfTag(c.m.tags, "label") == Some(v) <==> FirstValue(c.m.tags, "label", v)
    {
      ValueOfTagIff(c.m.tags, "label", v);
    }
    var found := ValueOfTag(c.m.tags, "label");
    if c.capable && found.Some? {
      share := Frame(found.value, c.lines, server, c.reference);
      LabeledCommand(st, c.m, c.lines, server, c.reference);
      assert IsLabeled(c, found.value);
    } else {
      share := c.lines;
      EmitAllSends(st, c.lines);
    }
  }

  /** Over every run of commands, labeled or not: what is sent is each command's share, in order. */
  lemma {:induction false} RunSendsShares(st: State, server: string, commands: seq<Request>) returns (shares: seq<seq<string>>)
    requires Idle(st)
    ensures |shares| == |commands| && forall i :: 0 <= i < |commands| ==> IsShare(server, commands[i], shares[i])
    ensures HandleAll(st, server, commands) == State(None, None, st.sent + Flatten(shares))
    decreases |commands|
  {
    hide Handle, IsShare;
    if commands == [] {
      shares := [];
      assert st.sent + [] == st.sent;
    } else {
      var share := HandleSends(st, server, commands[0]);
      var rest := RunSendsShares(Handle(st, server, commands[0]), server, commands[1..]);
      shares := [share] + rest;
      assert shares[1..] == rest;
      assert st.sent + share + Flatten(rest) == st.sent + (share + Flatten(rest));
      forall i | 0 <= i < |commands|
        ensures IsShare(server, commands[i], shares[i])
      {
        if i > 0 {
          assert commands[i] == commands[1..][i - 1] && shares[i] == rest[i - 1];
        }
      }
    }
  }

  // ------------------------------------------------------- what the client reads

  function TagMessages(ms: seq<Message>, t: Tag): seq<Message> {
    seq(|ms|, i requires 0 <= i < |ms| => WithTag(ms[i], t))
  }

  /** The messages the client reads; `framed` says that a batch was added. */
  function Expected(text: string, ms: seq<Message>, server: string, reference: string, framed: bool): seq<Message> {
    if |ms| == 0 then [WithTag(ServerMessage(server, "ACK", []), Tag("label", Some(text)))]
    else if !framed then [WithTag(ms[0], Tag("label", Some(text)))] + ms[1..]
    else
      [WithTag(ServerMessage(server, "BATCH", ["+" + reference, "labeled-response"]), Tag("label", Some(text)))]
      + TagMessages(ms, Tag("batch", Some(reference)))
      + [ServerMessage(server, "BATCH", ["-" + reference])]
  }

  predicate Room(line: string, tag: string, limits: Limits) {
    TaggedSize(Parser.Strip(line), tag) <= limits.maxTagBytes
  }

  /** Everything `end_label` needs so that its lines can be read. */
  predicate Readable(text: string, buffer: seq<string>, server: string, reference: string, limits: Limits) {
    && ValidUtf8(text) && NUL !in text && Tags.Plain(text)
    && ValidUtf8(reference) && NUL !in reference && Tags.Plain(reference)
    && ReadableServerLine(server, "ACK", [], limits)
    && ReadableServerLine(server, "BATCH", ["+" + reference, "labeled-response"], limits)
    && ReadableServerLine(server, "BATCH", ["-" + reference], limits)
    && Room(ServerLine(server, "ACK", []), LabelText(text), limits)
    && Room(ServerLine(server, "BATCH", ["+" + reference, "labeled-response"]), LabelText(text), limits)
    && forall i :: 0 <= i < |buffer| ==>
                     && Parser.Parse(buffer[i], limits).Ok?
                     && Room(buffer[i], LabelText(text), limits) && Room(buffer[i], BatchText(reference), limits)
  }

  function Messages(buffer: seq<string>, limits: Limits): (ms: seq<Message>)
    requires forall i :: 0 <= i < |buffer| ==> Parser.Parse(buffer[i], limits).Ok?
    ensures |ms| == |buffer|
  {
    seq(|buffer|, i requires 0 <= i < |buffer| => Parser.Parse(buffer[i], limits).value)
  }

  lemma LabelTagIsRead(line: string, text: string, limits: Limits)
    requires Parser.Parse(line, limits).Ok?
    requires ValidUtf8(text) && NUL !in text && Tags.Plain(text) && Room(line, LabelText(text), limits)
    ensures Parser.Parse(PrependTag(line, LabelText(text)), limits) ==
            Ok(WithTag(Parser.Parse(line, limits).value, LabelTag(text)))
  {
    LabelIsReadIffPlain(line, text, limits);
  }

  lemma BatchTagIsRead(line: string, reference: string, limits: Limits)
    requires Parser.Parse(line, limits).Ok?
    requires ValidUtf8(reference) && NUL !in reference && Tags.Plain(reference) && Room(line, BatchText(reference), limits)
    ensures Parser.Parse(PrependTag(line, BatchText(reference)), limits) ==
            Ok(WithTag(Parser.Parse(line, limits).value, BatchTag(reference)))
  {
    hide ValidUtf8, Parser.Parse, Tags.Plain;
    Tags.EscapePlain(reference);
    assert BatchText(reference) == Encode.RenderTag(BatchTag(reference));
    PrependedTagIsRead(line, BatchTag(reference), limits);
  }

  predicate AddsBatch(buffer: seq<string>) {
    |buffer| > 1 && !OpensBatch(buffer[0])
  }

  lemma PlainFrameIsRead(text: string, buffer: seq<string>, server: string, reference: string, limits: Limits)
    requires Readable(text, buffer, server, reference, limits) && !AddsBatch(buffer)
    ensures var lines, ms := Frame(text, buffer, server, reference),
                             Expected(text, Messages(buffer, limits), server, reference, false);
            |lines| == |ms| && forall i :: 0 <= i < |lines| ==> Parser.Parse(lines[i], limits) == Ok(ms[i])
  {
    hide Parser.Parse, ReadableServerLine, ServerLine, OpensBatch, Room, ValidUtf8, Tags.Plain, LabelText;
    if buffer == [] {
      ServerLineIsRead(server, "ACK", [], limits);
      LabelTagIsRead(ServerLine(server, "ACK", []), text, limits);
    } else {
      LabelTagIsRead(buffer[0], text, limits);
    }
  }

  lemma BatchFrameIsRead(text: string, buffer: seq<string>, server: string, reference: string, limits: Limits)
    requires Readable(text, buffer, server, reference, limits) && AddsBatch(buffer)
    ensures var lines, ms := Frame(text, buffer, server, reference),
                             Expected(text, Messages(buffer, limits), server, reference, true);
            |lines| == |ms| && forall i :: 0 <= i < |lines| ==> Parser.Parse(lines[i], limits) == Ok(ms[i])
  {
    hide Parser.Parse, ReadableServerLine, ServerLine, ServerMessage, OpensBatch, Room, ValidUtf8, Tags.Plain, LabelText,
      BatchText, PrependTag, WithTag;
    var open, close := ["+" + reference, "labeled-response"], ["-" + reference];
    ServerLineIsRead(server, "BATCH", open, limits);
    LabelTagIsRead(ServerLine(server, "BATCH", open), text, limits);
    ServerLineIsRead(server, "BATCH", close, limits);
    var lines, ms := Frame(text, buffer, server, reference),
                     Expected(text, Messages(buffer, limits), server, reference, true);
    forall i | 0 <= i < |lines|
      ensures Parser.Parse(lines[i], limits) == Ok(ms[i])
    {
      if 1 <= i <= |buffer| {
        assert lines[i] == PrependTag(buffer[i - 1], BatchText(reference));
        BatchTagIsRead(buffer[i - 1], reference, limits);
      }
    }
  }

  /** Every line of the response reads as intended. */
  lemma FrameIsRead(text: string, buffer: seq<string>, server: string, reference: string, limits: Limits)
    requires Readable(text, buffer, server, reference, limits)
    ensures var lines, ms := Frame(text, buffer, server, reference),
                             Expected(text, Messages(buffer, limits), server, reference, AddsBatch(buffer));
            |lines| == |ms| && forall i :: 0 <= i < |lines| ==> Parser.Parse(lines[i], limits) == Ok(ms[i])
  {
    hide Parser.Parse, Frame, Expected, Readable, AddsBatch;
    if AddsBatch(buffer) {
      BatchFrameIsRead(text, buffer, server, reference, limits);
    } else {
      PlainFrameIsRead(text, buffer, server, reference, limits);
    }
  }

  predicate HasTag(m: Message, key: string) {
    exists i :: 0 <= i < |m.tags| && m.tags[i].key == key
  }

  function CountTagged(ms: seq<Message>, key: string): nat {
    if ms == [] then 0 else (if HasTag(ms[0], key) then 1 else 0) + CountTagged(ms[1..], key)
  }

  lemma {:induction false} CountNone(ms: seq<Message>, key: string)
    requires forall i :: 0 <= i < |ms| ==> !HasTag(ms[i], key)
    ensures CountTagged(ms, key) == 0
  {
    if ms != [] {
      CountNone(ms[1..], key);
    }
  }

  /** The message under the tag that was put in front. */
  function Untag(m: Message): Message {
    if m.tags == [] then m else m.(tags := m.tags[1..])
  }

  function Untagged(ms: seq<Message>): seq<Message> {
    seq(|ms|, i requires 0 <= i < |ms| => Untag(ms[i]))
  }

  /**
   * Exactly one line of a response carries the label, and under the added tags
   * the buffered replies are all there, once each and in order.
   */
  lemma ResponseIsFaithful(text: string, ms: seq<Message>, server: string, reference: string, framed: bool)
    requires forall i :: 0 <= i < |ms| ==> !HasTag(ms[i], "label")
    ensures var ex := Expected(text, ms, server, reference, framed);
            && CountTagged(ex, "label") == 1 && HasTag(ex[0], "label")
            && (ms != [] && framed ==> |ex| == |ms| + 2 && Untagged(ex[1..|ms| + 1]) == ms)
            && (ms != [] && !framed ==> |ex| == |ms| && [Untag(ex[0])] + ex[1..] == ms)
  {
    var ex := Expected(text, ms, server, reference, framed);
    assert ex[0].tags[0].key == "label";
    forall i | 1 <= i < |ex|
      ensures !HasTag(ex[i], "label")
    {
      if ms != [] && framed && i <= |ms| {
        assert ex[i] == WithTag(ms[i - 1], BatchTag(reference));
        BatchIsNoLabel(ms[i - 1], reference);
      }
    }
    CountNone(ex[1..], "label");
    if ms != [] && framed {
      forall i | 0 <= i < |ms|
        ensures Untag(ex[1..|ms| + 1][i]) == ms[i]
      {
        assert ([BatchTag(reference)] + ms[i].tags)[1..] == ms[i].tags;
      }
    } else if ms != [] {
      assert ([LabelTag(text)] + ms[0].tags)[1..] == ms[0].tags;
      assert [ms[0]] + ms[1..] == ms;
    }
  }

  /** What is left of a response when the added lines and tags are taken away. */
  function Unframed(got: seq<Message>, n: nat, framed: bool): seq<Message>
    requires |got| >= n + if framed then 2 else 0
  {
    if n == 0 then [] else if framed then Untagged(got[1..n + 1]) else [Untag(got[0])] + got[1..n]
  }

  /**
   * The lines `end_label` sends can all be read; the label is the first tag of the
   * first line and on no other; without the added lines and tags they are the
   * replies, once each and in order.
   */
  lemma ResponseReadsAsReplies(text: string, buffer: seq<string>, server: string, reference: string, limits: Limits)
    requires Readable(text, buffer, server, reference, limits)
    requires forall i :: 0 <= i < |buffer| ==> !HasTag(Parser.Parse(buffer[i], limits).value, "label")
    ensures var lines := Frame(text, buffer, server, reference);
            && (forall i :: 0 <= i < |lines| ==> Parser.Parse(lines[i], limits).Ok?)
            && var got := Messages(lines, limits);
            && |got| == (if buffer == [] then 1 else if AddsBatch(buffer) then |buffer| + 2 else |buffer|)
            && CountTagged(got, "label") == 1 && got[0].tags != [] && got[0].tags[0] == Tag("label", Some(text))
            && Unframed(got, |buffer|, AddsBatch(buffer)) == Messages(buffer, limits)
  {
    hide Parser.Parse, Frame, Readable, CountTagged, HasTag;
    var lines := Frame(text, buffer, server, reference);
    ReadableParses(text, buffer, server, reference, limits);
    var ms := Messages(buffer, limits);
    var ex := Expected(text, ms, server, reference, AddsBatch(buffer));
    FrameIsRead(text, buffer, server, reference, limits);
    assert Messages(lines, limits) == ex;
    ResponseIsFaithful(text, ms, server, reference, AddsBatch(buffer));
  }

  lemma ReadableParses(text: string, buffer: seq<string>, server: string, reference: string, limits: Limits)
    requires Readable(text, buffer, server, reference, limits)
    ensures forall i :: 0 <= i < |buffer| ==> Parser.Parse(buffer[i], limits).Ok?
  {
    hide Parser.Parse, ReadableServerLine, Room, ValidUtf8;
  }

  lemma BatchIsNoLabel(m: Message, reference: string)
    requires !HasTag(m, "label")
    ensures !HasTag(WithTag(m, BatchTag(reference)), "label")
  {
    var w := WithTag(m, BatchTag(reference));
    assert "batch"[0] != "label"[0];
    assert forall i :: 1 <= i < |w.tags| ==> w.tags[i] == m.tags[i - 1];
  }
}
