/** Delivery with per-recipient tags (ferrixd/src/deliver.rs). */
module Deliver {
  import opened Octets
  import opened Protocol
  import opened Caps
  import Tags
  import Parser
  import Encode
  import Session

  datatype Event = Event(
    body: string,
    time: Option<string>,
    account: Option<string>,
    msgid: Option<string>,
    clientTags: Option<string>,
    suffix: Option<(Cap, string)>,
    batch: Option<(Cap, string)>,
    bot: bool)

  function AddIf(mask: CapSet, on: bool, c: Cap): CapSet {
    if on then Insert(mask, c) else mask
  }

  function CapOf(o: Option<(Cap, string)>): Cap {
    if o.Some? then o.value.0 else Sasl
  }

  /** The capability bits that affect the rendered form. */
  function VariantMask(e: Event): CapSet {
    var m1 := AddIf(NONE, e.time.Some?, ServerTime);
    var m2 := AddIf(m1, e.account.Some?, AccountTag);
    var m3 := AddIf(m2, e.msgid.Some? || e.clientTags.Some? || e.bot, MessageTags);
    var m4 := AddIf(m3, e.suffix.Some?, CapOf(e.suffix));
    AddIf(m4, e.batch.Some?, CapOf(e.batch))
  }

  lemma AddCovers(mask: CapSet, on: bool, c: Cap, d: Cap)
    ensures on ==> Covers(AddIf(mask, on, c), c)
    ensures Covers(mask, d) ==> Covers(AddIf(mask, on, c), d)
  {
    hide Covers, Insert;
    InsertCovers(mask, c, d);
  }

  // ----------------------------------------------------------------------- rendering

  function Add(texts: seq<string>, on: bool, text: string): seq<string> {
    if on then texts + [text] else texts
  }

  function ValueOf(o: Option<string>): string {
    if o.Some? then o.value else []
  }

  predicate Gate(o: Option<(Cap, string)>, caps: CapSet) {
    o.Some? && Has(caps, o.value.0)
  }

  function GatedText(o: Option<(Cap, string)>): string {
    if o.Some? then o.value.1 else []
  }

  function KeyValue(key: string, value: string): string {
    key + "=" + value
  }

  function BatchText(e: Event): string {
    KeyValue("batch", GatedText(e.batch))
  }

  function TimeText(e: Event): string {
    KeyValue("time", ValueOf(e.time))
  }

  function MsgidText(e: Event): string {
    KeyValue("msgid", ValueOf(e.msgid))
  }

  function AccountText(e: Event): string {
    KeyValue("account", ValueOf(e.account))
  }

  const BOT_TEXT := "bot"

  /** The tag texts a recipient sees, in order. */
  function Texts(e: Event, caps: CapSet): seq<string> {
    var t1 := Add([], Gate(e.batch, caps), BatchText(e));
    var t2 := Add(t1, e.clientTags.Some? && Has(caps, MessageTags), ValueOf(e.clientTags));
    var t3 := Add(t2, e.time.Some? && Has(caps, ServerTime), TimeText(e));
    var t4 := Add(t3, e.msgid.Some? && Has(caps, MessageTags), MsgidText(e));
    var t5 := Add(t4, e.account.Some? && Has(caps, AccountTag), AccountText(e));
    Add(t5, e.bot && Has(caps, MessageTags), BOT_TEXT)
  }

  /** The texts behind one `@`, separated by `;`. */
  function Section(texts: seq<string>): string {
    if texts == [] then []
    else if |texts| == 1 then texts[0]
    else texts[0] + [';'] + Section(texts[1..])
  }

  function Marked(texts: seq<string>): string {
    if texts == [] then [] else ['@'] + Section(texts)
  }

  function Core(e: Event, caps: CapSet): string {
    e.body + (if Gate(e.suffix, caps) then GatedText(e.suffix) else []) + CRLF
  }

  function RenderFor(e: Event, caps: CapSet): string {
    var texts := Texts(e, caps);
    Marked(texts) + (if texts == [] then [] else [' ']) + Core(e, caps)
  }

  lemma {:induction false} SectionAppend(texts: seq<string>, text: string)
    ensures Section(texts + [text]) == if texts == [] then text else Section(texts) + [';'] + text
  {
    var all := texts + [text];
    if |texts| == 1 {
      assert all[1..] == [text];
    } else if |texts| > 1 {
      assert all[1..] == texts[1..] + [text];
      SectionAppend(texts[1..], text);
    }
  }

  /** These texts have been written to `out`. */
  ghost predicate Written(texts: seq<string>, out: string, wrote: bool) {
    out == Marked(texts) && wrote == (texts != [])
  }

  /** Writing one more tag: `@` first, `;` afterwards. */
  method PushTag(out: string, wrote: bool, on: bool, text: string, ghost texts: seq<string>)
    returns (out': string, wrote': bool)
    requires Written(texts, out, wrote)
    ensures Written(Add(texts, on, text), out', wrote')
  {
    hide Section;
    out', wrote' := out, wrote;
    SectionAppend(texts, text);
    if on {
      out', wrote' := out + [if wrote then ';' else '@'] + text, true;
    }
  }

  method RenderTags(e: Event, caps: CapSet) returns (out: string, wrote: bool)
    ensures Written(Texts(e, caps), out, wrote)
  {
    hide Has, Written, Add, Gate, ValueOf, BatchText, TimeText, MsgidText, AccountText, BOT_TEXT;
    var tagged := Has(caps, MessageTags);
    ghost var t1 := Add([], Gate(e.batch, caps), BatchText(e));
    ghost var t2 := Add(t1, e.clientTags.Some? && tagged, ValueOf(e.clientTags));
    ghost var t3 := Add(t2, e.time.Some? && Has(caps, ServerTime), TimeText(e));
    ghost var t4 := Add(t3, e.msgid.Some? && tagged, MsgidText(e));
    ghost var t5 := Add(t4, e.account.Some? && Has(caps, AccountTag), AccountText(e));
    NothingMarked();
    out, wrote := PushTag([], false, Gate(e.batch, caps), BatchText(e), []);
    out, wrote := PushTag(out, wrote, e.clientTags.Some? && tagged, ValueOf(e.clientTags), t1);
    out, wrote := PushTag(out, wrote, e.time.Some? && Has(caps, ServerTime), TimeText(e), t2);
    out, wrote := PushTag(out, wrote, e.msgid.Some? && tagged, MsgidText(e), t3);
    out, wrote := PushTag(out, wrote, e.account.Some? && Has(caps, AccountTag), AccountText(e), t4);
    out, wrote := PushTag(out, wrote, e.bot && tagged, BOT_TEXT, t5);
  }

  method RenderInto(e: Event, caps: CapSet) returns (out: string)
    ensures out == RenderFor(e, caps)
  {
    hide Marked, Texts, Gate;
    var wrote;
    out, wrote := RenderTags(e, caps);
    if wrote {
      out := out + [' '];
    }
    ghost var tags := out;
    out := out + e.body;
    if Gate(e.suffix, caps) {
      out := out + GatedText(e.suffix);
    }
    out := out + CRLF;
    assert out == tags + Core(e, caps);
  }

  lemma NothingMarked()
    ensures Written([], [], false)
  {
  }

  /** A capability some part of the event is for. */
  predicate Relevant(e: Event, c: Cap) {
    || (e.time.Some? && c == ServerTime)
    || (e.account.Some? && c == AccountTag)
    || ((e.msgid.Some? || e.clientTags.Some? || e.bot) && c == MessageTags)
    || (e.suffix.Some? && c == e.suffix.value.0)
    || (e.batch.Some? && c == e.batch.value.0)
  }

  lemma MaskCovers(e: Event, c: Cap)
    requires Relevant(e, c)
    ensures Covers(VariantMask(e), c)
  {
    hide Covers, AddIf;
    var m1 := AddIf(NONE, e.time.Some?, ServerTime);
    var m2 := AddIf(m1, e.account.Some?, AccountTag);
    var m3 := AddIf(m2, e.msgid.Some? || e.clientTags.Some? || e.bot, MessageTags);
    var m4 := AddIf(m3, e.suffix.Some?, CapOf(e.suffix));
    AddCovers(NONE, e.time.Some?, ServerTime, c);
    AddCovers(m1, e.account.Some?, AccountTag, c);
    AddCovers(m2, e.msgid.Some? || e.clientTags.Some? || e.bot, MessageTags, c);
    AddCovers(m3, e.suffix.Some?, CapOf(e.suffix), c);
    AddCovers(m4, e.batch.Some?, CapOf(e.batch), c);
  }

  lemma HasAdded(mask: CapSet, on: bool, c: Cap, d: Cap)
    ensures Has(AddIf(mask, on, c), d) <==> (on && c == d) || Has(mask, d)
  {
    hide Has, Insert;
    HasInserted(mask, c, d);
  }

  lemma MaskHas(e: Event, c: Cap)
    ensures Has(VariantMask(e), c)
       <==> || (e.batch.Some? && CapOf(e.batch) == c) || (e.suffix.Some? && CapOf(e.suffix) == c)
            || ((e.msgid.Some? || e.clientTags.Some? || e.bot) && MessageTags == c)
            || (e.account.Some? && AccountTag == c) || (e.time.Some? && ServerTime == c)
  {
    hide Has, AddIf, CapOf, NONE;
    var m1 := AddIf(NONE, e.time.Some?, ServerTime);
    var m2 := AddIf(m1, e.account.Some?, AccountTag);
    var m3 := AddIf(m2, e.msgid.Some? || e.clientTags.Some? || e.bot, MessageTags);
    var m4 := AddIf(m3, e.suffix.Some?, CapOf(e.suffix));
    HasInserted(NONE, ServerTime, c);
    HasAdded(NONE, e.time.Some?, ServerTime, c);
    HasAdded(m1, e.account.Some?, AccountTag, c);
    HasAdded(m2, e.msgid.Some? || e.clientTags.Some? || e.bot, MessageTags, c);
    HasAdded(m3, e.suffix.Some?, CapOf(e.suffix), c);
    HasAdded(m4, e.batch.Some?, CapOf(e.batch), c);
  }

  /** The mask holds the capabilities that some part of the event is for, and no others. */
  lemma MaskIsExact(e: Event, c: Cap)
    ensures Has(VariantMask(e), c) <==> Relevant(e, c)
  {
    hide Has, VariantMask;
    MaskHas(e, c);
  }

  lemma RenderDependsOnRelevant(e: Event, a: CapSet, b: CapSet)
    requires forall c :: Relevant(e, c) ==> Has(a, c) == Has(b, c)
    ensures RenderFor(e, a) == RenderFor(e, b)
  {
    hide Has, Marked, Add, ValueOf, GatedText, BatchText, TimeText, MsgidText, AccountText, BOT_TEXT;
    assert e.time.Some? ==> Relevant(e, ServerTime);
    assert e.account.Some? ==> Relevant(e, AccountTag);
    assert e.msgid.Some? || e.clientTags.Some? || e.bot ==> Relevant(e, MessageTags);
    assert e.suffix.Some? ==> Relevant(e, e.suffix.value.0);
    assert e.batch.Some? ==> Relevant(e, e.batch.value.0);
    assert Texts(e, a) == Texts(e, b);
  }

  /** Recipients who agree on the masked capabilities get the same octets. */
  lemma RenderDependsOnMask(e: Event, a: CapSet, b: CapSet)
    requires Masked(a, VariantMask(e)) == Masked(b, VariantMask(e))
    ensures RenderFor(e, a) == RenderFor(e, b)
  {
    hide Has, RenderFor, VariantMask, Relevant, Masked, Covers;
    forall c | Relevant(e, c)
      ensures Has(a, c) == Has(b, c)
    {
      MaskCovers(e, c);
      MaskDecides(a, b, VariantMask(e), c);
    }
    RenderDependsOnRelevant(e, a, b);
  }

  // ------------------------------------------------------------------------- fan-out

  datatype Member = Member(id: nat, caps: CapSet, op: bool, voice: bool)

  datatype Filter = Filter(except: Option<nat>, required: Option<Cap>, status: Option<bool>)

  predicate Eligible(m: Member, f: Filter) {
    && f.except != Some(m.id)
    && (f.required.Some? ==> Has(m.caps, f.required.value))
    && (f.status.Some? ==> m.op || (!f.status.value && m.voice))
  }

  /** What each eligible member is sent, rendered for it alone. */
  function Fanout(e: Event, members: seq<Member>, f: Filter): seq<(nat, string)> {
    if members == [] then []
    else
      var last := members[|members| - 1];
      Fanout(e, members[..|members| - 1], f)
      + if Eligible(last, f) then [(last.id, RenderFor(e, last.caps))] else []
  }

  /** The capability profiles among the eligible members. */
  function Profiles(mask: CapSet, members: seq<Member>, f: Filter): set<CapSet> {
    if members == [] then {}
    else
      var last := members[|members| - 1];
      Profiles(mask, members[..|members| - 1], f) + if Eligible(last, f) then {Masked(last.caps, mask)} else {}
  }

  /** A cached line is right for whoever has its key. */
  ghost predicate Right(e: Event, key: CapSet, line: string) {
    forall caps: CapSet :: Masked(caps, VariantMask(e)) == key ==> line == RenderFor(e, caps)
  }

  method FindKey(cache: seq<(CapSet, string)>, key: CapSet) returns (at: nat)
    ensures at <= |cache| && (at < |cache| ==> cache[at].0 == key)
    ensures at == |cache| ==> forall i :: 0 <= i < |cache| ==> cache[i].0 != key
  {
    at := 0;
    while at < |cache| && cache[at].0 != key
      invariant at <= |cache| && forall i :: 0 <= i < at ==> cache[i].0 != key
    {
      at := at + 1;
    }
  }

  function KeysOf(cache: seq<(CapSet, string)>): set<CapSet> {
    set j | 0 <= j < |cache| :: cache[j].0
  }

  lemma NoKeys()
    ensures KeysOf([]) == {}
  {
  }

  lemma KeyIsIn(cache: seq<(CapSet, string)>, at: nat)
    requires at < |cache|
    ensures cache[at].0 in KeysOf(cache)
  {
  }

  lemma KeyIsNew(cache: seq<(CapSet, string)>, key: CapSet, line: string)
    requires forall i :: 0 <= i < |cache| ==> cache[i].0 != key
    ensures key !in KeysOf(cache) && KeysOf(cache + [(key, line)]) == KeysOf(cache) + {key}
  {
    var more := cache + [(key, line)];
    assert more[|cache|].0 == key;
    assert forall j :: 0 <= j < |cache| ==> more[j] == cache[j];
  }

  /** Distinct keys, each with its line. */
  ghost predicate ValidCache(e: Event, cache: seq<(CapSet, string)>) {
    |KeysOf(cache)| == |cache| && forall j :: 0 <= j < |cache| ==> Right(e, cache[j].0, cache[j].1)
  }

  method CachedLine(e: Event, caps: CapSet, cache: seq<(CapSet, string)>)
    returns (line: string, cache': seq<(CapSet, string)>)
    requires ValidCache(e, cache)
    ensures line == RenderFor(e, caps)
    ensures ValidCache(e, cache') && KeysOf(cache') == KeysOf(cache) + {Masked(caps, VariantMask(e))}
  {
    hide RenderFor, VariantMask, Right, Masked, KeysOf;
    var key := Masked(caps, VariantMask(e));
    var at := FindKey(cache, key);
    if at < |cache| {
      KeyIsIn(cache, at);
      line, cache' := cache[at].1, cache;
      RightMeans(e, key, line, caps);
    } else {
      line := RenderInto(e, caps);
      RenderIsRight(e, caps);
      KeyIsNew(cache, key, line);
      cache' := cache + [(key, line)];
    }
  }

  /** The cached loop sends what rendering for each member would, and renders once per profile. */
  method ToChannelFiltered(e: Event, members: seq<Member>, f: Filter)
    returns (sent: seq<(nat, string)>, renders: nat)
    ensures sent == Fanout(e, members, f)
    ensures renders == |Profiles(VariantMask(e), members, f)|
  {
    hide RenderFor, VariantMask, Eligible, Right, Masked, KeysOf;
    NoKeys();
    var cache: seq<(CapSet, string)> := [];
    sent := [];
    var i := 0;
    while i < |members|
      invariant 0 <= i <= |members|
      invariant sent == Fanout(e, members[..i], f)
      invariant ValidCache(e, cache) && KeysOf(cache) == Profiles(VariantMask(e), members[..i], f)
    {
      var member := members[i];
      assert members[..i + 1][..i] == members[..i] && members[..i + 1][i] == member;
      if Eligible(member, f) {
        var line;
        line, cache := CachedLine(e, member.caps, cache);
        sent := sent + [(member.id, line)];
      }
      i := i + 1;
    }
    assert members[..i] == members;
    renders := |cache|;
  }

  lemma RenderIsRight(e: Event, caps: CapSet)
    ensures Right(e, Masked(caps, VariantMask(e)), RenderFor(e, caps))
  {
    hide RenderFor, VariantMask, Masked;
    forall other: CapSet | Masked(other, VariantMask(e)) == Masked(caps, VariantMask(e))
      ensures RenderFor(e, caps) == RenderFor(e, other)
    {
      RenderDependsOnMask(e, caps, other);
    }
  }

  lemma RightMeans(e: Event, key: CapSet, line: string, caps: CapSet)
    requires Right(e, key, line) && Masked(caps, VariantMask(e)) == key
    ensures line == RenderFor(e, caps)
  {
    hide RenderFor, VariantMask, Masked;
  }

  /**
   * Who is sent a line: not the one skipped; one with the required capability, if one
   * is required; for a status message an op, or one with voice if that is enough.
   */
  predicate Wanted(m: Member, f: Filter) {
    && (f.except.Some? ==> m.id != f.except.value)
    && (f.required.Some? ==> Has(m.caps, f.required.value))
    && (f.status == Some(true) ==> m.op)
    && (f.status == Some(false) ==> m.op || m.voice)
  }

  /** Each member who is wanted is sent exactly one line, its own; nobody else is sent any. */
  lemma {:induction false} FanoutMeaning(e: Event, members: seq<Member>, f: Filter)
    requires forall i, j :: 0 <= i < j < |members| ==> members[i].id != members[j].id
    ensures var sent := Fanout(e, members, f);
            && (forall i, j :: 0 <= i < j < |sent| ==> sent[i].0 != sent[j].0)
            && (forall id, line :: (id, line) in sent
                  <==> exists k :: 0 <= k < |members| && members[k].id == id && Wanted(members[k], f)
                                   && line == RenderFor(e, members[k].caps))
  {
    hide RenderFor, Eligible, Wanted;
    if members != [] {
      var n := |members| - 1;
      var before := Fanout(e, members[..n], f);
      FanoutMeaning(e, members[..n], f);
      EligibleIsWanted(members[n], f);
      forall i | 0 <= i < |before|
        ensures before[i].0 != members[n].id
      {
        assert (before[i].0, before[i].1) in before;
      }
      var sent := Fanout(e, members, f);
      forall id, line | (id, line) in sent
        ensures exists k :: 0 <= k < |members| && members[k].id == id && Wanted(members[k], f)
                            && line == RenderFor(e, members[k].caps)
      {
        if (id, line) in before {
          var k :| 0 <= k < n && members[..n][k].id == id && Wanted(members[..n][k], f)
                   && line == RenderFor(e, members[..n][k].caps);
          assert members[k] == members[..n][k];
        } else {
          assert members[n].id == id;
        }
      }
      forall k | 0 <= k < |members| && Wanted(members[k], f)
        ensures (members[k].id, RenderFor(e, members[k].caps)) in sent
      {
        if k < n {
          assert members[..n][k] == members[k];
          assert (members[k].id, RenderFor(e, members[k].caps)) in before;
        }
      }
    }
  }

  lemma EligibleIsWanted(m: Member, f: Filter)
    ensures Eligible(m, f) <==> Wanted(m, f)
  {
    hide Has;
    if f.status.Some? {
      assert f.status == if f.status.value then Some(true) else Some(false);
    }
  }

  /** Lines go out in the order of the members. */
  lemma {:induction false} FanoutConcat(e: Event, a: seq<Member>, b: seq<Member>, f: Filter)
    ensures Fanout(e, a + b, f) == Fanout(e, a, f) + Fanout(e, b, f)
    decreases |b|
  {
    hide RenderFor, Eligible;
    if b == [] {
      assert a + b == a;
    } else {
      var n := |b| - 1;
      assert (a + b)[..|a| + n] == a + b[..n] && (a + b)[|a| + n] == b[n];
      FanoutConcat(e, a, b[..n], f);
      var last := if Eligible(b[n], f) then [(b[n].id, RenderFor(e, b[n].caps))] else [];
      assert Fanout(e, a, f) + (Fanout(e, b[..n], f) + last) == Fanout(e, a, f) + Fanout(e, b[..n], f) + last;
    }
  }

  /** The client that is skipped is sent nothing. */
  lemma SkippedGetsNothing(e: Event, members: seq<Member>, f: Filter, line: string)
    requires forall i, j :: 0 <= i < j < |members| ==> members[i].id != members[j].id
    requires f.except.Some?
    ensures (f.except.value, line) !in Fanout(e, members, f)
  {
    hide RenderFor, Fanout, Has;
    FanoutMeaning(e, members, f);
    assert forall k :: 0 <= k < |members| && members[k].id == f.except.value ==> !Wanted(members[k], f);
  }

  // ------------------------------------------------------------- what recipients read

  /** A line with these tags in front. */
  function TaggedLine(tags: seq<Tag>, core: string): string {
    if tags == [] then core else ['@'] + Encode.TagSection(tags) + [' '] + core
  }

  lemma TaggedStep(tags: seq<Tag>, core: string)
    requires tags != [] && core != [] && core[0] != '@'
    ensures TaggedLine(tags, core) == Session.PrependTag(TaggedLine(tags[1..], core), Encode.RenderTag(tags[0]))
  {
    hide Encode.RenderTag;
    var tag, rest := Encode.RenderTag(tags[0]), TaggedLine(tags[1..], core);
    if |tags| > 1 {
      assert rest[1..] == Encode.TagSection(tags[1..]) + [' '] + core;
      assert ['@'] + (tag + [';'] + Encode.TagSection(tags[1..])) + [' '] + core
          == ['@'] + tag + [';'] + rest[1..];
    }
  }

  lemma {:induction false} SectionIsSafe(tags: seq<Tag>)
    requires forall i :: 0 <= i < |tags| ==> ValidTag(tags[i])
    ensures ' ' !in Encode.TagSection(tags)
  {
    hide ValidTag, Encode.RenderTag;
    if tags != [] {
      Encode.RenderedTagIsSafe(tags[0]);
      SectionIsSafe(tags[1..]);
    }
  }

  lemma TaggedSection(tags: seq<Tag>, core: string)
    requires forall i :: 0 <= i < |tags| ==> ValidTag(tags[i])
    requires Parser.Strip(core) != [] && core[0] != '@' && tags != []
    ensures var s := Parser.Strip(TaggedLine(tags, core));
            s != [] && s[0] == '@' && Session.SectionOf(s) == Encode.TagSection(tags)
  {
    hide ValidTag, Encode.TagSection, Parser.Strip, Session.SectionOf;
    SectionIsSafe(tags);
    var head, rest := ['@'] + Encode.TagSection(tags) + [' '], Parser.Strip(core);
    Session.StripSuffix(head, core);
    assert head + rest == ['@'] + Encode.TagSection(tags) + ([' '] + rest);
    Session.SectionCut(Encode.TagSection(tags), [' '] + rest);
  }

  function WithTags(m: Message, tags: seq<Tag>): Message {
    m.(tags := tags + m.tags)
  }

  /** Within the tag budget, the line is read as the bare line with these tags. */
  lemma {:induction false} TaggedLineIsRead(tags: seq<Tag>, core: string, limits: Limits)
    requires forall i :: 0 <= i < |tags| ==> ValidTag(tags[i])
    requires Parser.Parse(core, limits).Ok? && Parser.Strip(core) != [] && core[0] != '@'
    requires |Encode.TagSection(tags)| <= limits.maxTagBytes
    ensures Parser.Parse(TaggedLine(tags, core), limits) == Ok(WithTags(Parser.Parse(core, limits).value, tags))
  {
    hide ValidTag, Encode.RenderTag, Parser.Parse, Parser.Strip, Session.PrependTag, Session.SectionOf;
    var m := Parser.Parse(core, limits).value;
    if tags == [] {
      assert [] + m.tags == m.tags;
    } else {
      hide TaggedLine, WithTags, Session.WithTag, Session.TaggedSize, Encode.TagSection;
      ShorterSection(tags);
      WithTagsStep(m, tags);
      var rest := TaggedLine(tags[1..], core);
      TaggedLineIsRead(tags[1..], core, limits);
      TaggedStep(tags, core);
      RoomForTag(tags, core);
      Session.PrependedTagIsRead(rest, tags[0], limits);
    }
  }

  lemma ShorterSection(tags: seq<Tag>)
    requires tags != []
    ensures |Encode.TagSection(tags[1..])| <= |Encode.TagSection(tags)|
  {
    hide Encode.RenderTag;
  }

  lemma WithTagsStep(m: Message, tags: seq<Tag>)
    requires tags != []
    ensures WithTags(m, tags) == Session.WithTag(WithTags(m, tags[1..]), tags[0])
  {
    assert [tags[0]] + (tags[1..] + m.tags) == tags + m.tags;
  }

  lemma RoomForTag(tags: seq<Tag>, core: string)
    requires tags != [] && forall i :: 0 <= i < |tags| ==> ValidTag(tags[i])
    requires Parser.Strip(core) != [] && core[0] != '@'
    ensures Session.TaggedSize(Parser.Strip(TaggedLine(tags[1..], core)), Encode.RenderTag(tags[0]))
         == |Encode.TagSection(tags)|
  {
    hide ValidTag, Encode.RenderTag, Parser.Strip, Session.SectionOf;
    if |tags| > 1 {
      TaggedSection(tags[1..], core);
    } else {
      assert Parser.Strip(core)[0] == core[0];
    }
  }

  // ---- the tags of an event

  function AddTags(tags: seq<Tag>, on: bool, more: seq<Tag>): seq<Tag> {
    if on then tags + more else tags
  }

  function Pair(key: string, value: string): seq<Tag> {
    [Tag(key, Some(value))]
  }

  /** The tags a recipient should read; `client` are the forwarded client-only tags. */
  function EventTags(e: Event, caps: CapSet, client: seq<Tag>): seq<Tag> {
    var shown := Has(caps, MessageTags);
    (match e.batch
     case None => []
     case Some((c, reference)) => if Has(caps, c) then Pair("batch", reference) else [])
    + (if e.clientTags.Some? && shown then client else [])
    + (match e.time
       case None => []
       case Some(time) => if Has(caps, ServerTime) then Pair("time", time) else [])
    + (match e.msgid
       case None => []
       case Some(id) => if shown then Pair("msgid", id) else [])
    + (match e.account
       case None => []
       case Some(account) => if Has(caps, AccountTag) then Pair("account", account) else [])
    + (if e.bot && shown then [Tag("bot", None)] else [])
  }

  /** The line without tags: the body, and the suffix for those it is meant for. */
  function BareLine(e: Event, caps: CapSet): string {
    match e.suffix
    case None => e.body + CRLF
    case Some((c, text)) => if Has(caps, c) then e.body + text + CRLF else e.body + CRLF
  }

  lemma CoreIsBareLine(e: Event, caps: CapSet)
    ensures Core(e, caps) == BareLine(e, caps)
  {
    hide Has;
    assert e.body + [] == e.body;
  }

  function Folded(e: Event, caps: CapSet, client: seq<Tag>): seq<Tag> {
    var t1 := AddTags([], Gate(e.batch, caps), Pair("batch", GatedText(e.batch)));
    var t2 := AddTags(t1, e.clientTags.Some? && Has(caps, MessageTags), client);
    var t3 := AddTags(t2, e.time.Some? && Has(caps, ServerTime), Pair("time", ValueOf(e.time)));
    var t4 := AddTags(t3, e.msgid.Some? && Has(caps, MessageTags), Pair("msgid", ValueOf(e.msgid)));
    var t5 := AddTags(t4, e.account.Some? && Has(caps, AccountTag), Pair("account", ValueOf(e.account)));
    AddTags(t5, e.bot && Has(caps, MessageTags), [Tag("bot", None)])
  }

  lemma FoldedIsEventTags(e: Event, caps: CapSet, client: seq<Tag>)
    ensures Folded(e, caps, client) == EventTags(e, caps, client)
  {
    hide Has, Pair;
    var shown := Has(caps, MessageTags);
    FoldOne([], Gate(e.batch, caps), Pair("batch", GatedText(e.batch)));
    var b := if Gate(e.batch, caps) then Pair("batch", GatedText(e.batch)) else [];
    var c := if e.clientTags.Some? && shown then client else [];
    var t := if e.time.Some? && Has(caps, ServerTime) then Pair("time", ValueOf(e.time)) else [];
    var m := if e.msgid.Some? && shown then Pair("msgid", ValueOf(e.msgid)) else [];
    var a := if e.account.Some? && Has(caps, AccountTag) then Pair("account", ValueOf(e.account)) else [];
    FoldOne(b, e.clientTags.Some? && shown, client);
    FoldOne(b + c, e.time.Some? && Has(caps, ServerTime), Pair("time", ValueOf(e.time)));
    FoldOne(b + c + t, e.msgid.Some? && shown, Pair("msgid", ValueOf(e.msgid)));
    FoldOne(b + c + t + m, e.account.Some? && Has(caps, AccountTag), Pair("account", ValueOf(e.account)));
    FoldOne(b + c + t + m + a, e.bot && shown, [Tag("bot", None)]);
  }

  lemma FoldOne(tags: seq<Tag>, on: bool, more: seq<Tag>)
    ensures AddTags(tags, on, more) == tags + if on then more else []
    ensures [] + (if on then more else []) == if on then more else []
  {
    assert tags + [] == tags;
  }

  predicate PlainValue(v: string) {
    ValidUtf8(v) && NUL !in v && Tags.Plain(v)
  }

  /** The event's values need no escaping, and its client tags are `client`, rendered. */
  ghost predicate Readable(e: Event, client: seq<Tag>) {
    && PlainValue(GatedText(e.batch)) && PlainValue(ValueOf(e.time))
    && PlainValue(ValueOf(e.msgid)) && PlainValue(ValueOf(e.account))
    && (e.clientTags.Some? ==>
          && client != [] && (forall i :: 0 <= i < |client| ==> ValidTag(client[i]))
          && e.clientTags.value == Encode.TagSection(client))
  }

  /** The texts, joined, are the tags' section. */
  ghost predicate Spell(texts: seq<string>, tags: seq<Tag>) {
    && (texts == [] <==> tags == [])
    && Section(texts) == Encode.TagSection(tags)
    && forall i :: 0 <= i < |tags| ==> ValidTag(tags[i])
  }

  lemma {:induction false} TagSectionAppend(a: seq<Tag>, b: seq<Tag>)
    requires a != [] && b != []
    ensures Encode.TagSection(a + b) == Encode.TagSection(a) + [';'] + Encode.TagSection(b)
    decreases |a|
  {
    hide Encode.RenderTag;
    assert (a + b)[1..] == a[1..] + b;
    if |a| == 1 {
      assert a[1..] + b == b;
    } else {
      TagSectionAppend(a[1..], b);
    }
  }

  lemma SpellMore(texts: seq<string>, tags: seq<Tag>, on: bool, text: string, more: seq<Tag>)
    requires Spell(texts, tags)
    requires on ==> more != [] && text == Encode.TagSection(more) && forall i :: 0 <= i < |more| ==> ValidTag(more[i])
    ensures Spell(Add(texts, on, text), AddTags(tags, on, more))
  {
    hide ValidTag, Encode.TagSection, Section;
    if on {
      SectionAppend(texts, text);
      if tags == [] {
        assert tags + more == more;
      } else {
        TagSectionAppend(tags, more);
      }
    }
  }

  lemma PlainPair(key: string, value: string)
    requires PlainValue(value) && ValidKey(key)
    ensures ValidTag(Pair(key, value)[0]) && Encode.TagSection(Pair(key, value)) == KeyValue(key, value)
  {
    hide ValidUtf8, Tags.Plain;
    Tags.EscapePlain(value);
  }

  lemma TextsSpellTags(e: Event, caps: CapSet, client: seq<Tag>)
    requires Readable(e, client)
    ensures Spell(Texts(e, caps), Folded(e, caps, client))
  {
    hide Has, Gate, Add, AddTags, Spell, PlainValue, ValidTag, Encode.TagSection, Pair, KeyValue, GatedText;
    var tagged := Has(caps, MessageTags);
    var x1 := Add([], Gate(e.batch, caps), BatchText(e));
    var y1 := AddTags([], Gate(e.batch, caps), Pair("batch", GatedText(e.batch)));
    var x2 := Add(x1, e.clientTags.Some? && tagged, ValueOf(e.clientTags));
    var y2 := AddTags(y1, e.clientTags.Some? && tagged, client);
    var x3 := Add(x2, e.time.Some? && Has(caps, ServerTime), TimeText(e));
    var y3 := AddTags(y2, e.time.Some? && Has(caps, ServerTime), Pair("time", ValueOf(e.time)));
    var x4 := Add(x3, e.msgid.Some? && tagged, MsgidText(e));
    var y4 := AddTags(y3, e.msgid.Some? && tagged, Pair("msgid", ValueOf(e.msgid)));
    var x5 := Add(x4, e.account.Some? && Has(caps, AccountTag), AccountText(e));
    var y5 := AddTags(y4, e.account.Some? && Has(caps, AccountTag), Pair("account", ValueOf(e.account)));
    SpellNothing();
    SpellPair([], [], Gate(e.batch, caps), "batch", GatedText(e.batch));
    SpellMore(x1, y1, e.clientTags.Some? && tagged, ValueOf(e.clientTags), client);
    SpellPair(x2, y2, e.time.Some? && Has(caps, ServerTime), "time", ValueOf(e.time));
    SpellPair(x3, y3, e.msgid.Some? && tagged, "msgid", ValueOf(e.msgid));
    SpellPair(x4, y4, e.account.Some? && Has(caps, AccountTag), "account", ValueOf(e.account));
    SpellBot(x5, y5, e.bot && tagged);
  }

  lemma SpellNothing()
    ensures Spell([], [])
  {
  }

  lemma SpellPair(texts: seq<string>, tags: seq<Tag>, on: bool, key: string, value: string)
    requires Spell(texts, tags) && PlainValue(value) && ValidKey(key)
    ensures Spell(Add(texts, on, KeyValue(key, value)), AddTags(tags, on, Pair(key, value)))
  {
    hide Spell, PlainValue, ValidKey, ValidTag, Encode.TagSection;
    PlainPair(key, value);
    SpellMore(texts, tags, on, KeyValue(key, value), Pair(key, value));
  }

  lemma SpellBot(texts: seq<string>, tags: seq<Tag>, on: bool)
    requires Spell(texts, tags)
    ensures Spell(Add(texts, on, BOT_TEXT), AddTags(tags, on, [Tag("bot", None)]))
  {
    hide Spell;
    SpellMore(texts, tags, on, BOT_TEXT, [Tag("bot", None)]);
  }

  /**
   * A recipient reads the event's line with exactly the tags its capabilities call
   * for, in order, in front of the message of the bare line, when they fit the budget.
   */
  lemma RecipientReads(e: Event, caps: CapSet, client: seq<Tag>, limits: Limits)
    requires Readable(e, client)
    requires Parser.Parse(BareLine(e, caps), limits).Ok? && BareLine(e, caps)[0] != '@'
    requires |Encode.TagSection(EventTags(e, caps, client))| <= limits.maxTagBytes
    ensures Parser.Parse(RenderFor(e, caps), limits)
         == Ok(WithTags(Parser.Parse(BareLine(e, caps), limits).value, EventTags(e, caps, client)))
  {
    hide Readable, Parser.ParseStripped, Parser.Strip, Texts, EventTags, Folded, Encode.TagSection, Section, Core,
         BareLine, ValidTag;
    CoreIsBareLine(e, caps);
    FoldedIsEventTags(e, caps, client);
    TextsSpellTags(e, caps, client);
    var core := Core(e, caps);
    Session.AcceptedLine(Parser.Strip(core), limits);
    TaggedLineIsRead(EventTags(e, caps, client), core, limits);
    assert RenderFor(e, caps) == TaggedLine(EventTags(e, caps, client), core);
  }
}
