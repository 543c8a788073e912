/** Rendering a message to its line (ferrix-protocol/src/encode.rs). */
module Encode {
  import opened Octets
  import opened Protocol
  import opened Numbers
  import Tags
  import Parser

  function RenderTag(t: Tag): string {
    Join(t.key, '=', if t.value.Some? then Some(Tags.Escape(t.value.value)) else None)
  }

  function TagSection(tags: seq<Tag>): string {
    if tags == [] then []
    else if |tags| == 1 then RenderTag(tags[0])
    else RenderTag(tags[0]) + [';'] + TagSection(tags[1..])
  }

  function RenderSource(s: Source): string {
    Join(Join(s.name, '!', s.user), '@', s.host)
  }

  function RenderCommand(c: Command): string {
    match c
    case Named(name) => name
    case Numeric(code) => Pad(Decimal(code), 3)
  }

  predicate NeedsColon(p: string) {
    p == [] || ' ' in p || p[0] == ':'
  }

  function RenderParams(params: seq<string>): string {
    if params == [] then []
    else if |params| == 1 then (if NeedsColon(params[0]) then [' ', ':'] else [' ']) + params[0]
    else [' '] + params[0] + RenderParams(params[1..])
  }

  function RenderRest(m: Message): string {
    RenderCommand(m.command) + RenderParams(m.params)
  }

  function RenderBody(m: Message): string {
    if m.source.Some? then [':'] + RenderSource(m.source.value) + [' '] + RenderRest(m) else RenderRest(m)
  }

  function RenderLine(m: Message): string {
    if m.tags == [] then RenderBody(m) else ['@'] + TagSection(m.tags) + [' '] + RenderBody(m)
  }

  function Render(m: Message): string {
    RenderLine(m) + CRLF
  }

  /** The message respects both budgets, each on its own section. */
  predicate Fits(m: Message, limits: Limits) {
    && (m.tags == [] || |TagSection(m.tags)| <= limits.maxTagBytes)
    && |RenderBody(m)| <= limits.maxBodyBytes
  }

  // ------------------------------------------------------- parsing what was rendered

  lemma KeyIsSafe(key: string)
    requires ValidKey(key)
    ensures '=' !in key && ';' !in key && Solid(key)
  {
  }

  lemma RenderedTagIsSafe(t: Tag)
    requires ValidTag(t)
    ensures RenderTag(t) != [] && ';' !in RenderTag(t) && Solid(RenderTag(t))
  {
    KeyIsSafe(t.key);
    if t.value.Some? {
      Tags.EscapeIsWireSafe(t.value.value);
    }
  }

  lemma ParseRenderTag(t: Tag)
    requires ValidTag(t)
    ensures Parser.ParseTag(RenderTag(t)) == Ok(t)
  {
    hide ValidUtf8;
    KeyIsSafe(t.key);
    CutJoin(t.key, '=', if t.value.Some? then Some(Tags.Escape(t.value.value)) else None);
    if t.value.Some? {
      Tags.UnescapeEscape(t.value.value);
      Tags.EscapeIsUtf8(t.value.value);
    }
  }

  /** The first tag of a section and what follows it. */
  lemma ParseFirstTag(t: Tag, rest: string)
    requires ValidTag(t)
    requires rest != [] ==> rest[0] == ';'
    ensures Parser.ParseTags(RenderTag(t) + rest) ==
            Parser.Cons(t, Parser.ParseTags(if rest == [] then [] else rest[1..]))
  {
    var head := RenderTag(t);
    RenderedTagIsSafe(t);
    ParseRenderTag(t);
    FindAfter(head, rest, ';');
    assert (head + rest)[..|head|] == head;
    assert rest != [] ==> (head + rest)[|head| + 1..] == rest[1..];
  }

  lemma {:induction false} SectionIsSolid(tags: seq<Tag>)
    requires forall i :: 0 <= i < |tags| ==> ValidTag(tags[i])
    ensures Solid(TagSection(tags))
  {
    hide ValidTag, RenderTag;
    if tags != [] {
      RenderedTagIsSafe(tags[0]);
      SectionIsSolid(tags[1..]);
    }
  }

  lemma {:induction false} ParseTagSection(tags: seq<Tag>)
    requires forall i :: 0 <= i < |tags| ==> ValidTag(tags[i])
    ensures Parser.ParseTags(TagSection(tags)) == Ok(tags)
    ensures Solid(TagSection(tags))
  {
    hide Parser.ParseTags, RenderTag, ValidTag, Solid, TagSection;
    SectionIsSolid(tags);
    if tags == [] {
      NoTags();
      ParseNothing();
    } else {
      ParseTagSection(tags[1..]);
      var rest := SectionStep(tags);
      ParseFirstTag(tags[0], rest);
      assert [tags[0]] + tags[1..] == tags;
    }
  }

  lemma NoTags()
    ensures TagSection([]) == []
  {
  }

  lemma SectionStep(tags: seq<Tag>) returns (rest: string)
    requires tags != []
    ensures TagSection(tags) == RenderTag(tags[0]) + rest && (rest != [] ==> rest[0] == ';')
    ensures (if rest == [] then [] else rest[1..]) == TagSection(tags[1..])
  {
    hide RenderTag;
    rest := if |tags| == 1 then [] else [';'] + TagSection(tags[1..]);
    assert RenderTag(tags[0]) + [] == RenderTag(tags[0]);
    assert RenderTag(tags[0]) + [';'] + TagSection(tags[1..]) == RenderTag(tags[0]) + ([';'] + TagSection(tags[1..]));
  }

  lemma ParseRenderSource(s: Source)
    requires ValidSource(s)
    ensures Parser.ParseSource(RenderSource(s)) == Ok(s)
  {
    hide ValidUtf8, Solid;
    CutJoin(Join(s.name, '!', s.user), '@', s.host);
    CutJoin(s.name, '!', s.user);
  }

  lemma RenderedSourceIsSolid(s: Source)
    requires ValidSource(s)
    ensures RenderSource(s) != [] && Solid(RenderSource(s))
  {
    hide ValidUtf8;
  }

  lemma NumericValue(s: string)
    requires |s| == 3 && AllDigits(s)
    ensures IsNumeral(s, 10) && Parser.ParseCommand(s) == Ok(Numeric(Value(s, 10)))
  {
    assert s[..2][..1] == s[..1] && s[..1][..0] == [];
    assert Value(s[..1], 10) == Parser.DigitValue(s[0]);
    assert Value(s[..2], 10) == Parser.DigitValue(s[0]) * 10 + Parser.DigitValue(s[1]);
  }

  lemma PadNumeric(code: nat)
    requires code <= 999
    ensures var s := Pad(Decimal(code), 3);
            && |s| == 3 && AllDigits(s)
            && Parser.ParseCommand(s) == Ok(Numeric(code))
  {
    var d := Decimal(code);
    assert |Print(code / 10, 10)| <= 2 by {
      assert |Print(code / 10 / 10, 10)| == 1;
    }
    PadLength(d, 3);
    ValueOfPrint(code, 10);
    ValueOfPadded(d, 3, 10);
    NumericValue(Pad(d, 3));
  }

  lemma ParseRenderCommand(c: Command)
    requires ValidCommand(c)
    ensures Parser.ParseCommand(RenderCommand(c)) == Ok(c)
    ensures var s := RenderCommand(c);
            s != [] && Solid(s) && s[0] != ':' && s[0] != '@'
  {
    if c.Numeric? {
      PadNumeric(c.code);
    } else {
      assert IsAlpha(c.name[0]);
    }
  }

  lemma ParseNothing()
    ensures Parser.ParseParams([]) == Ok([]) && Parser.ParseTags([]) == Ok([])
  {
  }

  /** A middle parameter and what follows it. */
  lemma ParseMiddle(p: string, rest: string)
    requires Token(p)
    requires rest != [] ==> rest[0] == ' '
    ensures Parser.ParseParams([' '] + p + rest) == Parser.Cons(p, Parser.ParseParams(rest))
  {
    hide ValidUtf8;
    var buf := p + rest;
    assert [' '] + p + rest == [' '] + buf;
    Parser.SkipOneSpace(buf);
    FindAfter(p, rest, ' ');
    assert buf[..|p|] == p && buf[|p|..] == rest;
  }

  lemma ParseTrailing(p: string)
    requires ValidUtf8(p)
    ensures Parser.ParseParams([' ', ':'] + p) == Ok([p])
  {
    var buf := [':'] + p;
    assert [' ', ':'] + p == [' '] + buf;
    Parser.SkipOneSpace(buf);
    assert buf[1..] == p;
  }

  lemma ParseLast(p: string)
    requires Text(p)
    ensures Parser.ParseParams(RenderParams([p])) == Ok([p])
  {
    hide ValidUtf8, Parser.ParseParams;
    if NeedsColon(p) {
      ParseTrailing(p);
    } else {
      ParseMiddle(p, []);
      assert [' '] + p + [] == RenderParams([p]);
      assert [p] + [] == [p];
      ParseNothing();
    }
  }

  lemma {:induction false} ParseRenderParams(params: seq<string>)
    requires ValidParams(params)
    ensures Parser.ParseParams(RenderParams(params)) == Ok(params)
    ensures Clean(RenderParams(params))
    ensures RenderParams(params) != [] ==> RenderParams(params)[0] == ' '
  {
    hide ValidUtf8, Parser.ParseParams;
    ParseNothing();
    if |params| == 1 {
      assert params == [params[0]];
      ParseLast(params[0]);
    } else if |params| > 1 {
      var rest := params[1..];
      assert ValidParams(rest);
      ParseRenderParams(rest);
      assert Token(params[0]);
      ParseMiddle(params[0], RenderParams(rest));
      assert [params[0]] + rest == params;
    }
  }

  lemma ParseRenderRest(m: Message)
    requires WellFormed(m)
    ensures Parser.ParseCommandAndParams(m.tags, m.source, RenderRest(m)) == Ok(m)
    ensures var s := RenderRest(m);
            s != [] && s[0] != ':' && s[0] != '@' && s[0] != ' ' && Clean(s)
  {
    hide ValidUtf8, Parser.ParseParams, Parser.ParseCommand, RenderParams, RenderCommand, ValidParams, ValidCommand, ValidTag, ValidSource;
    var c, p := RenderCommand(m.command), RenderParams(m.params);
    ParseRenderCommand(m.command);
    ParseRenderParams(m.params);
    FindAfter(c, p, ' ');
    assert (c + p)[..|c|] == c && (c + p)[|c|..] == p;
  }

  /** A space-delimited section in front of the rest of a line. */
  lemma SectionSplit(mark: char, section: string, rest: string)
    requires mark != ' ' && Solid(section)
    requires rest != [] && rest[0] != ' '
    ensures var s := [mark] + section + [' '] + rest;
            && Find(s, ' ') == 1 + |section| < |s|
            && s[1..1 + |section|] == section
            && Parser.SkipSpaces(s[1 + |section|..]) == rest
  {
    var s := [mark] + section + [' '] + rest;
    assert s == ([mark] + section) + ([' '] + rest);
    FindAfter([mark] + section, [' '] + rest, ' ');
    assert s[1 + |section|..] == [' '] + rest;
    Parser.SkipOneSpace(rest);
  }

  lemma ParseRenderBody(m: Message, limits: Limits)
    requires WellFormed(m)
    ensures var s := RenderBody(m);
            && s != [] && s[0] != '@' && s[0] != ' ' && Clean(s)
            && Parser.ParseBody(m.tags, s, limits) ==
               (if |s| <= limits.maxBodyBytes then Ok(m) else Err(BodyTooLong(limits.maxBodyBytes)))
  {
    hide ValidUtf8, Parser.ParseCommandAndParams, Parser.ParseSource, Parser.SkipSpaces, RenderRest, RenderSource, ValidParams, ValidCommand, ValidTag;
    ParseRenderRest(m);
    if m.source.Some? {
      var raw := RenderSource(m.source.value);
      ParseRenderSource(m.source.value);
      RenderedSourceIsSolid(m.source.value);
      SectionSplit(':', raw, RenderRest(m));
    }
  }

  lemma StripRendered(s: string)
    requires s != [] && Clean(s)
    ensures Parser.Strip(s + CRLF) == s
  {
    var a := s + CRLF;
    assert a[..|a| - 1] == s + [CR];
    assert (s + [CR])[..|s|] == s;
    assert Parser.Strip(s + [CR]) == Parser.Strip(s);
  }

  lemma RenderedLine(m: Message)
    requires WellFormed(m)
    ensures RenderLine(m) != [] && Clean(RenderLine(m))
  {
    hide ValidUtf8, RenderBody, TagSection, ValidParams, ValidCommand, ValidTag, ValidSource;
    ParseRenderBody(m, IRCV3_LIMITS);
    ParseTagSection(m.tags);
  }

  /** Parsing a stripped line that starts with a tag section. */
  lemma ParseWithSection(section: string, rest: string, limits: Limits)
    requires ' ' !in section && rest != [] && rest[0] == ' '
    ensures var s := ['@'] + section + rest;
            Parser.ParseStripped(s, limits) ==
            if !Clean(s) then Err(IllegalControlChar)
            else if |section| > limits.maxTagBytes then Err(TagsTooLong(limits.maxTagBytes))
            else
              match Parser.ParseTags(section)
              case Err(e) => Err(e)
              case Ok(tags) =>
                if Parser.SkipSpaces(rest) == [] then Err(MissingCommand)
                else Parser.ParseBody(tags, Parser.SkipSpaces(rest), limits)
  {
    hide Parser.ParseTags, Parser.ParseBody, Parser.SkipSpaces, Find, Clean;
    var s := ['@'] + section + rest;
    FindAfter(['@'] + section, rest, ' ');
    FindUnique(rest, ' ', 0);
    assert s[1..1 + |section|] == section && s[1 + |section|..] == rest;
  }

  /**
   * A well-formed message comes back from its rendering exactly when it fits the
   * budgets.
   */
  lemma ParseRender(m: Message, limits: Limits)
    requires WellFormed(m)
    ensures Parser.Parse(Render(m), limits) == Ok(m) <==> Fits(m, limits)
  {
    hide ValidUtf8, Solid, Clean, Find, Parser.Strip, Parser.ParseStripped, RenderLine, WellFormed, Fits;
    RenderedLine(m);
    StripRendered(RenderLine(m));
    ParseRenderedLine(m, limits);
  }

  /** A stripped line without a tag section. */
  lemma ParseWithoutSection(body: string, limits: Limits)
    requires body != [] && body[0] != '@' && Clean(body)
    ensures Parser.ParseStripped(body, limits) == Parser.ParseBody([], body, limits)
  {
    hide Clean, Parser.ParseBody;
  }

  lemma TaggedLine(m: Message)
    requires WellFormed(m) && m.tags != []
    ensures var section, body := TagSection(m.tags), RenderBody(m);
            && RenderLine(m) == ['@'] + section + ([' '] + body)
            && ' ' !in section && Parser.ParseTags(section) == Ok(m.tags) && Parser.SkipSpaces([' '] + body) == body
  {
    hide ValidUtf8, Parser.ParseBody, Parser.ParseTags, Parser.SkipSpaces, RenderBody, TagSection, Find,
         ValidParams, ValidCommand, ValidTag, ValidSource;
    var section, body := TagSection(m.tags), RenderBody(m);
    ParseRenderBody(m, IRCV3_LIMITS);
    ParseTagSection(m.tags);
    SolidHasNoSpace(section);
    Parser.SkipOneSpace(body);
    assert ['@'] + section + [' '] + body == ['@'] + section + ([' '] + body);
  }

  lemma ParseRenderedLine(m: Message, limits: Limits)
    requires WellFormed(m)
    ensures Parser.ParseStripped(RenderLine(m), limits) == Ok(m) <==> Fits(m, limits)
  {
    hide ValidUtf8, Solid, Clean, Find, Parser.ParseBody, Parser.ParseTags, Parser.SkipSpaces, Parser.ParseStripped,
         RenderBody, TagSection, WellFormed;
    var body := RenderBody(m);
    ParseRenderBody(m, limits);
    RenderedLine(m);
    if m.tags == [] {
      ParseWithoutSection(body, limits);
    } else {
      TaggedLine(m);
      hide RenderLine;
      ParseWithSection(TagSection(m.tags), [' '] + body, limits);
    }
  }

  // -------------------------------------------- rendering never needs more room

  lemma ParsedTagNoLonger(raw: string)
    requires Parser.ParseTag(raw).Ok? && ';' !in raw && Solid(raw)
    ensures |RenderTag(Parser.ParseTag(raw).value)| <= |raw|
  {
    hide ValidUtf8;
    var (key, value) := Cut(raw, '=');
    if value.Some? {
      assert raw == key + ['='] + value.value;
      assert Tags.WireSafe(value.value);
      Tags.EscapeUnescapeNoLonger(value.value);
    }
  }

  lemma {:induction false} ParsedTagsNoLonger(section: string)
    requires Parser.ParseTags(section).Ok? && Solid(section)
    ensures |TagSection(Parser.ParseTags(section).value)| <= |section|
    decreases |section|
  {
    if section != [] {
      var n := Find(section, ';');
      var rest := Parser.After(section, n);
      assert Solid(rest);
      ParsedTagsNoLonger(rest);
      if n > 0 {
        var raw := section[..n];
        assert ';' !in raw && Solid(raw);
        ParsedTagNoLonger(raw);
        var tag, tags := Parser.ParseTag(raw).value, Parser.ParseTags(rest).value;
        assert ([tag] + tags)[1..] == tags;
        assert |TagSection([tag] + tags)| <= |RenderTag(tag)| + (if tags == [] then 0 else 1 + |TagSection(tags)|);
        assert n == |section| ==> tags == [];
      }
    }
  }

  lemma ParsedSourceSameLength(raw: string)
    requires Parser.ParseSource(raw).Ok?
    ensures |RenderSource(Parser.ParseSource(raw).value)| == |raw|
  {
  }

  lemma ParsedCommandSameLength(s: string)
    requires Parser.ParseCommand(s).Ok?
    ensures |RenderCommand(Parser.ParseCommand(s).value)| == |s|
  {
    var c := Parser.ParseCommand(s).value;
    if c.Numeric? {
      PadNumeric(c.code);
    }
  }

  lemma {:induction false} ParsedParamsNoLonger(s: string)
    requires Parser.ParseParams(s).Ok?
    requires s != [] ==> s[0] == ' '
    ensures |RenderParams(Parser.ParseParams(s).value)| <= |s|
    decreases |s|
  {
    var buf := Parser.SkipSpaces(s);
    if buf != [] && buf[0] != ':' {
      var end := Find(buf, ' ');
      ParsedParamsNoLonger(buf[end..]);
      var p, ps := buf[..end], Parser.ParseParams(buf[end..]).value;
      assert ([p] + ps)[1..] == ps;
      assert !NeedsColon(p);
      assert |RenderParams([p] + ps)| == 1 + |p| + |RenderParams(ps)|;
    }
  }

  lemma ParsedBodyNoLonger(tags: seq<Tag>, body: string, limits: Limits)
    requires body != []
    ensures var r := Parser.ParseBody(tags, body, limits);
            r.Ok? ==> r.value.tags == tags && |RenderBody(r.value)| <= |body| <= limits.maxBodyBytes
  {
    hide Parser.ParseCommand, Parser.ParseParams, Parser.ParseSource, Parser.SkipSpaces, RenderCommand, RenderParams,
         RenderSource, Find;
    if Parser.ParseBody(tags, body, limits).Ok? {
      var sp := Find(body, ' ');
      var rest := if body[0] == ':' then Parser.SkipSpaces(body[sp..]) else body;
      if body[0] == ':' {
        ParsedSourceSameLength(body[1..sp]);
      }
      var end := Find(rest, ' ');
      ParsedCommandSameLength(rest[..end]);
      ParsedParamsNoLonger(rest[end..]);
    }
  }

  /** A parsed message fits the budgets it was parsed under. */
  lemma ParsedFits(input: string, limits: Limits)
    requires Parser.Parse(input, limits).Ok?
    ensures Fits(Parser.Parse(input, limits).value, limits)
  {
    var buf := Parser.Strip(input);
    if buf[0] == '@' {
      var sp := Find(buf, ' ');
      var section := buf[1..sp];
      assert Solid(section);
      ParsedTagsNoLonger(section);
      ParsedBodyNoLonger(Parser.ParseTags(section).value, Parser.SkipSpaces(buf[sp..]), limits);
    } else {
      ParsedBodyNoLonger([], buf, limits);
    }
  }

  /**
   * `render` is an inverse of `parse`: under every pair of budgets, an accepted
   * line renders to a line that is accepted as the same message.
   */
  lemma RenderInvertsParse(input: string, limits: Limits)
    requires Parser.Parse(input, limits).Ok?
    ensures Parser.Parse(Render(Parser.Parse(input, limits).value), limits) == Parser.Parse(input, limits)
  {
    var m := Parser.Parse(input, limits).value;
    Parser.ParsedIsWellFormed(input, limits);
    ParsedFits(input, limits);
    ParseRender(m, limits);
  }

  /** The messages `parse` can return are exactly the well-formed ones that fit. */
  lemma ParseRange(m: Message, limits: Limits)
    ensures (exists input :: Parser.Parse(input, limits) == Ok(m)) <==> WellFormed(m) && Fits(m, limits)
  {
    if WellFormed(m) && Fits(m, limits) {
      ParseRender(m, limits);
    }
    forall input | Parser.Parse(input, limits) == Ok(m)
      ensures WellFormed(m) && Fits(m, limits)
    {
      Parser.ParsedIsWellFormed(input, limits);
      ParsedFits(input, limits);
    }
  }

  // ------------------------------------------------------------- the printer's loops

  /** The part of the tag section from tag `i` on, with the separator before it. */
  function TagsFrom(tags: seq<Tag>, i: nat): string
    requires i <= |tags|
  {
    if i == |tags| then [] else (if i > 0 then [';'] else []) + TagSection(tags[i..])
  }

  lemma TagsFromStep(tags: seq<Tag>, i: nat)
    requires i < |tags|
    ensures TagsFrom(tags, i) == (if i > 0 then [';'] else []) + RenderTag(tags[i]) + TagsFrom(tags, i + 1)
  {
    hide RenderTag;
    assert tags[i..][1..] == tags[i + 1..];
    assert TagSection(tags[i..]) == RenderTag(tags[i]) + TagsFrom(tags, i + 1);
  }

  method AppendTag(prefix: string, t: Tag) returns (out: string)
    ensures out == prefix + RenderTag(t)
  {
    out := prefix + t.key;
    if t.value.Some? {
      var escaped := Tags.EscapeValue(t.value.value);
      out := out + ['='] + escaped;
    }
  }

  method AppendTags(prefix: string, tags: seq<Tag>) returns (out: string)
    ensures out == prefix + TagSection(tags)
  {
    hide TagSection, RenderTag, TagsFrom;
    out := prefix;
    for i := 0 to |tags|
      invariant out + TagsFrom(tags, i) == prefix + TagsFrom(tags, 0)
    {
      ghost var before, piece := out, (if i > 0 then [';'] else []) + RenderTag(tags[i]);
      TagsFromStep(tags, i);
      if i > 0 {
        out := out + [';'];
      }
      out := AppendTag(out, tags[i]);
      assert out == before + piece;
      assert before + (piece + TagsFrom(tags, i + 1)) == out + TagsFrom(tags, i + 1);
    }
    TagsFromEnds(tags);
    assert out == out + [];
  }

  lemma TagsFromEnds(tags: seq<Tag>)
    ensures TagsFrom(tags, 0) == TagSection(tags) && TagsFrom(tags, |tags|) == []
  {
    assert tags[0..] == tags;
  }

  lemma RenderParamsStep(params: seq<string>, i: nat)
    requires i < |params|
    ensures RenderParams(params[i..]) ==
            (if i == |params| - 1 && NeedsColon(params[i]) then [' ', ':'] else [' ']) + params[i] + RenderParams(params[i + 1..])
  {
    assert params[i..][1..] == params[i + 1..];
    if i == |params| - 1 {
      var p := (if NeedsColon(params[i]) then [' ', ':'] else [' ']) + params[i];
      assert p + [] == p;
    }
  }

  method AppendParams(prefix: string, params: seq<string>) returns (out: string)
    ensures out == prefix + RenderParams(params)
  {
    hide RenderParams;
    out := prefix;
    assert params[0..] == params;
    for i := 0 to |params|
      invariant out + RenderParams(params[i..]) == prefix + RenderParams(params)
    {
      ghost var before := out;
      RenderParamsStep(params, i);
      out := out + [' '];
      if i == |params| - 1 && NeedsColon(params[i]) {
        out := out + [':'];
      }
      out := out + params[i];
      assert out == before + ((if i == |params| - 1 && NeedsColon(params[i]) then [' ', ':'] else [' ']) + params[i]);
    }
    NoParams(params[|params|..]);
    assert out + [] == out;
  }

  lemma NoParams(params: seq<string>)
    requires params == []
    ensures RenderParams(params) == []
  {
  }

  /** `render_into`: the wire form of `m` goes after what is already in the buffer. */
  method RenderInto(m: Message, prefix: string) returns (out: string)
    ensures out == prefix + Render(m)
  {
    hide TagSection, RenderParams, RenderSource, RenderCommand;
    out := prefix;
    if m.tags != [] {
      out := AppendTags(out + ['@'], m.tags);
      out := out + [' '];
    }
    ghost var tagged := if m.tags == [] then [] else ['@'] + TagSection(m.tags) + [' '];
    assert out == prefix + tagged;
    out := AppendBody(m, out);
    assert tagged + RenderBody(m) == RenderLine(m);
    out := out + CRLF;
  }

  method AppendBody(m: Message, prefix: string) returns (out: string)
    ensures out == prefix + RenderBody(m)
  {
    hide RenderParams, RenderSource, RenderCommand;
    out := prefix;
    if m.source.Some? {
      out := out + [':'] + RenderSource(m.source.value) + [' '];
    }
    out := out + RenderCommand(m.command);
    out := AppendParams(out, m.params);
  }
}
