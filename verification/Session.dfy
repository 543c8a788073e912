/** Labeled responses (ferrixd/src/session.rs). */
module Session {
  import opened Octets
  import opened Protocol
  import Tags
  import Parser
  import Encode

  /** Put a tag in front of a rendered line, before any tags it already has. */
  function PrependTag(line: string, tag: string): string {
    if line != [] && line[0] == '@' then ['@'] + tag + [';'] + line[1..]
    else ['@'] + tag + [' '] + line
  }

  /** The tag section of a line, without its marker; empty if there is none. */
  function SectionOf(line: string): string {
    if line != [] && line[0] == '@' then line[1..][..Find(line[1..], ' ')] else []
  }

  /** The size of the tag section once `tag` has been put in front. */
  function TaggedSize(line: string, tag: string): nat {
    |tag| + if line != [] && line[0] == '@' then 1 + |SectionOf(line)| else 0
  }

  function WithTag(m: Message, t: Tag): Message {
    m.(tags := [t] + m.tags)
  }

  // ------------------------------------------------------------- stripping

  lemma {:induction false} StripSuffix(a: string, b: string)
    requires Parser.Strip(b) != []
    ensures Parser.Strip(a + b) == a + Parser.Strip(b)
    decreases |b|
  {
    if Parser.IsTerminator(b[|b| - 1]) {
      assert (a + b)[..|a + b| - 1] == a + b[..|b| - 1];
      StripSuffix(a, b[..|b| - 1]);
    }
  }

  /** The stripped line after a tag was put in front of it. */
  lemma StripTagged(line: string, tag: string)
    requires Parser.Strip(line) != []
    requires line[0] == '@' ==> |Parser.Strip(line)| > 1
    ensures Parser.Strip(PrependTag(line, tag)) == PrependTag(Parser.Strip(line), tag)
  {
    var s := Parser.Strip(line);
    assert s[0] == line[0];
    if line[0] == '@' {
      StripTail(line);
      assert PrependTag(line, tag) == (['@'] + tag + [';']) + line[1..];
      StripSuffix(['@'] + tag + [';'], line[1..]);
    } else {
      assert PrependTag(line, tag) == (['@'] + tag + [' ']) + line;
      StripSuffix(['@'] + tag + [' '], line);
    }
  }

  lemma {:induction false} StripTail(line: string)
    requires |Parser.Strip(line)| > 1
    ensures Parser.Strip(line[1..]) == Parser.Strip(line)[1..]
    decreases |line|
  {
    if Parser.IsTerminator(line[|line| - 1]) {
      var short := line[..|line| - 1];
      StripTail(short);
      assert short[1..] == line[1..][..|line[1..]| - 1];
    }
  }

  // ------------------------------------------------- parsing a line with the tag

  /** The first tag of a section, and what follows it. */
  lemma ParseTagsStep(raw: string, rest: string)
    requires raw != [] && ';' !in raw
    requires rest != [] ==> rest[0] == ';'
    ensures Parser.ParseTags(raw + rest) ==
            match Parser.ParseTag(raw)
            case Err(e) => Err(e)
            case Ok(t) => Parser.Cons(t, Parser.ParseTags(if rest == [] then [] else rest[1..]))
  {
    hide Parser.ParseTag;
    FindAfter(raw, rest, ';');
    assert (raw + rest)[..|raw|] == raw;
    assert rest != [] ==> (raw + rest)[|raw| + 1..] == rest[1..];
  }

  lemma BodyKeepsTags(tags: seq<Tag>, t: Tag, body: string, limits: Limits)
    requires body != []
    ensures Parser.ParseBody([t] + tags, body, limits) ==
            match Parser.ParseBody(tags, body, limits)
            case Err(e) => Err(e)
            case Ok(m) => Ok(WithTag(m, t))
  {
    hide Parser.ParseSource, Parser.ParseCommand, Parser.ParseParams, Parser.SkipSpaces;
  }

  lemma TaggedUntagged(s: string, t: Tag, limits: Limits)
    requires Parser.ParseStripped(s, limits).Ok? && s[0] != '@' && ValidTag(t)
    ensures var tag := Encode.RenderTag(t);
            Parser.ParseStripped(['@'] + tag + [' '] + s, limits) ==
            if |tag| <= limits.maxTagBytes then Ok(WithTag(Parser.ParseStripped(s, limits).value, t))
            else Err(TagsTooLong(limits.maxTagBytes))
  {
    hide ValidTag, Parser.ParseTags, Parser.ParseBody, Parser.SkipSpaces, Encode.RenderTag;
    var tag := Encode.RenderTag(t);
    Encode.RenderedTagIsSafe(t);
    assert s[0] != ' ' by {
      LeadingSpace(s, limits);
    }
    Encode.SectionSplit('@', tag, s);
    Encode.ParseFirstTag(t, []);
    assert tag + [] == tag;
    Encode.ParseNothing();
    assert [t] + [] == [t];
    BodyKeepsTags([], t, s, limits);
    assert Clean(['@'] + tag + [' '] + s);
  }

  lemma LeadingSpace(s: string, limits: Limits)
    requires s != [] && Parser.ParseStripped(s, limits).Ok?
    ensures s[0] != ' '
  {
    if s[0] == ' ' {
      FindUnique(s, ' ', 0);
    }
  }

  /** The tag section of a line and the rest of it, from the space on. */
  lemma SectionCut(section: string, rest: string)
    requires ' ' !in section && rest != [] && rest[0] == ' '
    ensures var s := ['@'] + section + rest;
            && Find(s, ' ') == 1 + |section|
            && s[1..1 + |section|] == section == SectionOf(s) && s[1 + |section|..] == rest
  {
    var s := ['@'] + section + rest;
    FindAfter(['@'] + section, rest, ' ');
    assert s[1..] == section + rest;
    FindAfter(section, rest, ' ');
    assert (section + rest)[..|section|] == section;
  }

  lemma SplitSection(s: string, limits: Limits) returns (section: string, rest: string)
    requires Parser.ParseStripped(s, limits).Ok? && s[0] == '@'
    ensures s == ['@'] + section + rest && ' ' !in section && rest != [] && rest[0] == ' '
    ensures SectionOf(s) == section
  {
    hide Parser.ParseTags, Parser.ParseBody, Parser.SkipSpaces, Find, SectionOf, Clean;
    var sp := Find(s, ' ');
    section, rest := s[..sp][1..], s[sp..];
    assert s == ['@'] + section + rest;
    SectionCut(section, rest);
  }

  lemma TaggedIsClean(tag: string, section: string, rest: string)
    requires Solid(tag)
    ensures Clean(['@'] + (tag + ([';'] + section)) + rest) <==> Clean(['@'] + section + rest)
  {
    var s, t := ['@'] + section + rest, ['@'] + (tag + ([';'] + section)) + rest;
    var n := |tag| + 1;
    assert forall i :: 1 <= i < |s| ==> s[i] == t[i + n];
    assert t[0] == '@' && forall i :: 0 <= i < |tag| ==> t[i + 1] == tag[i];
    assert t[n] == ';';
    if Clean(s) {
      forall i | 0 <= i < |t|
        ensures !IsLineBreaking(t[i])
      {
        if i > n {
          assert t[i] == s[i - n];
        } else if 0 < i < n {
          assert t[i] == tag[i - 1];
        }
      }
    }
  }

  lemma TaggedTagged(s: string, t: Tag, limits: Limits)
    requires Parser.ParseStripped(s, limits).Ok? && s[0] == '@' && ValidTag(t)
    ensures var tag := Encode.RenderTag(t);
            Parser.ParseStripped(['@'] + tag + [';'] + s[1..], limits) ==
            if |tag| + 1 + |SectionOf(s)| <= limits.maxTagBytes
            then Ok(WithTag(Parser.ParseStripped(s, limits).value, t))
            else Err(TagsTooLong(limits.maxTagBytes))
  {
    hide ValidTag, Parser.ParseTags, Parser.ParseBody, Parser.SkipSpaces, Encode.RenderTag, SectionOf, Find, Clean,
         Solid, Parser.ParseStripped;
    var tag := Encode.RenderTag(t);
    Encode.RenderedTagIsSafe(t);
    SolidHasNoSpace(tag);
    var section, rest := SplitSection(s, limits);
    var longer := tag + ([';'] + section);
    assert ['@'] + tag + [';'] + s[1..] == ['@'] + longer + rest;
    TaggedIsClean(tag, section, rest);
    Encode.ParseWithSection(section, rest, limits);
    Encode.ParseWithSection(longer, rest, limits);
    Encode.ParseFirstTag(t, [';'] + section);
    assert ([';'] + section)[1..] == section;
    BodyKeepsTags(Parser.ParseTags(section).value, t, Parser.SkipSpaces(rest), limits);
  }

  /**
   * Reading a line after `prepend_tag`: the same message with the tag first,
   * exactly when the longer tag section still fits its budget.
   */
  lemma PrependedTagIsRead(line: string, t: Tag, limits: Limits)
    requires Parser.Parse(line, limits).Ok? && ValidTag(t)
    ensures var tag := Encode.RenderTag(t);
            Parser.Parse(PrependTag(line, tag), limits) ==
            if TaggedSize(Parser.Strip(line), tag) <= limits.maxTagBytes
            then Ok(WithTag(Parser.Parse(line, limits).value, t))
            else Err(TagsTooLong(limits.maxTagBytes))
  {
    hide ValidTag, Parser.ParseStripped, Parser.Strip, Encode.RenderTag, SectionOf;
    var s := Parser.Strip(line);
    var tag := Encode.RenderTag(t);
    AcceptedLine(s, limits);
    StripTagged(line, tag);
    if s[0] == '@' {
      TaggedTagged(s, t, limits);
    } else {
      TaggedUntagged(s, t, limits);
    }
  }

  lemma AcceptedLine(s: string, limits: Limits)
    requires Parser.ParseStripped(s, limits).Ok?
    ensures s != [] && (s[0] == '@' ==> |s| > 1)
  {
  }

  // ------------------------------------------------------- labels need no escaping

  /** The label as `end_label` writes it. */
  function LabelText(text: string): string {
    "label=" + text
  }

  function LabelTag(text: string): Tag {
    Tag("label", Some(text))
  }

  /** How much of a value stays in one tag on the wire. */
  function Unbroken(v: string): (n: nat)
    ensures n <= |v|
    ensures forall i :: 0 <= i < n ==> v[i] != ' ' && v[i] != ';'
    ensures n < |v| ==> v[n] == ' ' || v[n] == ';'
  {
    if v == [] || v[0] == ' ' || v[0] == ';' then 0 else 1 + Unbroken(v[1..])
  }

  lemma PlainLabelText(text: string)
    requires Tags.Plain(text)
    ensures LabelText(text) == Encode.RenderTag(LabelTag(text))
  {
    Tags.EscapePlain(text);
  }

  lemma LabelPiece(v: string)
    ensures ';' !in v ==> Parser.ParseTag(LabelText(v)) ==
                          if ValidUtf8(v) then Ok(Tag("label", Some(Tags.Unescape(v)))) else Err(InvalidUtf8(TagValue))
  {
    hide ValidUtf8;
    assert LabelText(v) == Join("label", '=', Some(v));
    CutJoin("label", '=', Some(v));
  }

  /** The tag section of a labelled line starts with the label's unbroken part. */
  lemma LabelSection(text: string, rest: string) returns (tail: string)
    requires rest != [] && (rest[0] == ' ' || rest[0] == ';')
    ensures var s := ['@'] + LabelText(text) + rest;
            && 1 <= Find(s, ' ')
            && s[1..Find(s, ' ')] == LabelText(text[..Unbroken(text)]) + tail
            && (tail != [] ==> tail[0] == ';')
  {
    var piece, more := LabelText(text[..Unbroken(text)]), text[Unbroken(text)..] + rest;
    var s := ['@'] + LabelText(text) + rest;
    assert s == (['@'] + piece) + more;
    FindAfter(['@'] + piece, more, ' ');
    tail := more[..Find(more, ' ')];
    assert s[1..Find(s, ' ')] == piece + tail;
  }

  /** Whatever follows it, the label is read only up to its first separator. */
  lemma LabelReadUpTo(text: string, rest: string, limits: Limits)
    requires rest != [] && (rest[0] == ' ' || rest[0] == ';')
    ensures var r := Parser.ParseStripped(['@'] + LabelText(text) + rest, limits);
            r.Ok? ==>
              && Clean(text) && r.value.tags != []
              && r.value.tags[0] == Tag("label", Some(Tags.Unescape(text[..Unbroken(text)])))
  {
    hide ValidUtf8, Find, Parser.ParseTags, Parser.ParseTag, Parser.ParseBody, Parser.SkipSpaces;
    var s := ['@'] + LabelText(text) + rest;
    if Parser.ParseStripped(s, limits).Ok? {
      assert Clean(text) by {
        assert text == s[7..7 + |text|];
      }
      var tail := LabelSection(text, rest);
      var piece := text[..Unbroken(text)];
      ParseTagsStep(LabelText(piece), tail);
      LabelPiece(piece);
      var sp := Find(s, ' ');
      Parser.ParsedBodyIsValid(Parser.ParseTags(s[1..sp]).value, Parser.SkipSpaces(s[sp..]), limits);
    }
  }

  lemma WholeLabelIsPlain(text: string)
    requires Clean(text) && Tags.Unescape(text[..Unbroken(text)]) == text
    ensures Tags.Plain(text)
  {
    var piece := text[..Unbroken(text)];
    Tags.UnescapeShortens(piece);
    assert piece == text;
    assert forall i :: 0 <= i < |text| ==> text[i] in text;
  }

  /** A labelled line, cut in two. */
  lemma LabelledLine(line: string, text: string, limits: Limits) returns (rest: string)
    requires Parser.Parse(line, limits).Ok?
    ensures rest != [] && (rest[0] == ' ' || rest[0] == ';')
    ensures Parser.Strip(PrependTag(line, LabelText(text))) == ['@'] + LabelText(text) + rest
  {
    hide Parser.ParseStripped, Parser.Strip, LabelText;
    var s := Parser.Strip(line);
    AcceptedLine(s, limits);
    StripTagged(line, LabelText(text));
    rest := if s[0] == '@' then [';'] + s[1..] else [' '] + s;
    assert PrependTag(s, LabelText(text)) == ['@'] + LabelText(text) + rest;
  }

  /** The first tag the client reads is the label up to its first separator. */
  lemma LabelIsCut(line: string, text: string, limits: Limits)
    requires Parser.Parse(line, limits).Ok?
    ensures var r := Parser.Parse(PrependTag(line, LabelText(text)), limits);
            r.Ok? ==>
              && Clean(text) && r.value.tags != []
              && r.value.tags[0] == LabelTag(Tags.Unescape(text[..Unbroken(text)]))
  {
    hide Parser.ParseStripped, Parser.Strip, LabelText, PrependTag, Tags.Unescape, Clean;
    var rest := LabelledLine(line, text, limits);
    LabelReadUpTo(text, rest, limits);
  }

  /**
   * `end_label` writes the decoded label as it is.  The client reads it back
   * exactly when the label needed no escaping and the tag section still fits.
   */
  lemma LabelIsReadIffPlain(line: string, text: string, limits: Limits)
    requires Parser.Parse(line, limits).Ok?
    requires ValidUtf8(text) && NUL !in text
    ensures Parser.Parse(PrependTag(line, LabelText(text)), limits)
            == Ok(WithTag(Parser.Parse(line, limits).value, LabelTag(text)))
       <==> Tags.Plain(text) && TaggedSize(Parser.Strip(line), LabelText(text)) <= limits.maxTagBytes
  {
    hide ValidUtf8, Parser.Parse, Parser.Strip, SectionOf, LabelText, PrependTag, Clean;
    LabelIsCut(line, text, limits);
    if Parser.Parse(PrependTag(line, LabelText(text)), limits)
       == Ok(WithTag(Parser.Parse(line, limits).value, LabelTag(text))) {
      WholeLabelIsPlain(text);
    }
    if Tags.Plain(text) {
      PlainLabelText(text);
      PrependedTagIsRead(line, LabelTag(text), limits);
    }
  }

  lemma SemicolonEscaped()
    ensures Tags.Escape("a;b") == "a\\:b" && !Tags.Plain("a;b") && Unbroken("a;b") == 1
  {
    var v := "a;b";
    assert v[1..] == ";b" && ";b"[1..] == "b" && "b"[1..] == [];
    assert Tags.Escape("b") == "b" && Tags.Escape(";b") == "\\:b";
    assert Tags.NeedsEscape(v[1]);
  }

  /** What a client sends to get the label `a;b`. */
  lemma EscapedLabelIsRead(limits: Limits)
    requires limits.maxTagBytes >= 10 && limits.maxBodyBytes >= 4
    ensures Parser.Parse("@label=a\\:b PING" + CRLF, limits) == Ok(Message([LabelTag("a;b")], None, Named("PING"), []))
  {
    hide Parser.Parse, ValidUtf8, Tags.Escape;
    SemicolonEscaped();
    ValidAscii("a;b");
    var m := Message([LabelTag("a;b")], None, Named("PING"), []);
    var section := Encode.TagSection(m.tags);
    assert section == "label" + "=" + "a\\:b";
    assert Encode.RenderBody(m) == "PING";
    hide Encode.TagSection, Encode.RenderBody;
    assert Encode.Render(m) == ['@'] + section + [' '] + "PING" + CRLF;
    assert ['@'] + section + [' '] + "PING" + CRLF == "@label=a\\:b PING" + CRLF;
    Encode.ParseRender(m, limits);
  }

  /** The response, however, carries another label: whatever the reply, the client reads `a`. */
  lemma EscapedLabelIsLost(line: string, limits: Limits)
    requires Parser.Parse(line, limits).Ok?
    ensures var r := Parser.Parse(PrependTag(line, LabelText("a;b")), limits);
            && r != Ok(WithTag(Parser.Parse(line, limits).value, LabelTag("a;b")))
            && (r.Ok? ==> r.value.tags != [] && r.value.tags[0] == LabelTag("a"))
  {
    hide ValidUtf8, Parser.Parse, Parser.Strip, LabelText, PrependTag, Tags.Unescape, Unbroken;
    SemicolonEscaped();
    ValidAscii("a;b");
    LabelIsReadIffPlain(line, "a;b", limits);
    LabelIsCut(line, "a;b", limits);
    assert "a;b"[..1] == "a";
    OneCharUnescaped();
  }

  lemma OneCharUnescaped()
    ensures Tags.Unescape("a") == "a"
  {
    assert "a"[1..] == [];
  }
}
