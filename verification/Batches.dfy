/** What `opens_batch` sees in a rendered line (ferrixd/src/session.rs). */
module Batches {
  import opened Octets
  import opened Protocol
  import Tags
  import Encode
  import Parser
  import opened Labels

  // -------------------------------------------------------- rendered lines are UTF-8

  lemma JoinIsUtf8(head: string, c: char, tail: Option<string>)
    requires ValidUtf8(head) && c as int < 0x80 && (tail.Some? ==> ValidUtf8(tail.value))
    ensures ValidUtf8(Join(head, c, tail))
  {
    hide ValidUtf8;
    if tail.Some? {
      ValidAscii([c]);
      ValidConcat(head, [c]);
      ValidConcat(head + [c], tail.value);
    }
  }

  lemma TagIsUtf8(t: Tag)
    requires ValidTag(t)
    ensures ValidUtf8(Encode.RenderTag(t))
  {
    hide ValidUtf8, Tags.Escape;
    ValidAscii(t.key);
    if t.value.Some? {
      Tags.EscapeIsUtf8(t.value.value);
    }
    JoinIsUtf8(t.key, '=', if t.value.Some? then Some(Tags.Escape(t.value.value)) else None);
  }

  lemma {:induction false} TagSectionIsUtf8(tags: seq<Tag>)
    requires forall i :: 0 <= i < |tags| ==> ValidTag(tags[i])
    ensures ValidUtf8(Encode.TagSection(tags))
  {
    hide ValidUtf8, ValidTag, Encode.RenderTag;
    if tags == [] {
      ValidAscii([]);
    } else {
      TagIsUtf8(tags[0]);
      TagSectionIsUtf8(tags[1..]);
      JoinIsUtf8(Encode.RenderTag(tags[0]), ';', Some(Encode.TagSection(tags[1..])));
    }
  }

  lemma SourceIsUtf8(s: Source)
    requires ValidSource(s)
    ensures ValidUtf8(Encode.RenderSource(s))
  {
    hide ValidUtf8, Solid;
    JoinIsUtf8(s.name, '!', s.user);
    JoinIsUtf8(Join(s.name, '!', s.user), '@', s.host);
  }

  lemma {:induction false} ParamsAreUtf8(params: seq<string>)
    requires ValidParams(params)
    ensures ValidUtf8(Encode.RenderParams(params))
  {
    hide ValidUtf8, Solid, Clean;
    if params == [] {
      ValidAscii([]);
    } else {
      var mark := if |params| == 1 && Encode.NeedsColon(params[0]) then [' ', ':'] else [' '];
      ValidAscii(mark);
      ValidConcat(mark, params[0]);
      if |params| > 1 {
        ParamsAreUtf8(params[1..]);
        ValidConcat(mark + params[0], Encode.RenderParams(params[1..]));
      }
    }
  }

  lemma CommandIsUtf8(c: Command)
    requires ValidCommand(c)
    ensures ValidUtf8(Encode.RenderCommand(c))
  {
    hide ValidUtf8;
    if c.Numeric? {
      Encode.PadNumeric(c.code);
    }
    ValidAscii(Encode.RenderCommand(c));
  }

  lemma BodyIsUtf8(m: Message)
    requires WellFormed(m)
    ensures ValidUtf8(Encode.RenderBody(m))
  {
    hide ValidUtf8, ValidTag, ValidSource, ValidParams, ValidCommand;
    CommandIsUtf8(m.command);
    ParamsAreUtf8(m.params);
    ValidConcat(Encode.RenderCommand(m.command), Encode.RenderParams(m.params));
    if m.source.Some? {
      var raw := Encode.RenderSource(m.source.value);
      SourceIsUtf8(m.source.value);
      ValidAscii([':']);
      ValidConcat([':'], raw);
      JoinIsUtf8([':'] + raw, ' ', Some(Encode.RenderRest(m)));
    }
  }

  /** Every rendered message is UTF-8. */
  lemma RenderIsUtf8(m: Message)
    requires WellFormed(m)
    ensures ValidUtf8(Encode.Render(m))
  {
    hide ValidUtf8, ValidTag, ValidSource, ValidParams, ValidCommand, Encode.RenderBody, Encode.TagSection;
    BodyIsUtf8(m);
    if m.tags != [] {
      TagSectionIsUtf8(m.tags);
      ValidAscii(['@']);
      ValidConcat(['@'], Encode.TagSection(m.tags));
      JoinIsUtf8(['@'] + Encode.TagSection(m.tags), ' ', Some(Encode.RenderBody(m)));
    }
    ValidAscii(CRLF);
    ValidConcat(Encode.RenderLine(m), CRLF);
  }

  // ------------------------------------------------------------ finding the command

  lemma SkipsSection(mark: char, section: string, rest: string)
    requires ' ' !in section
    ensures SkipMarked([mark] + section + [' '] + rest, mark) == rest
  {
    var s := [mark] + section + [' '] + rest;
    assert s[1..] == section + ([' '] + rest);
    FindAfter(section, [' '] + rest, ' ');
    FindUnique([' '] + rest, ' ', 0);
    assert s[1..][|section| + 1..] == rest;
  }

  lemma SkipsToCommand(m: Message)
    requires WellFormed(m)
    ensures SkipMarked(SkipMarked(Encode.Render(m), '@'), ':') == Encode.RenderRest(m) + CRLF
  {
    hide ValidTag, ValidSource, ValidParams, ValidCommand, ValidUtf8, SkipMarked, Encode.RenderSource,
         Encode.TagSection, Encode.RenderRest;
    var rest := Encode.RenderRest(m) + CRLF;
    var body := Encode.RenderBody(m) + CRLF;
    RestStarts(m);
    SkipsTags(m);
    if m.source.Some? {
      var raw := Encode.RenderSource(m.source.value);
      Encode.RenderedSourceIsSolid(m.source.value);
      SolidHasNoSpace(raw);
      assert body == [':'] + raw + [' '] + rest;
      SkipsSection(':', raw, rest);
    } else {
      SkipsNothing(body, ':');
    }
  }

  lemma SkipsTags(m: Message)
    requires WellFormed(m)
    ensures SkipMarked(Encode.Render(m), '@') == Encode.RenderBody(m) + CRLF
  {
    hide ValidTag, ValidSource, ValidParams, ValidCommand, ValidUtf8, SkipMarked, Encode.RenderBody,
         Encode.TagSection, Parser.ParseBody, Parser.ParseTags;
    var body := Encode.RenderBody(m) + CRLF;
    Encode.ParseRenderBody(m, IRCV3_LIMITS);
    if m.tags == [] {
      SkipsNothing(body, '@');
    } else {
      Encode.ParseTagSection(m.tags);
      SolidHasNoSpace(Encode.TagSection(m.tags));
      assert Encode.Render(m) == ['@'] + Encode.TagSection(m.tags) + [' '] + body;
      SkipsSection('@', Encode.TagSection(m.tags), body);
    }
  }

  lemma SkipsNothing(s: string, mark: char)
    requires s == [] || s[0] != mark
    ensures SkipMarked(s, mark) == s
  {
  }

  lemma RestStarts(m: Message)
    requires WellFormed(m)
    ensures Encode.RenderRest(m) != [] && Encode.RenderRest(m)[0] != ':' && Encode.RenderRest(m)[0] != '@'
  {
    hide ValidTag, ValidSource, ValidParams, ValidUtf8, Encode.RenderCommand, Encode.RenderParams;
    Encode.ParseRenderCommand(m.command);
  }

  /** The message opens a batch: its reference stands before any other parameter, or alone and bare. */
  predicate OpensOne(m: Message) {
    && m.command == Named("BATCH") && m.params != []
    && m.params[0] != [] && m.params[0][0] == '+'
    && (|m.params| > 1 || ' ' !in m.params[0])
  }

  lemma CommandText(c: Command)
    requires ValidCommand(c)
    ensures Encode.RenderCommand(c) == "BATCH" <==> c == Named("BATCH")
  {
    if c.Numeric? {
      Encode.PadNumeric(c.code);
      assert Encode.RenderCommand(c) != "BATCH" by {
        assert |"BATCH"| == 5;
      }
    }
  }

  lemma FirstParamText(params: seq<string>)
    requires params != [] && ValidParams(params)
    ensures var p := Encode.RenderParams(params);
            && p != [] && p[0] == ' '
            && (|p| > 1 && p[1] == '+' <==>
                params[0] != [] && params[0][0] == '+' && (|params| > 1 || ' ' !in params[0]))
  {
    hide ValidUtf8;
  }

  /** On rendered messages, `opens_batch` answers what the message means. */
  lemma OpensBatchIffOpensOne(m: Message)
    requires WellFormed(m)
    ensures OpensBatch(Encode.Render(m)) <==> OpensOne(m)
  {
    hide ValidTag, ValidSource, ValidParams, ValidUtf8, Encode.RenderCommand, Encode.RenderParams, SkipMarked,
         Encode.Render, Find;
    RenderIsUtf8(m);
    SkipsToCommand(m);
    Encode.ParseRenderCommand(m.command);
    CommandText(m.command);
    var command, params := Encode.RenderCommand(m.command), Encode.RenderParams(m.params);
    var rest := command + params + CRLF;
    SolidHasNoSpace(command);
    if m.params == [] {
      NoParamsText();
      assert rest == command + CRLF;
      FindUnique(rest, ' ', |rest|);
    } else {
      FirstParamText(m.params);
      FindUnique(rest, ' ', |command|);
      assert rest[..|command|] == command;
      assert rest[|command| + 1..] == params[1..] + CRLF;
    }
  }

  lemma NoParamsText()
    ensures Encode.RenderParams([]) == []
  {
  }
}
