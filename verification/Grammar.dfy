/** What a line may look like beyond what is written (ferrix-protocol/src/parser.rs). */
module Grammar {
  import opened Octets
  import opened Protocol
  import Parser
  import Session

  predicate Letter(c: char) {
    'a' <= c <= 'z' || 'A' <= c <= 'Z'
  }

  predicate Figure(c: char) {
    '0' <= c <= '9'
  }

  /** A tag key: letters, figures and `-/.`, after a `+` that need not be there. */
  lemma TagKeyGrammar(s: string)
    ensures Parser.ParseTagKey(s).Ok?
       <==> && s != [] && (s[0] == '+' || Letter(s[0]) || Figure(s[0]) || s[0] == '-' || s[0] == '/' || s[0] == '.')
            && forall i :: 1 <= i < |s| ==> Letter(s[i]) || Figure(s[i]) || s[i] == '-' || s[i] == '/' || s[i] == '.'
    ensures Parser.ParseTagKey(s).Ok? ==> Parser.ParseTagKey(s).value == s
    ensures s == [] ==> Parser.ParseTagKey(s) == Err(EmptyTagKey)
    ensures s != [] && Parser.ParseTagKey(s).Err? ==> Parser.ParseTagKey(s) == Err(InvalidTagKey)
  {
  }

  /** A command: letters, as they are, or three figures, as a number. */
  lemma CommandGrammar(s: string)
    ensures Parser.ParseCommand(s) == Ok(Named(s)) <==> s != [] && forall i :: 0 <= i < |s| ==> Letter(s[i])
    ensures forall n :: Parser.ParseCommand(s) == Ok(Numeric(n))
                   <==> && |s| == 3 && Figure(s[0]) && Figure(s[1]) && Figure(s[2])
                        && n == 100 * (s[0] as int - 48) + 10 * (s[1] as int - 48) + (s[2] as int - 48)
    ensures s == [] ==> Parser.ParseCommand(s) == Err(MissingCommand)
    ensures s != [] && Parser.ParseCommand(s).Err? ==> Parser.ParseCommand(s) == Err(InvalidCommand)
  {
  }

  /** NUL, CR or LF inside a line refuses it. */
  lemma ControlsAreRefused(input: string, limits: Limits)
    requires var s := Parser.Strip(input); exists i :: 0 <= i < |s| && (s[i] == '\0' || s[i] == '\r' || s[i] == '\n')
    ensures Parser.Parse(input, limits) == Err(IllegalControlChar)
  {
    hide Parser.Strip;
    var s := Parser.Strip(input);
    assert !Clean(s);
  }

  lemma EmptyIsRefused(input: string, limits: Limits)
    requires Parser.Strip(input) == []
    ensures Parser.Parse(input, limits) == Err(Empty)
  {
  }

  /** Empty tags are skipped. */
  lemma EmptyTagIsSkipped(section: string)
    ensures Parser.ParseTags([';'] + section) == Parser.ParseTags(section)
  {
    var s := [';'] + section;
    FindUnique(s, ';', 0);
    assert s[1..] == section;
  }

  /** Any run of spaces separates parameters like one. */
  lemma SpacesAreOne(s: string, t: string)
    requires Parser.SkipSpaces(s) == Parser.SkipSpaces(t)
    ensures Parser.ParseParams(s) == Parser.ParseParams(t)
  {
    hide Parser.SkipSpaces, Find, ValidUtf8;
    Parser.ParseParamsStep(s);
    Parser.ParseParamsStep(t);
  }

  lemma SkipIs(s: string, n: nat)
    requires n <= |s| && (forall i :: 0 <= i < n ==> s[i] == ' ') && (n < |s| ==> s[n] != ' ')
    ensures Parser.SkipSpaces(s) == s[n..]
  {
    hide Parser.SkipSpaces;
    var r := Parser.SkipSpaces(s);
    var x := |s| - |r|;
    assert x < |s| ==> r[0] == s[x];
  }

  lemma SpacesAreSkipped(n: nat, s: string)
    ensures Parser.SkipSpaces(seq(n, _ => ' ') + s) == Parser.SkipSpaces(s)
  {
    hide Parser.SkipSpaces;
    var more, r := seq(n, _ => ' ') + s, Parser.SkipSpaces(s);
    var m := |s| - |r|;
    assert r != [] ==> r[0] == s[m] == more[n + m];
    forall i | 0 <= i < n + m
      ensures more[i] == ' '
    {
      if i >= n {
        assert more[i] == s[i - n];
      }
    }
    SkipIs(more, n + m);
    assert more[n + m..] == s[m..];
  }

  /** A trailing parameter may be marked by a colon whether it needs it or not. */
  lemma ColonIsFree(x: string)
    requires ValidUtf8(x)
    ensures Parser.ParseParams([' ', ':'] + x) == Ok([x])
  {
    hide ValidUtf8;
    Parser.SkipOneSpace([':'] + x);
    assert [' ', ':'] + x == [' '] + ([':'] + x) && ([':'] + x)[1..] == x;
  }

  // -------------------------------------------------------------------------- refusals

  lemma NamelessIsRefused(raw: string)
    requires raw == [] || raw[0] == '@' || raw[0] == '!'
    ensures Parser.ParseSource(raw) == Err(EmptySource)
  {
    hide ValidUtf8;
    var (nameUser, host) := Cut(raw, '@');
    if raw != [] && raw[0] == '@' {
      FindUnique(raw, '@', 0);
    } else if raw != [] {
      FindUnique(nameUser, '!', 0);
    }
  }

  /** The host is cut off at the first `@`, then the user at the first `!`; each must be UTF-8. */
  lemma SourceParts(name: string, user: Option<string>, host: Option<string>)
    requires name != [] && '@' !in name && '!' !in name && (user.Some? ==> '@' !in user.value)
    ensures var raw := name + (if user.Some? then "!" + user.value else "") + if host.Some? then "@" + host.value else "";
            && (!ValidUtf8(name) ==> Parser.ParseSource(raw) == Err(InvalidUtf8(SourceName)))
            && (ValidUtf8(name) && user.Some? && !ValidUtf8(user.value) ==>
                  Parser.ParseSource(raw) == Err(InvalidUtf8(SourceUser)))
            && (ValidUtf8(name) && (user.Some? ==> ValidUtf8(user.value)) && host.Some? && !ValidUtf8(host.value) ==>
                  Parser.ParseSource(raw) == Err(InvalidUtf8(SourceHost)))
            && (ValidUtf8(name) && (user.Some? ==> ValidUtf8(user.value)) && (host.Some? ==> ValidUtf8(host.value)) ==>
                  Parser.ParseSource(raw) == Ok(Source(name, user, host)))
  {
    hide ValidUtf8, Cut;
    var nameUser := Join(name, '!', user);
    var raw := name + (if user.Some? then "!" + user.value else "") + if host.Some? then "@" + host.value else "";
    assert name + (if user.Some? then "!" + user.value else "") == nameUser;
    assert raw == Join(nameUser, '@', host);
    CutJoin(nameUser, '@', host);
    CutJoin(name, '!', user);
  }

  /** The first bad tag decides. */
  lemma BadTagIsRefused(key: string, value: Option<string>, rest: string)
    requires '=' !in key && ';' !in key && (value.Some? ==> ';' !in value.value) && (key != [] || value.Some?)
    requires rest != [] ==> rest[0] == ';'
    ensures var r := Parser.ParseTags(key + (if value.Some? then "=" + value.value else "") + rest);
            && (Parser.ParseTagKey(key).Err? ==> r == Err(Parser.ParseTagKey(key).error))
            && (Parser.ParseTagKey(key).Ok? && value.Some? && !ValidUtf8(value.value) ==> r == Err(InvalidUtf8(TagValue)))
  {
    hide ValidUtf8, Cut, Parser.ParseTags, Parser.ParseTagKey;
    var raw := Join(key, '=', value);
    assert key + (if value.Some? then "=" + value.value else "") == raw;
    CutJoin(key, '=', value);
    Session.ParseTagsStep(raw, rest);
  }

  lemma BadParamIsRefused(p: string, rest: string)
    requires p != [] && p[0] != ':' && ' ' !in p && !ValidUtf8(p) && (rest != [] ==> rest[0] == ' ')
    ensures Parser.ParseParams([' '] + p + rest) == Err(InvalidUtf8(MiddleParam))
  {
    hide ValidUtf8, Parser.SkipSpaces, Find;
    var s := [' '] + p + rest;
    assert s == [' '] + (p + rest) && (p + rest)[0] == p[0];
    Parser.SkipOneSpace(p + rest);
    FindUnique(p + rest, ' ', |p|) by {
      assert (p + rest)[..|p|] == p;
    }
    Parser.ParseParamsStep(s);
  }

  lemma BadTrailingIsRefused(x: string)
    requires !ValidUtf8(x)
    ensures Parser.ParseParams([' ', ':'] + x) == Err(InvalidUtf8(TrailingParam))
  {
    hide ValidUtf8, Parser.SkipSpaces;
    Parser.SkipOneSpace([':'] + x);
    assert [' ', ':'] + x == [' '] + ([':'] + x) && ([':'] + x)[1..] == x;
  }

  /** Tags that are too long, or with nothing after them. */
  lemma TagsAreRefused(input: string, section: string, n: nat, rest: string, limits: Limits)
    requires Clean(Parser.Strip(input)) && ' ' !in section
    ensures Parser.Strip(input) == ['@'] + section ==> Parser.Parse(input, limits) == Err(MissingCommand)
    ensures Parser.Strip(input) == ['@'] + section + [' '] + rest && |section| > limits.maxTagBytes ==>
              Parser.Parse(input, limits) == Err(TagsTooLong(limits.maxTagBytes))
    ensures Parser.Strip(input) == ['@'] + section + [' '] + seq(n, _ => ' ')
            && |section| <= limits.maxTagBytes && Parser.ParseTags(section).Ok? ==>
              Parser.Parse(input, limits) == Err(MissingCommand)
  {
    hide ValidUtf8, Parser.Strip, Parser.ParseTags, Parser.ParseBody, Parser.SkipSpaces, Clean, Find;
    var s := Parser.Strip(input);
    var sp := 1 + |section|;
    if s == ['@'] + section {
      FindUnique(s, ' ', |s|);
    } else if s == ['@'] + section + [' '] + rest || s == ['@'] + section + [' '] + seq(n, _ => ' ') {
      assert s[..sp] == ['@'] + section && s[1..sp] == section;
      FindUnique(s, ' ', sp);
      if s == ['@'] + section + [' '] + seq(n, _ => ' ') {
        SkipIs(s[sp..], n + 1);
      }
    }
  }

  /** A body that is too long, or holds nothing but a source, or a source without a name. */
  lemma BodyIsRefused(tags: seq<Tag>, body: string, raw: string, rest: string, limits: Limits)
    requires body != [] && ' ' !in raw
    ensures |body| > limits.maxBodyBytes ==>
              Parser.ParseBody(tags, body, limits) == Err(BodyTooLong(limits.maxBodyBytes))
    ensures |body| <= limits.maxBodyBytes && body == [':'] + raw ==>
              Parser.ParseBody(tags, body, limits) == Err(MissingCommand)
    ensures |body| <= limits.maxBodyBytes && body == [':', ' '] + rest ==>
              Parser.ParseBody(tags, body, limits) == Err(EmptySource)
    ensures |body| <= limits.maxBodyBytes && body == [':'] + raw + [' '] + rest && raw != []
            && Parser.ParseSource(raw).Err? ==>
              Parser.ParseBody(tags, body, limits) == Err(Parser.ParseSource(raw).error)
    ensures |body| <= limits.maxBodyBytes && body == [':'] + raw + [' '] + rest && raw != []
            && Parser.ParseSource(raw).Ok? && Parser.SkipSpaces(rest) == [] ==>
              Parser.ParseBody(tags, body, limits) == Err(MissingCommand)
  {
    hide ValidUtf8, Parser.ParseSource, Parser.ParseCommandAndParams, Parser.SkipSpaces, Find;
    var sp := 1 + |raw|;
    if body == [':'] + raw {
      FindUnique(body, ' ', |body|);
      assert raw != [] ==> body[1] == raw[0];
    } else if body == [':', ' '] + rest {
      assert body[..1] == [':'];
      FindUnique(body, ' ', 1);
    } else if body == [':'] + raw + [' '] + rest {
      assert body[..sp] == [':'] + raw && body[1..sp] == raw && body[sp..] == [' '] + rest;
      FindUnique(body, ' ', sp);
      if Parser.SkipSpaces(rest) == [] {
        SkipIs([' '] + rest, 1 + |rest|);
      }
    }
  }

  /** The command is judged before the parameters. */
  lemma CommandIsRefused(tags: seq<Tag>, source: Option<Source>, name: string, rest: string)
    requires ' ' !in name && (rest != [] ==> rest[0] == ' ')
    ensures Parser.ParseCommand(name).Err? ==>
              Parser.ParseCommandAndParams(tags, source, name + rest) == Err(Parser.ParseCommand(name).error)
    ensures Parser.ParseCommand(name).Ok? && Parser.ParseParams(rest).Err? ==>
              Parser.ParseCommandAndParams(tags, source, name + rest) == Err(Parser.ParseParams(rest).error)
  {
    hide ValidUtf8, Parser.ParseCommand, Parser.ParseParams, Find;
    var s := name + rest;
    assert s[..|name|] == name && s[|name|..] == rest;
    FindUnique(s, ' ', |name|);
  }
}
