/** Parsing one line (ferrix-protocol/src/parser.rs). */
module Parser {
  import opened Octets
  import opened Protocol
  import Tags

  predicate IsTerminator(c: char) {
    c == CR || c == LF
  }

  /** The line without the run of CR and LF at its end. */
  function Strip(s: string): (r: string)
    ensures r <= s
    ensures forall i :: |r| <= i < |s| ==> IsTerminator(s[i])
    ensures r != [] ==> !IsTerminator(r[|r| - 1])
  {
    if s != [] && IsTerminator(s[|s| - 1]) then Strip(s[..|s| - 1]) else s
  }

  /** Not one terminator is stripped but all of them. */
  lemma StripsEveryTerminator(s: string)
    ensures Strip(s + CRLF + CRLF) == Strip(s)
  {
    StripOne(s + CRLF);
    StripOne(s);
  }

  lemma StripOne(s: string)
    ensures Strip(s + CRLF) == Strip(s)
  {
    var t := s + CRLF;
    assert t[..|t| - 1] == s + [CR] && (s + [CR])[..|s|] == s;
  }

  /** The line without the run of spaces at its start. */
  function SkipSpaces(s: string): (r: string)
    ensures |r| <= |s| && r == s[|s| - |r|..]
    ensures forall i :: 0 <= i < |s| - |r| ==> s[i] == ' '
    ensures r != [] ==> r[0] != ' '
  {
    s[SpacesFrom(s, 0)..]
  }

  /** Where the run of spaces from `i` on ends. */
  function SpacesFrom(s: string, i: nat): (n: nat)
    requires i <= |s|
    ensures i <= n <= |s| && forall k :: i <= k < n ==> s[k] == ' '
    ensures n < |s| ==> s[n] != ' '
    decreases |s| - i
  {
    if i < |s| && s[i] == ' ' then SpacesFrom(s, i + 1) else i
  }

  lemma SkipOneSpace(s: string)
    requires s != [] ==> s[0] != ' '
    ensures SkipSpaces([' '] + s) == s
  {
    assert ([' '] + s)[1..] == s;
  }

  function ParseTagKey(s: string): Result<string> {
    if s == [] then Err(EmptyTagKey)
    else if !ValidKey(s) then Err(InvalidTagKey)
    else Ok(s)
  }

  function ParseTag(raw: string): Result<Tag> {
    var (left, right) := Cut(raw, '=');
    match ParseTagKey(left)
    case Err(e) => Err(e)
    case Ok(key) =>
      match right
      case None => Ok(Tag(key, None))
      case Some(v) => if ValidUtf8(v) then Ok(Tag(key, Some(Tags.Unescape(v)))) else Err(InvalidUtf8(TagValue))
  }

  /** What follows the separator at position `n`, if there is one. */
  function After(s: string, n: nat): (r: string)
    requires n <= |s|
    ensures s != [] ==> |r| < |s|
  {
    if n == |s| then [] else s[n + 1..]
  }

  function Cons<T>(x: T, r: Result<seq<T>>): Result<seq<T>> {
    match r
    case Err(e) => Err(e)
    case Ok(xs) => Ok([x] + xs)
  }

  function ParseTags(section: string): Result<seq<Tag>>
    decreases |section|
  {
    if section == [] then Ok([])
    else
      var n := Find(section, ';');
      var rest := After(section, n);
      if n == 0 then ParseTags(rest)
      else
        match ParseTag(section[..n])
        case Err(e) => Err(e)
        case Ok(tag) => Cons(tag, ParseTags(rest))
  }

  /** `name[!user][@host]`, the host cut off first. */
  function ParseSource(raw: string): Result<Source> {
    var (nameUser, host) := Cut(raw, '@');
    var (name, user) := Cut(nameUser, '!');
    if name == [] then Err(EmptySource)
    else if !ValidUtf8(name) then Err(InvalidUtf8(SourceName))
    else if user.Some? && !ValidUtf8(user.value) then Err(InvalidUtf8(SourceUser))
    else if host.Some? && !ValidUtf8(host.value) then Err(InvalidUtf8(SourceHost))
    else Ok(Source(name, user, host))
  }

  function DigitValue(c: char): nat
    requires IsDigit(c)
  {
    c as int - '0' as int
  }

  function ParseCommand(s: string): Result<Command> {
    if s == [] then Err(MissingCommand)
    else if |s| == 3 && AllDigits(s) then
      Ok(Numeric(DigitValue(s[0]) * 100 + DigitValue(s[1]) * 10 + DigitValue(s[2])))
    else if AllAlpha(s) then Ok(Named(s))
    else Err(InvalidCommand)
  }

  function ParseParams(s: string): Result<seq<string>>
    decreases |s|
  {
    var buf := SkipSpaces(s);
    if buf == [] then Ok([])
    else if buf[0] == ':' then
      if ValidUtf8(buf[1..]) then Ok([buf[1..]]) else Err(InvalidUtf8(TrailingParam))
    else
      var end := Find(buf, ' ');
      if ValidUtf8(buf[..end]) then Cons(buf[..end], ParseParams(buf[end..]))
      else Err(InvalidUtf8(MiddleParam))
  }

  function ParseCommandAndParams(tags: seq<Tag>, source: Option<Source>, buf: string): Result<Message> {
    var end := Find(buf, ' ');
    match ParseCommand(buf[..end])
    case Err(e) => Err(e)
    case Ok(command) =>
      match ParseParams(buf[end..])
      case Err(e) => Err(e)
      case Ok(params) => Ok(Message(tags, source, command, params))
  }

  function ParseBody(tags: seq<Tag>, body: string, limits: Limits): Result<Message>
    requires body != []
  {
    if |body| > limits.maxBodyBytes then Err(BodyTooLong(limits.maxBodyBytes))
    else if body[0] != ':' then ParseCommandAndParams(tags, None, body)
    else
      var sp := Find(body, ' ');
      if sp == |body| then Err(MissingCommand)
      else if sp == 1 then Err(EmptySource)
      else
        match ParseSource(body[1..sp])
        case Err(e) => Err(e)
        case Ok(source) =>
          var rest := SkipSpaces(body[sp..]);
          if rest == [] then Err(MissingCommand)
          else ParseCommandAndParams(tags, Some(source), rest)
  }

  /** A line whose terminators are gone. */
  function ParseStripped(buf: string, limits: Limits): Result<Message> {
    if buf == [] then Err(Empty)
    else if !Clean(buf) then Err(IllegalControlChar)
    else if buf[0] != '@' then ParseBody([], buf, limits)
    else
      var sp := Find(buf, ' ');
      if sp == |buf| then Err(MissingCommand)
      else if sp - 1 > limits.maxTagBytes then Err(TagsTooLong(limits.maxTagBytes))
      else
        match ParseTags(buf[1..sp])
        case Err(e) => Err(e)
        case Ok(tags) =>
          var body := SkipSpaces(buf[sp..]);
          if body == [] then Err(MissingCommand) else ParseBody(tags, body, limits)
  }

  function Parse(input: string, limits: Limits): Result<Message> {
    ParseStripped(Strip(input), limits)
  }

  // ------------------------------------------------ every result is well formed

  lemma ParsedTagIsValid(raw: string)
    requires ParseTag(raw).Ok? && NUL !in raw
    ensures ValidTag(ParseTag(raw).value)
  {
    var (key, value) := Cut(raw, '=');
    if value.Some? {
      Tags.UnescapeNoNul(value.value);
      Tags.UnescapeIsUtf8(value.value);
    }
  }

  lemma {:induction false} ParsedTagsAreValid(section: string)
    requires ParseTags(section).Ok? && NUL !in section
    ensures forall i :: 0 <= i < |ParseTags(section).value| ==> ValidTag(ParseTags(section).value[i])
    decreases |section|
  {
    if section != [] {
      var n := Find(section, ';');
      ParsedTagsAreValid(After(section, n));
      if n > 0 {
        ParsedTagIsValid(section[..n]);
      }
    }
  }

  lemma ParsedSourceIsValid(raw: string)
    requires ParseSource(raw).Ok? && Solid(raw)
    ensures ValidSource(ParseSource(raw).value)
  {
    hide ValidUtf8, Solid;
    var (nameUser, host) := Cut(raw, '@');
    var (name, user) := Cut(nameUser, '!');
    SolidParts(nameUser, '@', host);
    SolidParts(name, '!', user);
  }

  lemma ParsedCommandIsValid(s: string)
    requires ParseCommand(s).Ok?
    ensures ValidCommand(ParseCommand(s).value)
  {
  }

  /** One round of the parameter loop, from the text after the spaces. */
  lemma ParseParamsStep(s: string)
    ensures var buf := SkipSpaces(s);
            var end := Find(buf, ' ');
            ParseParams(s) ==
            if buf == [] then Ok([])
            else if buf[0] == ':' then (if ValidUtf8(buf[1..]) then Ok([buf[1..]]) else Err(InvalidUtf8(TrailingParam)))
            else if ValidUtf8(buf[..end]) then Cons(buf[..end], ParseParams(buf[end..]))
            else Err(InvalidUtf8(MiddleParam))
  {
    hide ValidUtf8;
  }

  lemma FirstParamIsToken(buf: string)
    requires Clean(buf) && buf != [] && buf[0] != ' ' && buf[0] != ':'
    requires ValidUtf8(buf[..Find(buf, ' ')])
    ensures Token(buf[..Find(buf, ' ')])
  {
    hide ValidUtf8;
    var p := buf[..Find(buf, ' ')];
    assert forall i :: 0 <= i < |p| ==> p[i] == buf[i] && p[i] in p;
  }

  lemma ConsIsValid(p: string, ps: seq<string>)
    requires Token(p) && ValidParams(ps)
    ensures ValidParams([p] + ps)
  {
    hide ValidUtf8;
  }

  lemma LastIsValid(buf: string)
    requires Clean(buf)
    ensures ValidParams([])
    ensures buf != [] && ValidUtf8(buf[1..]) ==> ValidParams([buf[1..]])
  {
    hide ValidUtf8;
  }

  lemma {:induction false} ParsedParamsAreValid(s: string)
    requires ParseParams(s).Ok? && Clean(s)
    ensures ValidParams(ParseParams(s).value)
    decreases |s|
  {
    hide ValidUtf8, ParseParams, Token, ValidParams, Find, SkipSpaces;
    ParseParamsStep(s);
    var buf := SkipSpaces(s);
    if buf == [] || buf[0] == ':' {
      LastIsValid(buf);
    } else {
      var end := Find(buf, ' ');
      ParsedParamsAreValid(buf[end..]);
      FirstParamIsToken(buf);
      ConsIsValid(buf[..end], ParseParams(buf[end..]).value);
    }
  }

  /** The parts of a message after its tags. */
  predicate ValidBody(m: Message) {
    && (m.source.Some? ==> ValidSource(m.source.value))
    && ValidCommand(m.command)
    && ValidParams(m.params)
  }

  lemma ParsedRestIsValid(tags: seq<Tag>, source: Option<Source>, buf: string)
    requires Clean(buf)
    requires source.Some? ==> ValidSource(source.value)
    ensures var r := ParseCommandAndParams(tags, source, buf);
            r.Ok? ==> r.value.tags == tags && ValidBody(r.value)
  {
    hide ValidUtf8, ParseParams, ParseCommand, ValidParams, ValidCommand, ValidSource;
    var end := Find(buf, ' ');
    if ParseCommand(buf[..end]).Ok? && ParseParams(buf[end..]).Ok? {
      ParsedCommandIsValid(buf[..end]);
      ParsedParamsAreValid(buf[end..]);
    }
  }

  lemma ParsedBodyIsValid(tags: seq<Tag>, body: string, limits: Limits)
    requires body != [] && Clean(body)
    ensures var r := ParseBody(tags, body, limits);
            r.Ok? ==> r.value.tags == tags && ValidBody(r.value)
  {
    hide ValidUtf8;
    var sp := Find(body, ' ');
    if body[0] != ':' {
      ParsedRestIsValid(tags, None, body);
    } else if 1 < sp < |body| {
      var raw, rest := body[1..sp], SkipSpaces(body[sp..]);
      if ParseSource(raw).Ok? && rest != [] {
        assert Solid(raw);
        ParsedSourceIsValid(raw);
        ParsedRestIsValid(tags, Some(ParseSource(raw).value), rest);
      }
    }
  }

  /** Whatever `Parse` accepts, it returns a well-formed message. */
  lemma ParsedIsWellFormed(input: string, limits: Limits)
    requires Parse(input, limits).Ok?
    ensures WellFormed(Parse(input, limits).value)
  {
    hide ValidUtf8, ParseTags, ParseBody, ValidTag, ValidSource, ValidCommand, ValidParams;
    var buf := Strip(input);
    if buf[0] == '@' {
      var sp := Find(buf, ' ');
      ParsedTagsAreValid(buf[1..sp]);
      ParsedBodyIsValid(ParseTags(buf[1..sp]).value, SkipSpaces(buf[sp..]), limits);
    } else {
      ParsedBodyIsValid([], buf, limits);
    }
  }

  // ------------------------------------------------------------- the parser's loops

  method StripLineTerminators(input: string) returns (buf: string)
    ensures buf == Strip(input)
  {
    buf := input;
    while buf != [] && IsTerminator(buf[|buf| - 1])
      invariant Strip(input) == Strip(buf)
      decreases |buf|
    {
      buf := buf[..|buf| - 1];
    }
  }

  method SkipSpaceRun(input: string) returns (buf: string)
    ensures buf == SkipSpaces(input)
  {
    buf := input;
    while buf != [] && buf[0] == ' '
      invariant SkipSpaces(input) == SkipSpaces(buf)
      decreases |buf|
    {
      buf := buf[1..];
    }
  }

  function Append<T>(done: seq<T>, r: Result<seq<T>>): Result<seq<T>> {
    match r
    case Err(e) => Err(e)
    case Ok(xs) => Ok(done + xs)
  }

  lemma AppendCons<T>(done: seq<T>, x: T, r: Result<seq<T>>)
    ensures Append(done, Cons(x, r)) == Append(done + [x], r)
  {
    if r.Ok? {
      assert done + ([x] + r.value) == (done + [x]) + r.value;
    }
  }

  lemma ConsAppend<T>(x: T, xs: seq<T>, r: Result<seq<T>>)
    ensures Cons(x, Append(xs, r)) == Append([x] + xs, r)
  {
    if r.Ok? {
      assert [x] + (xs + r.value) == ([x] + xs) + r.value;
    }
  }

  lemma AppendNothing<T>(r: Result<seq<T>>)
    ensures Append([], r) == r
  {
    if r.Ok? {
      assert [] + r.value == r.value;
    }
  }

  /** `parse_tags`: the pieces between semicolons, empty ones skipped. */
  method ParseTagSection(section: string) returns (r: Result<seq<Tag>>)
    ensures r == ParseTags(section)
  {
    var out: seq<Tag> := [];
    var rest := section;
    AppendNothing(ParseTags(section));
    while rest != []
      invariant ParseTags(section) == Append(out, ParseTags(rest))
      decreases |rest|
    {
      var n := Find(rest, ';');
      var raw := rest[..n];
      var next := After(rest, n);
      if raw != [] {
        var tag := ParseTag(raw);
        if tag.Err? {
          return Err(tag.error);
        }
        AppendCons(out, tag.value, ParseTags(next));
        out := out + [tag.value];
      }
      rest := next;
    }
    assert out + [] == out;
    return Ok(out);
  }

  /** The parameter loop of `parse`. */
  method ParseParamList(input: string) returns (r: Result<seq<string>>)
    ensures r == ParseParams(input)
  {
    hide ValidUtf8, ParseParams;
    var params: seq<string> := [];
    var buf := input;
    AppendNothing(ParseParams(input));
    while true
      invariant ParseParams(input) == Append(params, ParseParams(buf))
      decreases |buf|
    {
      ParseParamsStep(buf);
      buf := SkipSpaceRun(buf);
      if buf == [] {
        assert params + [] == params;
        return Ok(params);
      }
      if buf[0] == ':' {
        return if ValidUtf8(buf[1..]) then Ok(params + [buf[1..]]) else Err(InvalidUtf8(TrailingParam));
      }
      var end := Find(buf, ' ');
      if !ValidUtf8(buf[..end]) {
        return Err(InvalidUtf8(MiddleParam));
      }
      AppendCons(params, buf[..end], ParseParams(buf[end..]));
      params := params + [buf[..end]];
      buf := buf[end..];
    }
  }

  /** `parse`, section by section. */
  method ParseLine(input: string, limits: Limits) returns (r: Result<Message>)
    ensures r == Parse(input, limits)
  {
    hide ValidUtf8;
    var buf := StripLineTerminators(input);
    if buf == [] {
      return Err(Empty);
    }
    if !Clean(buf) {
      return Err(IllegalControlChar);
    }
    var tags: seq<Tag> := [];
    if buf[0] == '@' {
      var sp := Find(buf, ' ');
      if sp == |buf| {
        return Err(MissingCommand);
      }
      if sp - 1 > limits.maxTagBytes {
        return Err(TagsTooLong(limits.maxTagBytes));
      }
      var parsed := ParseTagSection(buf[1..sp]);
      if parsed.Err? {
        return Err(parsed.error);
      }
      tags := parsed.value;
      buf := SkipSpaceRun(buf[sp..]);
      if buf == [] {
        return Err(MissingCommand);
      }
    }
    if |buf| > limits.maxBodyBytes {
      return Err(BodyTooLong(limits.maxBodyBytes));
    }
    var source: Option<Source> := None;
    if buf[0] == ':' {
      var sp := Find(buf, ' ');
      if sp == |buf| {
        return Err(MissingCommand);
      }
      if sp == 1 {
        return Err(EmptySource);
      }
      var parsed := ParseSource(buf[1..sp]);
      if parsed.Err? {
        return Err(parsed.error);
      }
      source := Some(parsed.value);
      buf := SkipSpaceRun(buf[sp..]);
      if buf == [] {
        return Err(MissingCommand);
      }
    }
    var end := Find(buf, ' ');
    var command := ParseCommand(buf[..end]);
    if command.Err? {
      return Err(command.error);
    }
    var params := ParseParamList(buf[end..]);
    if params.Err? {
      return Err(params.error);
    }
    return Ok(Message(tags, source, command.value, params.value));
  }
}
