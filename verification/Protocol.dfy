/** The message model (ferrix-protocol/src/message.rs, limits.rs). */
module Protocol {
  import opened Octets

  datatype Tag = Tag(key: string, value: Option<string>)

  datatype Source = Source(name: string, user: Option<string>, host: Option<string>)

  datatype Command = Named(name: string) | Numeric(code: nat)

  datatype Message = Message(
    tags: seq<Tag>,
    source: Option<Source>,
    command: Command,
    params: seq<string>)

  datatype Limits = Limits(maxTagBytes: nat, maxBodyBytes: nat)

  const IRCV3_LIMITS := Limits(8191, 512)

  /** The fields that are checked to be UTF-8. */
  datatype Field = TagValue | SourceName | SourceUser | SourceHost | MiddleParam | TrailingParam

  datatype ParseError =
    | Empty
    | IllegalControlChar
    | TagsTooLong(limit: nat)
    | BodyTooLong(limit: nat)
    | MissingCommand
    | InvalidCommand
    | EmptyTagKey
    | InvalidTagKey
    | EmptySource
    | InvalidUtf8(field: Field)

  datatype Result<+T> = Ok(value: T) | Err(error: ParseError)

  predicate IsKeyOctet(c: char) {
    IsAlpha(c) || IsDigit(c) || c == '-' || c == '/' || c == '.'
  }

  predicate ValidKey(key: string) {
    && key != []
    && (IsKeyOctet(key[0]) || key[0] == '+')
    && forall i :: 1 <= i < |key| ==> IsKeyOctet(key[i])
  }

  predicate ValidTag(t: Tag) {
    && ValidKey(t.key)
    && (t.value.Some? ==> ValidUtf8(t.value.value) && NUL !in t.value.value)
  }

  /** Text that can be a field of a line: UTF-8 without NUL, CR and LF. */
  predicate Text(s: string) {
    ValidUtf8(s) && Clean(s)
  }

  /** Text that can be a middle parameter. */
  predicate Token(s: string) {
    ValidUtf8(s) && Solid(s) && s != [] && s[0] != ':'
  }

  predicate ValidSource(s: Source) {
    && ValidUtf8(s.name) && Solid(s.name) && s.name != [] && '@' !in s.name && '!' !in s.name
    && (s.user.Some? ==> ValidUtf8(s.user.value) && Solid(s.user.value) && '@' !in s.user.value)
    && (s.host.Some? ==> ValidUtf8(s.host.value) && Solid(s.host.value))
  }

  predicate ValidCommand(c: Command) {
    match c
    case Named(name) => name != [] && AllAlpha(name)
    case Numeric(code) => code <= 999
  }

  /** Only the last parameter may be empty, contain spaces or start with a colon. */
  predicate ValidParams(params: seq<string>) {
    forall i :: 0 <= i < |params| ==>
                  if i < |params| - 1 then Token(params[i]) else Text(params[i])
  }

  predicate WellFormed(m: Message) {
    && (forall i :: 0 <= i < |m.tags| ==> ValidTag(m.tags[i]))
    && (m.source.Some? ==> ValidSource(m.source.value))
    && ValidCommand(m.command)
    && ValidParams(m.params)
  }
}
