# ferrixd, modelled and verified in Dafny

ferrixd is an IRC daemon. This project models the parts of it whose correctness is hardest to see by
reading one function, and proves what they promise: on every input, over every run, or in every
reachable state.

`dafny verify dfyconfig.toml` checks the whole project. Each module follows one source file or one
protocol piece:

| files | what they model |
|---|---|
| `Octets`, `Utf8`, `Sequences`, `Numbers`, `Codes` | octet strings, UTF-8 (section 4 of RFC 3629), printing and parsing of numbers |
| `Tags`, `Protocol`, `Parser`, `Encode`, `Grammar` | the wire format: the parser, the printer, that they undo each other, and what is accepted or refused besides |
| `Wire`, `S2s`, `WireForms`, `Relays` | the line builder, the server-to-server messages, their documented lines, relaying |
| `Topology`, `Flood`, `Origins` | flooding of state changes over a tree of servers, and origin enforcement when peers send anything |
| `Ts6` | the TS6 bridge: identifier aliases and mode arguments |
| `Persist`, `History`, `HistoryLog`, `Restarts`, `Renames`, `MsgIds`, `Minting`, `Queries` | message history: rings, operation queue, table, restarts and crashes, ids, paging |
| `Mask` | glob masks |
| `Scram`, `Sasl` | AUTHENTICATE, with SCRAM-SHA-256 over uninterpreted primitives |
| `Kv`, `Actions` | the plugin key-value store and the plugin action budget |
| `Caps`, `Deliver` | per-recipient rendering and its cache |
| `Session`, `Labels`, `Batches` | labeled responses |
| `Codec`, `Bucket` | line framing and the inbound rate limit |

Conventions:

- Octets are `char`s, so protocol text can be written as string literals; a code above 255 is simply no
  octet of any UTF-8 sequence. Only in `Mask` is a `char` a character.
- Code that computes a value is a function. Code that loops or updates fields is a method or a class,
  proved equal to a function; the lemmas are about that function. The main functions also have a lemma
  that says what they do in literals or by another definition (`WireForms.LineIsAsDocumented`,
  `Ts6.FlagEffect`, `Deliver.EventTags`, `Scram.Proves`, `Sasl.Vouched`, `Origins.Enforced`).
- What the program gets from outside (clock readings, random nonces, the order in which a hash map is
  visited, whether a write succeeds, the account database, cryptography, base64) is a parameter. Where
  a statement needs something of base64 or HMAC, a predicate `Sound` says what, and `Codes` shows that it
  can be met.

Where the obvious statement is too strong for the code, the code is kept, a lemma names an input that
shows it, and another says exactly when the statement holds:

- A label that needs tag escaping is written unescaped by `end_label` (`crates/ferrixd/src/session.rs:186`). A client
  that sends `label=a\:b` is answered with another label: `Session.EscapedLabelIsRead`,
  `Session.EscapedLabelIsLost`. A label reads back exactly when it needed no escaping and fits:
  `Session.LabelIsReadIffPlain`.
- A literal `*` in the matched text is taken by the equality branch before the star branch
  (`crates/ferrixd/src/mask.rs:21-27`): `Mask.StarIsMisread`. The matcher is right for every mask exactly on texts
  without one: `Mask.MatcherIsRightIff`.
- The codec counts a final `CR` only while the line waits for its `LF`, so chunking can matter:
  `Codec.ChunkingCanMatter`, `Codec.OpenHoweverCutIff`.
- Re-serialising a link message (`crates/ferrixd/src/link.rs:302-305`) can change it: `S2s.RelayLosesSpacedNick`. A message
  comes through every number of relays exactly when its line fits and either its fields are legal, or it
  is a redaction or rename without a reason whose last middle field is empty or copies of ` :` (the
  parser then takes the line's own colon for the field): `Relays.ReadsBackIffFaithful`,
  `Relays.TravelsIffFaithful`, `Relays.IllegalYetFaithful`.
- The comment on SMODE calls the timestamp unambiguous (`crates/ferrixd/src/s2s.rs:652-653`), but `u64` parsing takes a
  leading `+`: `S2s.SmodeReadsPlusDigits`, `S2s.SmodeWithoutTs`.
- Renaming a history target onto one that is in use: `History.RenameOntoUsedTarget`,
  `Renames.RenameFollowsIff`.
- The comment in `load` says that ids of other servers fail to parse (`crates/ferrixd/src/persist.rs:124-125`); they do
  parse. Loaded ids never come up again (`MsgIds.MintedAfterLoadIsNew`), ids that were not loaded may
  (`MsgIds.UnloadedIdsCanRepeat`, `MsgIds.RepeatsIffNotBelowSeed`). A start is safe exactly when the ids of
  ours in the table have counters below the seed: `Minting.SafeStartIff`.
- `between` with two instants drops the first message at or after the lower one, whatever its time
  (`crates/ferrixd/src/history.rs:398-408`): `Queries.BetweenDropsFirst`, `Queries.BetweenInstants`.
- The plugin action window is fixed, not sliding, so "at most 120 in a minute" is too strong: 240 actions
  can pass around its end (`Actions.DoubleBurst`), never more (`Actions.AtMost240`). A span keeps to 120
  exactly when it meets one window that can still grant anything: `Actions.AtMost120Iff`.
- A TS6 uid from elsewhere can coincide with an alias of ours: `Ts6.ForeignUidCanClash`; mode arguments
  return exactly when none does: `Ts6.ThereAndBack`.

One comment disagrees with its code without more behind it: `strip_line_terminators` is said to strip a
single CR and LF (`crates/ferrix-protocol/src/parser.rs:159`); it strips every trailing one, and so does the model
(`Parser.StripsEveryTerminator`).

## Model

| member | source | states |
|---|---|---|
| `Tags.UnescapeEscape` | crates/ferrix-protocol/src/tags.rs:26-77 | unescaping an escaped value gives the value, for every value |
| `Tags.EscapeIsWireSafe` | crates/ferrix-protocol/src/tags.rs:57-77 | an escaped value holds none of the octets that would end a tag, a tag section or a line |
| `Tags.EscapeUnescapeNoLonger` | crates/ferrix-protocol/src/tags.rs:26-77 | re-escaping what was unescaped is never longer than the raw value |
| `Tags.EscapeIsUtf8` | crates/ferrix-protocol/src/tags.rs:57-77 | escaping keeps UTF-8 |
| `Tags.UnescapeIsUtf8` | crates/ferrix-protocol/src/tags.rs:26-51 | unescaping keeps UTF-8, also when a backslash stands before a multi-octet character or at the end |
| `Tags.UnescapeValue` | crates/ferrix-protocol/src/tags.rs:26-51 | the character loop and its borrowed shortcut compute `Unescape` |
| `Tags.EscapeValue` | crates/ferrix-protocol/src/tags.rs:57-77 | the character loop and its borrowed shortcut compute `Escape` |
| `Tags.EscapeTable` | crates/ferrix-protocol/src/tags.rs:57-77 | what each character is written as, in literals |
| `Tags.UnescapeTable` | crates/ferrix-protocol/src/tags.rs:26-51 | what each pair is read as, in literals: an unknown escape keeps its character, a final backslash is dropped |
| `Utf8.ValidIffEncoded` | crates/ferrix-protocol/src/parser.rs:184-186 | a field counts as UTF-8 if and only if it is the encoding of some sequence of scalar values (section 3 of RFC 3629) |
| `Numbers.ParseU64Iff` | crates/ferrixd/src/s2s.rs:603-603 | `parse::<u64>` and `from_str_radix` give n if and only if the text is a possible plus sign and digits of value n within 64 bits |
| `Parser.ParseLine` | crates/ferrix-protocol/src/parser.rs:73-157 | the stepwise parser agrees with `Parse` on every input and limits, errors included |
| `Parser.StripLineTerminators` | crates/ferrix-protocol/src/parser.rs:160-169 | the loop removes exactly the trailing CRs and LFs |
| `Parser.StripsEveryTerminator` | crates/ferrix-protocol/src/parser.rs:159-169 | two line ends are stripped like one, against the comment |
| `Parser.SkipSpaceRun` | crates/ferrix-protocol/src/parser.rs:172-181 | the loop removes exactly the leading spaces |
| `Parser.ParseTagSection` | crates/ferrix-protocol/src/parser.rs:231-253 | the tag loop, which skips empty tags and stops at the first error |
| `Parser.ParseParamList` | crates/ferrix-protocol/src/parser.rs:133-149 | the parameter loop, with the trailing parameter |
| `Parser.ParsedIsWellFormed` | crates/ferrix-protocol/src/parser.rs:73-157 | every message `parse` returns has tag keys, source parts and middle parameters free of their delimiters; only the last parameter may be empty, spaced or colon-led; all text is UTF-8 |
| `Parser.ParsedTagIsValid` | crates/ferrix-protocol/src/parser.rs:231-269 | an accepted tag has a legal key and a UTF-8 value without NUL |
| `Parser.ParsedSourceIsValid` | crates/ferrix-protocol/src/parser.rs:210-229 | an accepted source has a non-empty name free of `!`, `@` and spaces, and parts that split again at the same places |
| `Grammar.TagKeyGrammar` | crates/ferrix-protocol/src/parser.rs:255-269 | a tag key is accepted if and only if it is a possible `+` and letters, digits, `-`, `/`, `.`; which error it is otherwise |
| `Grammar.CommandGrammar` | crates/ferrix-protocol/src/parser.rs:188-208 | a command is letters, kept as they are, or three digits, read as their number; which error it is otherwise |
| `Grammar.ControlsAreRefused` | crates/ferrix-protocol/src/parser.rs:79-86 | NUL, CR or LF inside a line refuses it, whatever else is in it |
| `Grammar.EmptyTagIsSkipped` | crates/ferrix-protocol/src/parser.rs:236-240 | a stray `;` makes no difference |
| `Grammar.SpacesAreSkipped` | crates/ferrix-protocol/src/parser.rs:172-181 | any run of spaces counts like none where spaces are skipped |
| `Grammar.ColonIsFree` | crates/ferrix-protocol/src/parser.rs:140-145 | a last parameter may be marked by a colon whether it needs it or not |
| `Grammar.NamelessIsRefused` | crates/ferrix-protocol/src/parser.rs:210-223 | a source without a name is `EmptySource` |
| `Grammar.SourceParts` | crates/ferrix-protocol/src/parser.rs:210-229 | a source is cut at the first `@` and the first `!` before it; the first part that is not UTF-8 names the error |
| `Grammar.BadTagIsRefused` | crates/ferrix-protocol/src/parser.rs:231-253 | the first tag with a bad key or value decides the error, whatever follows |
| `Grammar.BadParamIsRefused` | crates/ferrix-protocol/src/parser.rs:146-148 | a middle parameter that is not UTF-8 names the error, whatever follows |
| `Grammar.BadTrailingIsRefused` | crates/ferrix-protocol/src/parser.rs:140-145 | so does a trailing one |
| `Grammar.TagsAreRefused` | crates/ferrix-protocol/src/parser.rs:88-103 | a tag section beyond its budget, or with nothing after it but spaces |
| `Grammar.BodyIsRefused` | crates/ferrix-protocol/src/parser.rs:107-126 | a body beyond its budget, a source with nothing after it, an empty or bad source |
| `Grammar.CommandIsRefused` | crates/ferrix-protocol/src/parser.rs:128-149 | the command is judged before the parameters |
| `Encode.ParseRender` | crates/ferrix-protocol/src/encode.rs:23-77 | a well-formed message comes back from its rendering if and only if both sections fit their budgets |
| `Encode.ParsedFits` | crates/ferrix-protocol/src/parser.rs:73-157 | what was parsed under a pair of budgets renders within the same two budgets: neither section gets longer |
| `Encode.RenderInvertsParse` | crates/ferrix-protocol/src/encode.rs:1-22 | for every input and limits: an accepted line renders to a line that parses to the same message under the same limits |
| `Encode.ParseRange` | crates/ferrix-protocol/src/parser.rs:73-157 | the messages `parse` can return are exactly the well-formed ones that fit |
| `Encode.ParseRenderCommand` | crates/ferrix-protocol/src/encode.rs:53-60 | commands, numerics padded to three digits included, are read back |
| `Encode.ParseRenderParams` | crates/ferrix-protocol/src/encode.rs:62-74 | the parameters, with the colon rule for the last, are read back |
| `Encode.RenderInto` | crates/ferrix-protocol/src/encode.rs:23-77 | the appending printer leaves the prefix and adds the rendering |
| `Encode.AppendTags` | crates/ferrix-protocol/src/encode.rs:24-37 | the loop over the tags appends the whole tag section |
| `Encode.AppendParams` | crates/ferrix-protocol/src/encode.rs:62-74 | the loop over the parameters appends them with the colon rule |
| `Wire.Line.constructor` | crates/ferrixd/src/wire.rs:49-53 | a bare line starts empty |
| `Wire.Line.Command` | crates/ferrixd/src/wire.rs:57-60 | the command is appended |
| `Wire.Line.Param` | crates/ferrixd/src/wire.rs:71-75 | a space and the parameter are appended |
| `Wire.Line.Trailing` | crates/ferrixd/src/wire.rs:79-83 | a space, a colon and the parameter are appended |
| `Wire.Line.Build` | crates/ferrixd/src/wire.rs:87-90 | the buffer with CR LF |
| `Wire.BuildLine` | crates/ferrixd/src/wire.rs:49-90 | the builder used as every `to_line` uses it gives the line of verb, middle fields and trailing field |
| `Wire.ReadsBackIffLegal` | crates/ferrixd/src/wire.rs:71-90 | a built line parses to the fields it was built from if and only if the middle fields are tokens, the trailing one is text, and the line fits |
| `S2s.DecodeFields` | crates/ferrixd/src/s2s.rs:558-763 | for each of the thirty variants: decoding the fields that are written gives the message |
| `S2s.VerbRoundTrip` | crates/ferrixd/src/s2s.rs:579-590 | every verb is found again from its name, in upper case |
| `WireForms.LineIsAsDocumented` | crates/ferrixd/src/s2s.rs:282-553 | every variant is written as its documentation shows it: verb, fields in this order, single spaces, a colon before the last where there is one, CR LF |
| `WireForms.VerbInAnyCase` | crates/ferrixd/src/s2s.rs:579-585 | a verb is recognised in any mixture of cases |
| `WireForms.ReadIffEnough` | crates/ferrixd/src/s2s.rs:579-763 | a line of a known verb is decoded if and only if it has at least the parameters the verb needs and its mandatory numbers are numbers |
| `WireForms.ExtrasAreIgnored` | crates/ferrixd/src/s2s.rs:579-763 | parameters beyond those a verb looks at change nothing |
| `WireForms.OptionalParts` | crates/ferrixd/src/s2s.rs:678-751 | an absent reason is empty, an absent away reason is none, and only `+` adds a ban |
| `WireForms.SixIsSeven` | crates/ferrixd/src/s2s.rs:558-575 | six parameters decode like seven with absent tags, for every id and time |
| `WireForms.FourIsSeven` | crates/ferrixd/src/s2s.rs:558-575 | four decode like seven with id, time and tags absent |
| `WireForms.NoticeLetter` | crates/ferrixd/src/s2s.rs:621-632 | `N` in either case marks a notice, anything else a message |
| `WireForms.JoinDefaults` | crates/ferrixd/src/s2s.rs:633-643 | SJOIN without status, without a timestamp, or with one that is no number |
| `S2s.FromLineToLine` | crates/ferrixd/src/s2s.rs:282-553 | a legal message of any variant whose line fits the body budget is read off its line: the direction of `Relays.ReadsBackIffFaithful` that every sender relies on |
| `S2s.HopsKeepFrame` | crates/ferrixd/src/link.rs:295-305 | any number of servers that parse and re-serialise a legal frame leave its octets unchanged |
| `S2s.RelayLosesSpacedNick` | crates/ferrixd/src/link.rs:302-305 | a frame with a spaced nick in its trailing field is not what the second hop sends on |
| `Relays.ReadsBackIffFaithful` | crates/ferrixd/src/s2s.rs:282-763 | `from_message(parse(to_line(m))) = m` if and only if the line fits and m is legal, or a redaction or rename with an empty reason, tokens before, and a last middle field made of copies of ` :` |
| `Relays.TravelsIffFaithful` | crates/ferrixd/src/link.rs:295-305 | every server after any number of relays reads m if and only if that condition holds |
| `Relays.IllegalYetFaithful` | crates/ferrixd/src/s2s.rs:558-763 | the exception is not empty, nor only the empty field |
| `Relays.DecodedIsSorted` | crates/ferrixd/src/s2s.rs:579-763 | whatever parsed parameters decode to has text fields, numbers in range, and tokens in all middle fields but perhaps the last one read |
| `Relays.StuckEchoes` | crates/ferrix-protocol/src/parser.rs:133-149 | a middle field that is no token comes back only if the rest of the line is spaces, a colon and the field again |
| `S2s.MessageFormsAgree` | crates/ferrixd/src/s2s.rs:558-575 | the four-, six- and seven-parameter forms of SMSG and SCMSG decode alike when the extra fields are absent |
| `S2s.SmodeWithoutTs` | crates/ferrixd/src/s2s.rs:651-671 | an SMODE without a timestamp is read as such if and only if its flags do not parse as a number |
| `S2s.SmodeReadsPlusDigits` | crates/ferrixd/src/s2s.rs:651-671 | the input for which it is not |
| `Flood.InitialInvariant` | crates/ferrixd/src/link.rs:295-305 | the network before the first change satisfies the flooding invariant |
| `Flood.IssueKeeps` | crates/ferrixd/src/state.rs:1607-1611 | a server that applies its own change and sends it down every link keeps the invariant |
| `Flood.DeliverKeeps` | crates/ferrixd/src/link.rs:317-344 | receiving an honest frame (authorise, apply, forward to every other link) keeps the invariant; the frame is accepted. Which frames are refused is in `Origins.OriginsAreEnforced` |
| `Flood.ReachableInvariant` | crates/ferrixd/src/state.rs:1613-1623 | the invariant holds in every state of every schedule on every tree |
| `Flood.AppliedOnceInOrder` | crates/ferrixd/src/link.rs:302-305 | each server applies a change at most once, and the changes of one origin as a prefix of the order they were issued in |
| `Flood.CrossesOnceOutward` | crates/ferrixd/src/state.rs:1613-1623 | a frame is only ever on links that lead away from its origin, crosses each at most once and never comes back |
| `Flood.QuiescentIsComplete` | crates/ferrixd/src/link.rs:302-305 | when nothing is on the way, every server has applied every change, received over its one link towards the origin |
| `Flood.NothingIsRejected` | crates/ferrixd/src/state.rs:1188-1214 | the first-announcer-wins route table and the uid check never reject an honest frame; that they reject every other one is `Origins.OriginsAreEnforced` |
| `Flood.DeliverySettles` | crates/ferrixd/src/link.rs:416-429 | every delivery strictly shrinks the set of (server, change) pairs still to be applied, so deliveries run out |
| `Origins.OriginsAreEnforced` | crates/ferrixd/src/link.rs:316-385 | on every network, in every run in which peers put any frames at all on their links: what a server applied off links is never of its own origin and, for each origin, came over the one link that announced it first; a change off a link is applied if and only if its user was introduced, with effect, over that same link; a user announced under another server's SID is never applied |
| `Origins.RunInvariant` | crates/ferrixd/src/state.rs:1188-1214 | in every such run routes, users and applied frames are what the server's log of arrivals tells |
| `Origins.JudgedIsEnforced` | crates/ferrixd/src/state.rs:1188-1214 | a log whose entries were judged one by one, by what came before, has those properties as a whole |
| `Origins.ForwardedIffApplied` | crates/ferrixd/src/link.rs:316-381 | a frame is sent on, over every link but its own, if and only if it was applied |
| `Topology.OneServerIsTree` | crates/ferrixd/src/state.rs:1613-1616 | a server alone is a tree |
| `Topology.LinkKeepsTree` | crates/ferrixd/src/state.rs:1613-1616 | linking a server that was not in the tree keeps it a tree, so every network linked up without a cycle is covered |
| `Topology.HopIsNearer` | crates/ferrixd/src/state.rs:1613-1617 | on a tree the neighbour towards an origin is one step nearer to it |
| `Topology.HopOfNeighbour` | crates/ferrixd/src/state.rs:1613-1617 | every other neighbour has this server as its neighbour towards the origin |
| `Ts6.EncodeIdInto` | crates/ferrixd/src/ts6.rs:103-113 | the buffer filled from its last slot holds the six-character suffix |
| `Ts6.CapacityIsExact` | crates/ferrixd/src/ts6.rs:103-113 | the first n suffixes are pairwise different if and only if n is at most 26 times 36 to the fifth |
| `Ts6.ValidUidIff` | crates/ferrixd/src/ts6.rs:39-57 | the ids that pass unchanged: a digit, then eight capitals or digits |
| `Ts6.FirstSuffixes` | crates/ferrixd/src/ts6.rs:103-113 | the first suffixes in literals: letters before digits, the last place counting fastest |
| `Ts6.UidMapper.constructor` | crates/ferrixd/src/ts6.rs:64-69 | a new mapper knows no alias |
| `Ts6.UidMapper.Translate` | crates/ferrixd/src/ts6.rs:75-88 | answer, maps and counter after one request |
| `Ts6.ToTs6Keeps` | crates/ferrixd/src/ts6.rs:75-88 | every request within the capacity keeps the two maps inverse and numbered by allocation |
| `Ts6.KnownIsInverse` | crates/ferrixd/src/ts6.rs:93-98 | an answer is a TS6 uid under the same SID and leads back to the uid, six-digit ids that pass through included |
| `Ts6.AliasesAreFaithful` | crates/ferrixd/src/ts6.rs:50-113 | over every sequence of requests within the capacity: answers are TS6 uids under the same SID, equal exactly for equal uids, and inverted by `to_ferrix` at the end |
| `Ts6.DecimalIsNative` | crates/ferrixd/src/ts6.rs:59-63 | uids of the form SID and decimal id are among those the statement covers |
| `Ts6.ForeignUidCanClash` | crates/ferrixd/src/ts6.rs:93-98 | a foreign uid equal to one of our aliases is taken for our user |
| `Ts6.TranslateFlag` | crates/ferrixd/src/ts6.rs:524-562 | what one mode flag reads, writes and allocates; the table is `Ts6.FlagEffect` |
| `Ts6.TranslateModeArgs` | crates/ferrixd/src/ts6.rs:515-573 | the loop over the flags, in both directions, with the mapper allocating meanwhile; the effect on lists is `Ts6.ListEffect` |
| `Ts6.TranslatedArity` | crates/ferrixd/src/ts6.rs:515-566 | a list with the arity of one dialect is translated to one with the arity of the other |
| `Ts6.FlagEffect` | crates/ferrixd/src/ts6.rs:524-562 | what every flag reads and writes, over literal characters: `o`, `v`, `b`, `e`, `I`, and `k`, `l` when adding, one argument, unchanged but for members; `-k` writes `*` towards TS6 and reads one from it; all others nothing |
| `Ts6.FlagAlone` | crates/ferrixd/src/ts6.rs:524-562 | the same when the arguments have run out |
| `Ts6.ListEffect` | crates/ferrixd/src/ts6.rs:515-566 | over whole flag strings: how many arguments are written and, for every position, that the argument of its flag stands in its place, members as the mapper answers in the end and all others as they were; counted over literal characters |
| `Ts6.ArityIsCount` | crates/ferrixd/src/ts6.rs:524-562 | the arities of the other statements are these counts |
| `Ts6.ThereAndBack` | crates/ferrixd/src/ts6.rs:571-573 | a list of ferrix arity, sent to TS6 and read back through any later state of the mapper, returns if and only if no member argument is a TS6 uid that is then one of our aliases |
| `Ts6.ModesReturn` | crates/ferrixd/src/ts6.rs:826-826 | so it always returns for the uids this server makes, within the capacity |
| `Ts6.BackAndThere` | crates/ferrixd/src/ts6.rs:515-573 | a list of TS6 arity comes back, with the mapper unchanged, if and only if removed keys are `*` and no member argument has a SID without being a TS6 uid |
| `Persist.BatchingIsTransparent` | crates/ferrixd/src/persist.rs:139-196 | any split of the queue into batches leaves the table that one operation at a time leaves |
| `Persist.BarriersAreSilent` | crates/ferrixd/src/persist.rs:161-196 | barriers leave no trace in the table |
| `Persist.IdsCountStores` | crates/ferrixd/src/persist.rs:161-175 | row ids go up by one with every stored message and with nothing else |
| `Persist.Writer.WriteBatch` | crates/ferrixd/src/persist.rs:161-196 | one committed batch executes its operations in order |
| `Persist.Writer.AckBarriers` | crates/ferrixd/src/persist.rs:153-157 | exactly the barriers of the batch are acknowledged, in order |
| `Persist.Writer.Drain` | crates/ferrixd/src/persist.rs:139-159 | the whole queue reaches the table, every barrier is acknowledged once and in order, and only when the table holds every operation queued before it |
| `History.StepKeeps` | crates/ferrixd/src/history.rs:205-304 | record, redact, rename to an unused target, forget and background writes keep: every ring is a suffix of its target's rows in the settled table, caps hold, ids are distinct |
| `History.RunKeeps` | crates/ferrixd/src/history.rs:205-304 | the same over every run between two starts |
| `Restarts.EveryRunIsConsistent` | crates/ferrixd/src/history.rs:205-304 | from an empty database, over every run that also contains partial writes, crashes with a lost queue, pruning, load limits and changed caps: rings are suffixes of the settled rows, caps hold, ids are distinct per target, rows are in id order |
| `Restarts.RestartKeeps` | crates/ferrixd/src/persist.rs:62-137 | a stop at any moment, whatever of the queue was written, followed by any start keeps the invariant |
| `Restarts.LoadedAreNewest` | crates/ferrixd/src/persist.rs:101-105 | the rows a start reads have larger ids than all it does not read |
| `History.PushFollows` | crates/ferrixd/src/history.rs:260-277 | a recorded message keeps every ring a suffix of its rows, whatever is evicted |
| `History.PushBounded` | crates/ferrixd/src/history.rs:260-297 | both caps hold after a push, eviction included |
| `History.PushedRing` | crates/ferrixd/src/history.rs:260-277 | the pushed ring: the new message last, before it the newest of the old ones, as many as the cap allows |
| `History.PushedOthers` | crates/ferrixd/src/history.rs:260-277 | other rings stay as they are unless evicted, which takes a new target and a full log |
| `History.PushedCount` | crates/ferrixd/src/history.rs:281-297 | an eviction drops one ring in thirty-two of the cap, at least one |
| `History.RedactedIsWithout` | crates/ferrixd/src/history.rs:228-244 | a redaction takes out the message with the id and nothing else |
| `History.RenamedRings` | crates/ferrixd/src/history.rs:248-258 | a rename moves one ring and leaves all others alone |
| `History.RedactFollows` | crates/ferrixd/src/history.rs:228-244 | removing a message from ring and table keeps the ring a suffix |
| `History.RenameFollows` | crates/ferrixd/src/history.rs:248-258 | renaming to an unused target keeps every ring a suffix |
| `History.EvictionIsFair` | crates/ferrixd/src/history.rs:281-297 | pushing with a batch of oldest rings drops none whose newest message is later than that of a ring it keeps, and leaves the kept rings alone |
| `History.RenameOntoUsedTarget` | crates/ferrixd/src/history.rs:248-258 | renaming onto a target with a newer row leaves a ring that is no suffix |
| `Renames.RenameFollowsIff` | crates/ferrixd/src/history.rs:248-258 | a rename onto any other target keeps the rings in step if and only if the ring that stays holds the newest rows of the two |
| `HistoryLog.Rings.constructor` | crates/ferrixd/src/history.rs:157-166 | an empty log whose limits are at least one |
| `HistoryLog.Rings.EvictOldest` | crates/ferrixd/src/history.rs:281-297 | the fairness result: what is dropped is a batch of the size the source computes, and no dropped ring has a later newest message than any ring that survives |
| `HistoryLog.Rings.PushMessage` | crates/ferrixd/src/history.rs:260-277 | evicts only for a new target at the cap, appends, trims from the front; no ring that went has a later newest message than one that stayed |
| `HistoryLog.Rings.RecordMessage` | crates/ferrixd/src/history.rs:211-216 | the ring and the queue take the same step |
| `HistoryLog.Rings.RedactMessage` | crates/ferrixd/src/history.rs:228-244 | removes the message and queues the deletion, or does nothing |
| `HistoryLog.Rings.Rename` | crates/ferrixd/src/history.rs:248-258 | moves the ring and queues the rename |
| `HistoryLog.Rings.ForgetTarget` | crates/ferrixd/src/history.rs:302-304 | drops the ring and nothing else |
| `HistoryLog.Rings.LoadRows` | crates/ferrixd/src/history.rs:205-207 | the startup loop pushes each row in turn; the rings are suffixes within the caps, and the whole of each target when the caps cover the rows |
| `HistoryLog.RestartKeepsRings` | crates/ferrixd/src/persist.rs:101-137 | after a drained shutdown and a reload with room for all, every ring held before is a suffix of the reloaded one |
| `HistoryLog.RestartIsConsistent` | crates/ferrixd/src/persist.rs:62-99 | whatever the prune and the load limit cut off, the reloaded state satisfies the invariant again |
| `HistoryLog.PrunedIff` | crates/ferrixd/src/persist.rs:82-88 | the pruning keeps exactly the rows among the last hundred thousand ids |
| `HistoryLog.LoadedCount` | crates/ferrixd/src/persist.rs:101-105 | of those a start reads the limit, or all when there are fewer |
| `MsgIds.NextId` | crates/ferrixd/src/persist.rs:120-136 | the counter loop gives one more than the largest loaded counter |
| `MsgIds.CounterOfMinted` | crates/ferrixd/src/history.rs:196-202 | the hex counter of a minted id is read back by the loader |
| `MsgIds.MintedOnce` | crates/ferrixd/src/history.rs:196-202 | different counters give different ids |
| `MsgIds.MintedWidth` | crates/ferrixd/src/history.rs:196-202 | a minted id is the prefix and sixteen hex digits of the counter |
| `MsgIds.MintedAfterLoadIsNew` | crates/ferrixd/src/persist.rs:120-136 | no id minted after a load is the id of a loaded message, of any server |
| `MsgIds.UnloadedIdsCanRepeat` | crates/ferrixd/src/persist.rs:101-105 | an own id outside the load limit can be minted again |
| `MsgIds.RepeatsIffNotBelowSeed` | crates/ferrixd/src/history.rs:191-202 | it is minted again if and only if its counter is not below the seed |
| `Minting.MintedIsAllowed` | crates/ferrixd/src/history.rs:196-216 | in a state where no id yet to be minted is in the table or the queue, recording a minted message meets what the run theorem asks of it |
| `Minting.SafeStartIff` | crates/ferrixd/src/persist.rs:120-136 | a start leaves no id to be minted in the table if and only if every id of ours in it has a counter below the seed |
| `Minting.WholeLoadIsSafe` | crates/ferrixd/src/persist.rs:101-137 | that is so whenever the load limit reaches the whole table |
| `Minting.MintingRunIsConsistent` | crates/ferrixd/src/history.rs:191-216 | over every run with own messages, other steps, crashes and safe starts: ids of own messages are new to every target, and rings, caps and distinct ids hold as in `Restarts.EveryRunIsConsistent` |
| `Queries.SnapshotIsDistinct` | crates/ferrixd/src/history.rs:315-325 | what a requester may see of a ring still has distinct ids |
| `Queries.SnapshotOne` | crates/ferrixd/src/history.rs:315-325 | a message or notice is always shown, an event exactly when events are asked for |
| `Queries.SnapshotConcat` | crates/ferrixd/src/history.rs:315-325 | what is shown of a ring is what is shown of its parts, in order |
| `Queries.PagingBackIsComplete` | crates/ferrixd/src/history.rs:343-353 | asking for the page before the oldest message seen, until none is left, visits everything before the start once and in order |
| `Queries.PagingBackEnds` | crates/ferrixd/src/history.rs:343-353 | and that does end |
| `Queries.PagingForwardIsComplete` | crates/ferrixd/src/history.rs:357-367 | the same towards the newest |
| `Queries.PagingForwardEnds` | crates/ferrixd/src/history.rs:357-367 | and that does end too |
| `Queries.RingIsPaged` | crates/ferrixd/src/history.rs:462-482 | the newest page and those before it are the whole ring |
| `Queries.AroundHasItsPoint` | crates/ferrixd/src/history.rs:371-386 | at most the limit, consecutive, and the message asked for is among them |
| `Queries.AroundIsCentred` | crates/ferrixd/src/history.rs:371-386 | it is in the middle: half the limit before it, as far as the ring goes |
| `Queries.ResolvedIffMeant` | crates/ferrixd/src/history.rs:445-452 | a selector means the newest message, the first not before an instant, or the one with the id |
| `Queries.AroundIsSlice` | crates/ferrixd/src/history.rs:371-386 | around any selector: the slice centred on what it means |
| `Queries.BetweenIsInside` | crates/ferrixd/src/history.rs:390-409 | between any two selectors, in either order: the first messages strictly inside the positions they mean |
| `Queries.NothingMeant` | crates/ferrixd/src/history.rs:343-409 | a message id that is not there gives an empty answer to every query |
| `Queries.BeforeInstant` | crates/ferrixd/src/history.rs:343-353 | before an instant that parts the ring: the newest of the messages earlier than it |
| `Queries.AfterInstant` | crates/ferrixd/src/history.rs:357-367 | after one: the first of the messages later than it |
| `Queries.BetweenMessages` | crates/ferrixd/src/history.rs:390-409 | between two message ids, in either order: the first ones strictly inside |
| `Queries.BetweenInstants` | crates/ferrixd/src/history.rs:390-409 | for every limit: between two instants the answer is the first messages strictly inside if and only if the limit is zero, or exactly one message carries the lower instant, or nothing is inside and nothing would be dropped |
| `Queries.BetweenInstantsUnlimited` | crates/ferrixd/src/history.rs:390-409 | the same for a limit as large as the ring, repeated ids allowed |
| `Queries.BetweenDropsFirst` | crates/ferrixd/src/history.rs:403-408 | messages at 5 and 6, asked for from 4 to 7, with any limit: only the second comes |
| `Mask.Matches` | crates/ferrixd/src/mask.rs:13-41 | the backtracking loop computes `Result` in at most (p + 1)(t + 1) iterations |
| `Mask.MatchIsGlob` | crates/ferrixd/src/mask.rs:13-41 | a reported match is a match by the meaning of the mask (section 2.5 of RFC 2812, without escapes) |
| `Mask.MatchDecidesGlob` | crates/ferrixd/src/mask.rs:13-41 | on a text without `*` the matcher decides that meaning |
| `Mask.StarIsMisread` | crates/ferrixd/src/mask.rs:21-27 | the mask `*` does not match the text `*a` |
| `Mask.MatcherIsRightIff` | crates/ferrixd/src/mask.rs:21-27 | it decides it for every mask if and only if the text has no `*` |
| `Mask.TakesIff` | crates/ferrixd/src/mask.rs:43-45 | one pattern character takes one text character: `?` any, a letter itself in either ASCII case, anything else itself |
| `Scram.PickFields` | crates/ferrixd/src/scram.rs:154-162 | the loop over the comma-separated fields keeps the last of each of two keys |
| `Scram.HonestStart` | crates/ferrixd/src/scram.rs:148-181 | a client's first message starts an exchange for the account the user name resolves to |
| `Scram.HonestFinish` | crates/ferrixd/src/scram.rs:186-219 | the client of section 3 of RFC 5802, written out on its own, that knows the password is accepted, and the server's last message is the one it expects |
| `Scram.StartIff` | crates/ferrixd/src/scram.rs:148-181 | an exchange starts if and only if the text behind the header names a known user and a nonce; it then holds that user's credentials, the joined nonce and the server's first message, in literals |
| `Scram.BareIff` | crates/ferrixd/src/scram.rs:148-153 | what follows the second comma is the bare message |
| `Scram.FinishIffProves` | crates/ferrixd/src/scram.rs:186-219 | a final message is accepted if and only if its last `r` is the exchange's nonce and its last `p` decodes to the mixing of the signature with a 32-octet key whose digest is the stored key |
| `Scram.FinishAnswers` | crates/ferrixd/src/scram.rs:204-218 | the answer signs the same three messages with the server key |
| `Scram.MixedBit` | crates/ferrixd/src/scram.rs:209-213 | mixing is exclusive or, bit by bit |
| `Scram.MixedTwice` | crates/ferrixd/src/scram.rs:209-213 | mixing the signature into the proof undoes the client's mixing |
| `Sasl.DecodePlainIff` | crates/ferrixd/src/sasl.rs:116-129 | a payload decodes to credentials if and only if it is their three NUL-free UTF-8 fields |
| `Sasl.SaslSession.constructor` | crates/ferrixd/src/sasl.rs:57-68 | a new session is idle |
| `Sasl.SaslSession.Clear` | crates/ferrixd/src/sasl.rs:83-87 | a reset leaves no mechanism, phase or buffer |
| `Sasl.SaslSession.Push` | crates/ferrixd/src/sasl.rs:91-109 | one data line: overflow, continuation, completion |
| `Sasl.Session.CmdAuthenticate` | crates/ferrixd/src/command.rs:948-1000 | state and replies after one AUTHENTICATE line |
| `Sasl.Session.Finish` | crates/ferrixd/src/command.rs:1002-1023 | state and replies when a PLAIN or EXTERNAL payload is complete |
| `Sasl.Session.Step` | crates/ferrixd/src/command.rs:1026-1078 | state and replies when a SCRAM message is complete; what lets it pass is `Scram.FinishIffProves` |
| `Sasl.Session.Succeed` | crates/ferrixd/src/command.rs:1081-1098 | the account is set and announced to the client |
| `Sasl.AuthenticateKeeps` | crates/ferrixd/src/command.rs:948-1078 | each line keeps: the SCRAM phase is non-idle exactly when the mechanism is SCRAM, and the buffer stays within 8192 |
| `Sasl.RunInvariant` | crates/ferrixd/src/command.rs:948-1078 | so in every run the idle arm of the SCRAM step is never taken |
| `Sasl.LoginIffProved` | crates/ferrixd/src/command.rs:1002-1098 | a line logs in if and only if it proves or acknowledges an account; every other line leaves the login alone and says nothing of success |
| `Sasl.VerifiedIffVouched` | crates/ferrixd/src/command.rs:1002-1023 | a PLAIN or EXTERNAL payload is accepted if and only if `verify_password` or `verify_fingerprint` gives the account for what the payload and the connection hold |
| `Sasl.RefusalEnds` | crates/ferrixd/src/command.rs:1002-1078 | a payload that proves nothing, at whatever point, ends the exchange with the failure reply and leaves everything else alone |
| `Sasl.ExchangeEnds` | crates/ferrixd/src/command.rs:963-999 | an abort, a line beyond 8192 octets in all and a payload that does not decode end the exchange, each with its reply |
| `Sasl.FullLineWaits` | crates/ferrixd/src/sasl.rs:91-109 | a line of 400 octets or more is kept and answered with nothing while all of it fits |
| `Sasl.NothingBegins` | crates/ferrixd/src/command.rs:948-985 | who may not authenticate and what names no mechanism is told so, and nothing changes |
| `Sasl.MechanismNames` | crates/ferrixd/src/sasl.rs:32-40 | the three mechanisms, in any case |
| `Sasl.FinalIsBacked` | crates/ferrixd/src/command.rs:1033-1048 | an exchange awaiting its final message was started earlier and not reset since |
| `Sasl.AckIsBacked` | crates/ferrixd/src/command.rs:1055-1068 | an account awaiting acknowledgement had a final message accepted that shows a key for the stored credentials, in an exchange that was not reset since it started for them |
| `Sasl.AccountIsVerified` | crates/ferrixd/src/command.rs:948-1098 | in every run an account changes only to one with that evidence, from this line or from this unreset exchange |
| `Sasl.LoginIsVerified` | crates/ferrixd/src/command.rs:1081-1098 | in every run a line answered with a login, be it to the account already held, leaves that account, and behind it stands the account database's answer to the password or fingerprint, or a key for the credentials the exchange was started with |
| `Sasl.SuccessIsLogin` | crates/ferrixd/src/command.rs:1092-1097 | success is never reported without a login |
| `Sasl.EarlyLoginStays` | crates/ferrixd/src/command.rs:949-961 | before registration, AUTHENTICATE never replaces a login |
| `Sasl.PayloadIsWhole` | crates/ferrixd/src/sasl.rs:91-109 | a payload of at most 8192 octets, a multiple of four, cut into 400-octet lines with a closing `+` when needed, is read as the whole |
| `Sasl.HonestScramLogin` | crates/ferrixd/src/command.rs:1026-1098 | a client that knows the password logs in through a whole SCRAM dialogue, with exactly these replies |
| `Sasl.HonestPlainLogin` | crates/ferrixd/src/command.rs:1002-1023 | the same for PLAIN |
| `Kv.KvStore.constructor` | crates/ferrixd/src/plugin.rs:331-340 | an empty, clean store |
| `Kv.KvStore.Put` | crates/ferrixd/src/plugin.rs:345-372 | table, total, dirty flag and answer after one request |
| `Kv.KvStore.LoadFile` | crates/ferrixd/src/plugin.rs:377-395 | the loop over the lines, which skips what it cannot read |
| `Kv.KvStore.FlushIfDue` | crates/ferrixd/src/plugin.rs:399-434 | what is written, when, and that it is each entry once in some order |
| `Kv.SetMeaning` | crates/ferrixd/src/plugin.rs:345-372 | a request succeeds if and only if it is well formed and the table it asks for is within 256 keys and 65536 octets; then the table is that one, and a refused request changes nothing |
| `Kv.NothingSaturates` | crates/ferrixd/src/plugin.rs:356-361 | in a reachable store no saturating operation saturates: the total is the size of the new table |
| `Kv.LoadIsValid` | crates/ferrixd/src/plugin.rs:374-395 | no file, however made, loads into a store that is out of bounds |
| `Kv.LoadOfFile` | crates/ferrixd/src/plugin.rs:412-418 | written in any iteration order and loaded, the store is what it was |
| `Kv.ReadRowIff` | crates/ferrixd/src/plugin.rs:377-395 | a row is read if and only if it is the code of a UTF-8 key, a space and the code of the value |
| `Kv.RunFromFile` | crates/ferrixd/src/plugin.rs:345-434 | over every run of requests, flushes, failed writes and restarts, from any file: the total is the sum of lengths, all bounds hold, and a store that is not dirty is the one its file would load |
| `Actions.HostState.constructor` | crates/ferrixd/src/plugin.rs:829-831 | the first window starts when the plugin is loaded |
| `Actions.HostState.BeginCall` | crates/ferrixd/src/plugin.rs:1179-1182 | a hook call starts with no actions |
| `Actions.HostState.TakeActionSlot` | crates/ferrixd/src/plugin.rs:479-493 | window, counters and answer |
| `Actions.HostState.Act` | crates/ferrixd/src/plugin.rs:1359-1362 | a granted slot is followed by the queued action, a refused one by nothing |
| `Actions.GrantsPerCall` | crates/ferrixd/src/plugin.rs:480-482 | at most four actions in a hook call |
| `Actions.GrantsPerWindow` | crates/ferrixd/src/plugin.rs:483-492 | at most 120 in a window |
| `Actions.AtMost240` | crates/ferrixd/src/plugin.rs:479-493 | at most 240 in any sixty seconds, whenever the plugin was loaded and after any history |
| `Actions.DoubleBurst` | crates/ferrixd/src/plugin.rs:484-487 | whenever it was loaded, 240 actions within one millisecond can pass, at the end of its first window |
| `Actions.AtMost120Iff` | crates/ferrixd/src/plugin.rs:483-492 | from any valid host: actions asked for between a and b can never exceed 120 if and only if b is still in the current window, or that window is over by a and b less than a minute later, or it is used up and b is before the end of the next; the same when the clock only runs forward |
| `Actions.OverBudget` | crates/ferrixd/src/plugin.rs:484-487 | any other span is filled with more than 120 actions by some run whose clock runs forward |
| `Bucket.TokenBucket.constructor` | crates/ferrixd/src/connection.rs:66-73 | a full bucket, with a rate of at least one |
| `Bucket.TokenBucket.TryConsume` | crates/ferrixd/src/connection.rs:76-86 | tokens, time and answer after one attempt |
| `Bucket.AcceptedInSpan` | crates/ferrixd/src/connection.rs:65-87 | in any span of a run, both ends counted, at most burst plus rate times its length |
| `Bucket.AcceptedIffAffordable` | crates/ferrixd/src/connection.rs:76-86 | an attempt is accepted if and only if accepting it keeps within that bound on every span that ends with it |
| `Bucket.RefillIs` | crates/ferrixd/src/connection.rs:66-80 | tokens come in at the configured rate, at one a second when that is zero |
| `Bucket.SteadyIsAccepted` | crates/ferrixd/src/connection.rs:76-86 | a client that keeps to the rate is never refused |
| `Caps.MaskDecides` | crates/ferrixd/src/cap.rs:179-197 | a capability whose bit is in a mask is decided by the masked bits |
| `Caps.HasInserted` | crates/ferrixd/src/cap.rs:177-186 | inserting a capability adds it and no other |
| `Caps.BitsAreApart` | crates/ferrixd/src/cap.rs:85-89 | no two capabilities share a bit |
| `Deliver.MaskCovers` | crates/ferrixd/src/deliver.rs:111-129 | `variant_mask` covers every capability some part of the event depends on |
| `Deliver.MaskIsExact` | crates/ferrixd/src/deliver.rs:111-129 | and no other: a capability is in the mask if and only if some part of the event depends on it |
| `Deliver.RenderDependsOnMask` | crates/ferrixd/src/deliver.rs:111-189 | recipients who agree on the masked capabilities get the same octets |
| `Deliver.RenderInto` | crates/ferrixd/src/deliver.rs:133-189 | the appending renderer computes `RenderFor` |
| `Deliver.ToChannelFiltered` | crates/ferrixd/src/deliver.rs:225-264 | the cached loop sends what rendering for each eligible member would send, and renders once per capability profile |
| `Deliver.FanoutMeaning` | crates/ferrixd/src/deliver.rs:239-263 | a member is sent a line, its own and only one, if and only if it is not the skipped one, has the required capability if there is one, and for a status message is an op, or has voice where that is enough; nobody else is sent any |
| `Deliver.SkippedGetsNothing` | crates/ferrixd/src/deliver.rs:239-242 | the client to be skipped is sent nothing |
| `Deliver.FanoutConcat` | crates/ferrixd/src/deliver.rs:239-263 | lines go out in the order in which the members are visited |
| `Deliver.CoreIsBareLine` | crates/ferrixd/src/deliver.rs:181-188 | behind the tags: the body, the suffix for those with its capability, CR LF |
| `Deliver.RecipientReads` | crates/ferrixd/src/deliver.rs:133-189 | a recipient parses exactly the tags its capabilities call for, named and ordered as in the literal list `EventTags`, in front of the message of body and suffix |
| `Session.PrependedTagIsRead` | crates/ferrixd/src/session.rs:627-639 | a line with a tag put in front parses to the same message with that tag first if and only if the longer section fits, and otherwise to the size error |
| `Session.LabelIsReadIffPlain` | crates/ferrixd/src/session.rs:179-190 | a label is read back if and only if it needed no escaping and the section fits |
| `Session.EscapedLabelIsRead` | crates/ferrix-protocol/src/tags.rs:26-51 | a client that sends `label=a\:b` has the label `a;b` |
| `Session.EscapedLabelIsLost` | crates/ferrixd/src/session.rs:186-190 | whatever the reply, the client does not read that label back; the first tag it reads is the label `a` |
| `Labels.LabeledSession.BeginLabel` | crates/ferrixd/src/session.rs:163-171 | buffering starts exactly for a labeled command of a capable client |
| `Labels.LabeledSession.EmitLine` | crates/ferrixd/src/session.rs:231-237 | a line is buffered or sent |
| `Labels.LabeledSession.EndLabel` | crates/ferrixd/src/session.rs:179-219 | the buffered replies are framed and sent, and the session is idle again |
| `Labels.LabeledCommand` | crates/ferrixd/src/session.rs:163-219 | from begin to end, a labeled command sends exactly its frame |
| `Labels.RunSendsShares` | crates/ferrixd/src/session.rs:163-237 | over every run of labeled and unlabeled commands, of clients with the capability or without: each command's lines are sent once, in order, framed if and only if the client has the capability and the command's first label has a value |
| `Labels.ValueOfTagIff` | crates/ferrixd/src/session.rs:163-171 | the value taken is that of the first tag with the key |
| `Labels.FrameIsRead` | crates/ferrixd/src/session.rs:187-218 | every line of the frame parses as intended, within the budgets |
| `Labels.ResponseIsFaithful` | crates/ferrixd/src/session.rs:173-219 | the label is on exactly one line, and under the added tags the replies are all there, once and in order, in at most one added batch |
| `Labels.ResponseReadsAsReplies` | crates/ferrixd/src/session.rs:173-219 | the lines that are sent, once parsed: all are readable, the label is the first tag of the first and on no other, and without the added lines and tags they are the replies, once and in order |
| `Batches.RenderIsUtf8` | crates/ferrix-protocol/src/encode.rs:23-77 | every rendered well-formed message is UTF-8 |
| `Batches.OpensBatchIffOpensOne` | crates/ferrixd/src/session.rs:607-623 | on rendered messages `opens_batch` holds if and only if the message is a BATCH whose first parameter, written bare, starts with `+` |
| `Codec.IrcCodec.Next` | crates/ferrixd/src/codec.rs:43-65 | one call: the frame, waiting or failure, and the buffer left |
| `Codec.IrcCodec.Receive` | crates/ferrixd/src/codec.rs:43-65 | one read from the socket takes every frame the buffer holds |
| `Codec.LinesAreTheStream` | crates/ferrixd/src/codec.rs:43-57 | lines, terminators and tail put together are the stream, so nothing is lost or reordered |
| `Codec.FrameIsLine` | crates/ferrixd/src/codec.rs:52-64 | every frame is its line without one final CR if there is one, and the whole line if not |
| `Codec.LineIsDelivered` | crates/ferrixd/src/codec.rs:43-65 | a line within the limit, sent with CR LF, is delivered as it is; with LF alone too, unless it ends in CR |
| `Codec.OneRead` | crates/ferrixd/src/codec.rs:43-65 | a read that leaves the stream open delivers all its lines and keeps its tail |
| `Codec.RunMeaning` | crates/ferrixd/src/codec.rs:43-65 | for every chunking: open if and only if all frames fit and what waits after each chunk fits; while open, the frames are those of the whole stream, the buffer is its tail and within the limit; once closed, a prefix was delivered |
| `Codec.OpenHoweverCutIff` | crates/ferrixd/src/codec.rs:43-65 | no chunking closes the stream if and only if every raw line, a final CR counted, and the tail fit |
| `Codec.ChunkingCanMatter` | crates/ferrixd/src/codec.rs:44-62 | a full-length line with CR LF passes in one read and closes the stream in two |

## Left out

- Sockets, TLS, async tasks, listeners, metrics, command line and configuration: plumbing around the modelled cores.
- Argon2, HMAC, SHA-256, PBKDF2, base64 and the wasm runtime: functions the model takes as given.
- Nick collisions, channel timestamps, KILL, SQUIT and SINVITE, netsplits and bursts: flooding is modelled for changes that are applied and forwarded, on a fixed tree with unbounded FIFO links, so mailbox overflow is not modelled either.
- TS6 line parsing and the other outbound TS6 translations: matches of one case each.
- The history map is modelled with atomic steps; the small overshoot of the ring cap that concurrent pushes may cause is not modelled.
- Failed SQLite transactions: batches commit. After a failed one the source still acknowledges its barriers.
- Column encodings of the table (kind and time as signed integers) and history without persistence attached.
- The u64 counters of message ids and aliases do not wrap in the model.
- Queries.BetweenInstants: takes `partition_point` on a ring sorted by time; on an unsorted ring the source's binary search is not modelled.
- Ts6.UidMapper.Translate: slices octets, so the panic of `valid_uid` on nine octets that cut a character is not modelled.
- Bucket.AcceptedInSpan: over ideal reals; rounding of `f64` is not modelled.
- Persist.Writer.Drain: the queue is what was sent before the writer drains it; barriers are identified by a number instead of a channel.
- Kv.KvStore.FlushIfDue: the rename of the temporary file is one write that succeeds or fails.
- Most of `command.rs` (WHO, WHOIS, LIST, numerics), case folding, nick and channel validation, the Lamport clock, which nothing uses: easy members only.
