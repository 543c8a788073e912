/** The AUTHENTICATE state machine (ferrixd/src/sasl.rs and ferrixd/src/command.rs). */
module Sasl {
  import opened Octets
  import Scram

  const MAX_SASL_LEN: nat := 8192
  const CHUNK_LEN: nat := 400

  datatype Mechanism = Plain | External | ScramSha256

  function FromName(name: string): Option<Mechanism> {
    match Upper(name)
    case "PLAIN" => Some(Plain)
    case "EXTERNAL" => Some(External)
    case "SCRAM-SHA-256" => Some(ScramSha256)
    case _ => None
  }

  datatype Phase =
    | Idle
    | AwaitingClientFirst
    | AwaitingClientFinal(exchange: Scram.Exchange)
    | AwaitingFinalAck(account: string)

  // -------------------------------------------------------------------- credentials

  datatype Credentials = Credentials(authzid: string, authcid: string, password: string)

  /** Three NUL-separated fields of UTF-8. */
  function DecodePlain(data: string): Option<Credentials> {
    var (authzid, rest) := Cut(data, NUL);
    if rest.None? then None
    else
      var (authcid, more) := Cut(rest.value, NUL);
      if more.None? || NUL in more.value then None
      else if !ValidUtf8(authzid) || !ValidUtf8(authcid) || !ValidUtf8(more.value) then None
      else Some(Credentials(authzid, authcid, more.value))
  }

  function EncodePlain(c: Credentials): string {
    Join(c.authzid, NUL, Some(Join(c.authcid, NUL, Some(c.password))))
  }

  predicate Sendable(c: Credentials) {
    && NUL !in c.authzid && NUL !in c.authcid && NUL !in c.password
    && ValidUtf8(c.authzid) && ValidUtf8(c.authcid) && ValidUtf8(c.password)
  }

  lemma DecodePlainIff(data: string, c: Credentials)
    ensures DecodePlain(data) == Some(c) <==> Sendable(c) && data == EncodePlain(c)
  {
    hide Cut, ValidUtf8;
    if Sendable(c) && data == EncodePlain(c) {
      CutJoin(c.authzid, NUL, Some(Join(c.authcid, NUL, Some(c.password))));
      CutJoin(c.authcid, NUL, Some(c.password));
    }
  }

  // -------------------------------------------------------------------- the session

  /** What lies outside the session: accounts, randomness, TLS, primitives. */
  datatype World = World(
    crypto: Scram.Crypto,
    lookup: Scram.Lookup,
    nonce: Option<string>,
    verifyPassword: (string, string) -> Option<string>,
    verifyFingerprint: (string, string) -> Option<string>,
    fingerprint: Option<string>,
    lossy: string -> string)

  datatype State = State(
    registered: bool, account: Option<string>, capable: bool,
    mechanism: Option<Mechanism>, phase: Phase, buffer: string)

  datatype Reply =
    | Ready
    | Challenge(text: string)
    | LoggedIn(account: string)
    | SaslSuccess
    | SaslFail
    | SaslTooLong
    | SaslAborted
    | SaslAlready

  type Outcome = (State, seq<Reply>)

  function Reset(s: State): State {
    s.(mechanism := None, phase := Idle, buffer := [])
  }

  function Fail(s: State): Outcome {
    (Reset(s), [SaslFail])
  }

  function Login(s: State, account: string): Outcome {
    (Reset(s).(account := Some(account)), [LoggedIn(account), SaslSuccess])
  }

  datatype Chunk = NeedMore | Complete(data: string) | Invalid

  /** One data line: the buffer afterwards and what it amounts to. */
  function PushChunk(c: Scram.Crypto, buffer: string, chunk: string): (string, Chunk) {
    if chunk != "+" && |buffer| + |chunk| > MAX_SASL_LEN then (buffer, Invalid)
    else
      var all := if chunk == "+" then buffer else buffer + chunk;
      if chunk != "+" && |chunk| >= CHUNK_LEN then (all, NeedMore)
      else
        var data := c.decode(all);
        ([], if data.Some? then Complete(data.value) else Invalid)
  }

  /** The account a finished PLAIN or EXTERNAL payload proves. */
  function Verified(w: World, m: Mechanism, data: string): Option<string> {
    match m
    case Plain =>
      var c := DecodePlain(data);
      if c.Some? then w.verifyPassword(c.value.authcid, c.value.password) else None
    case External =>
      if w.fingerprint.Some? then w.verifyFingerprint(w.lossy(data), w.fingerprint.value) else None
    case ScramSha256 => None
  }

  function FinishSasl(s: State, w: World, m: Mechanism, data: string): Outcome {
    var account := Verified(w, m, data);
    if account.Some? then Login(s, account.value) else Fail(s)
  }

  function ScramStep(s: State, w: World, text: string): Outcome {
    if !ValidUtf8(text) then Fail(s)
    else
      match s.phase
      case AwaitingClientFirst =>
        if w.nonce.None? then Fail(s)
        else
          var started := Scram.Start(w.crypto, text, w.nonce.value, w.lookup);
          if started.None? then Fail(s)
          else
            (s.(phase := AwaitingClientFinal(started.value.0)), [Challenge(w.crypto.encode(started.value.1))])
      case AwaitingClientFinal(exchange) =>
        var final := Scram.Finish(w.crypto, exchange, text);
        if final.None? then Fail(s)
        else (s.(phase := AwaitingFinalAck(exchange.account)), [Challenge(w.crypto.encode(final.value))])
      case AwaitingFinalAck(account) => Login(s, account)
      case Idle => Fail(s)
  }

  function Payload(s: State, w: World, m: Mechanism, data: string): Outcome {
    if m == ScramSha256 then ScramStep(s, w, data) else FinishSasl(s, w, m, data)
  }

  function DataLine(s: State, w: World, m: Mechanism, arg: string): Outcome {
    var (buffer, r) := PushChunk(w.crypto, s.buffer, arg);
    var s' := s.(buffer := buffer);
    match r
    case NeedMore => (s', [])
    case Invalid => (Reset(s'), [SaslTooLong])
    case Complete(data) => Payload(s', w, m, data)
  }

  function Select(s: State, arg: string): Outcome {
    var m := FromName(arg);
    if m.None? then (s, [SaslFail])
    else
      (s.(mechanism := m, phase := if m.value == ScramSha256 then AwaitingClientFirst else s.phase), [Ready])
  }

  function Authenticate(s: State, w: World, params: seq<string>): Outcome {
    if !s.registered && s.account.Some? then (s, [SaslAlready])
    else if !s.capable || params == [] then (s, [SaslFail])
    else if params[0] == "*" then (Reset(s), [SaslAborted])
    else if s.mechanism.None? then Select(s, params[0])
    else DataLine(s, w, s.mechanism.value, params[0])
  }

  // ------------------------------------------------------------------- as it is run

  class SaslSession {
    var mechanism: Option<Mechanism>
    var phase: Phase
    var buffer: string

    constructor ()
      ensures mechanism == None && phase == Idle && buffer == []
    {
      mechanism, phase, buffer := None, Idle, [];
    }

    method Clear()
      modifies this
      ensures mechanism == None && phase == Idle && buffer == []
    {
      mechanism := None;
      phase := Idle;
      buffer := [];
    }

    method Push(c: Scram.Crypto, chunk: string) returns (r: Chunk)
      modifies this`buffer
      ensures (buffer, r) == PushChunk(c, old(buffer), chunk)
    {
      var emptyMarker := chunk == "+";
      if !emptyMarker {
        if |buffer| + |chunk| > MAX_SASL_LEN {
          return Invalid;
        }
        buffer := buffer + chunk;
      }
      if emptyMarker || |chunk| < CHUNK_LEN {
        var data := c.decode(buffer);
        r := if data.Some? then Complete(data.value) else Invalid;
        buffer := [];
      } else {
        r := NeedMore;
      }
    }
  }

  class Session {
    var registered: bool
    var account: Option<string>
    var capable: bool
    const sasl: SaslSession

    constructor ()
      ensures fresh(sasl) && View() == State(false, None, false, None, Idle, [])
    {
      registered, account, capable := false, None, false;
      sasl := new SaslSession();
    }

    ghost function View(): State
      reads this, sasl
    {
      State(registered, account, capable, sasl.mechanism, sasl.phase, sasl.buffer)
    }

    method Succeed(name: string) returns (replies: seq<Reply>)
      modifies this`account
      ensures account == Some(name) && replies == [LoggedIn(name), SaslSuccess]
    {
      account := Some(name);
      replies := [LoggedIn(name), SaslSuccess];
    }

    method Finish(w: World, m: Mechanism, data: string) returns (replies: seq<Reply>)
      modifies this`account, sasl
      ensures (View(), replies) == FinishSasl(old(View()), w, m, data)
    {
      sasl.Clear();
      var result := Verified(w, m, data);
      if result.Some? {
        replies := Succeed(result.value);
      } else {
        replies := [SaslFail];
      }
    }

    method Step(w: World, text: string) returns (replies: seq<Reply>)
      modifies this`account, sasl
      ensures (View(), replies) == ScramStep(old(View()), w, text)
    {
      hide ValidUtf8, Scram.Start, Scram.Finish;
      if !ValidUtf8(text) {
        sasl.Clear();
        return [SaslFail];
      }
      var phase := sasl.phase;
      sasl.phase := Idle;
      replies := [SaslFail];
      match phase
      case AwaitingClientFirst =>
        if w.nonce.Some? {
          var started := Scram.Start(w.crypto, text, w.nonce.value, w.lookup);
          if started.Some? {
            sasl.phase := AwaitingClientFinal(started.value.0);
            return [Challenge(w.crypto.encode(started.value.1))];
          }
        }
        sasl.Clear();
      case AwaitingClientFinal(exchange) =>
        var final := Scram.Finish(w.crypto, exchange, text);
        if final.Some? {
          sasl.phase := AwaitingFinalAck(exchange.account);
          return [Challenge(w.crypto.encode(final.value))];
        }
        sasl.Clear();
      case AwaitingFinalAck(name) =>
        sasl.Clear();
        replies := Succeed(name);
      case Idle =>
        sasl.Clear();
    }

    method CmdAuthenticate(w: World, params: seq<string>) returns (replies: seq<Reply>)
      modifies this`account, sasl
      ensures (View(), replies) == Authenticate(old(View()), w, params)
    {
      hide FromName, PushChunk, FinishSasl, ScramStep;
      if !registered && account.Some? {
        return [SaslAlready];
      }
      if !capable || params == [] {
        return [SaslFail];
      }
      var arg := params[0];
      if arg == "*" {
        sasl.Clear();
        return [SaslAborted];
      }
      match sasl.mechanism
      case None =>
        var m := FromName(arg);
        if m.None? {
          return [SaslFail];
        }
        sasl.mechanism := m;
        if m.value == ScramSha256 {
          sasl.phase := AwaitingClientFirst;
        }
        return [Ready];
      case Some(m) =>
        var r := sasl.Push(w.crypto, arg);
        match r
        case NeedMore => return [];
        case Invalid =>
          sasl.Clear();
          return [SaslTooLong];
        case Complete(data) =>
          if m == ScramSha256 {
            replies := Step(w, data);
          } else {
            replies := Finish(w, m, data);
          }
    }
  }

  // ------------------------------------------------------------------- the invariant

  predicate Invariant(s: State) {
    && (s.phase.Idle? <==> s.mechanism != Some(ScramSha256))
    && (s.mechanism.None? ==> s.buffer == [])
    && |s.buffer| <= MAX_SASL_LEN
  }

  lemma PayloadKeeps(s: State, w: World, m: Mechanism, data: string)
    requires Invariant(s) && s.mechanism == Some(m)
    ensures Invariant(Payload(s, w, m, data).0)
  {
    hide ValidUtf8, Scram.Start, Scram.Finish, Verified;
  }

  lemma ChunkKeeps(c: Scram.Crypto, buffer: string, chunk: string)
    requires |buffer| <= MAX_SASL_LEN
    ensures |PushChunk(c, buffer, chunk).0| <= MAX_SASL_LEN
  {
  }

  lemma AuthenticateKeeps(s: State, w: World, params: seq<string>)
    requires Invariant(s)
    ensures Invariant(Authenticate(s, w, params).0)
  {
    hide Payload, PushChunk, FromName;
    if s.mechanism.Some? && params != [] {
      var (buffer, r) := PushChunk(w.crypto, s.buffer, params[0]);
      ChunkKeeps(w.crypto, s.buffer, params[0]);
      if r.Complete? {
        PayloadKeeps(s.(buffer := buffer), w, s.mechanism.value, r.data);
      }
    }
  }

  // --------------------------------------------------------------------------- runs

  /** One step of a connection: a command, or something else that sets a field. */
  datatype Event =
    | Command(world: World, params: seq<string>)
    | Registered
    | Capable(on: bool)
    | AccountSet(account: Option<string>)

  function Next(s: State, e: Event): State {
    match e
    case Command(w, params) => Authenticate(s, w, params).0
    case Registered => s.(registered := true)
    case Capable(on) => s.(capable := on)
    case AccountSet(account) => s.(account := account)
  }

  const FRESH := State(false, None, false, None, Idle, [])

  /** The state after the first `n` events. */
  function After(events: seq<Event>, n: nat): State
    requires n <= |events|
  {
    if n == 0 then FRESH else Next(After(events, n - 1), events[n - 1])
  }

  lemma {:induction false} RunInvariant(events: seq<Event>, n: nat)
    requires n <= |events|
    ensures Invariant(After(events, n))
  {
    hide Authenticate;
    if n > 0 {
      RunInvariant(events, n - 1);
      if events[n - 1].Command? {
        AuthenticateKeeps(After(events, n - 1), events[n - 1].world, events[n - 1].params);
      }
    }
  }

  /** The payload that this command line completes, if it does. */
  function Completed(s: State, w: World, params: seq<string>): Option<string> {
    if (!s.registered && s.account.Some?) || !s.capable || params == [] || params[0] == "*" || s.mechanism.None? then None
    else
      var r := PushChunk(w.crypto, s.buffer, params[0]).1;
      if r.Complete? then Some(r.data) else None
  }

  /** The account this command line proves on the spot or, for SCRAM, acknowledges. */
  function Proved(s: State, w: World, params: seq<string>): Option<string> {
    var data := Completed(s, w, params);
    if data.None? then None
    else if s.mechanism.value != ScramSha256 then Verified(w, s.mechanism.value, data.value)
    else if ValidUtf8(data.value) && s.phase.AwaitingFinalAck? then Some(s.phase.account)
    else None
  }

  /** A command logs in exactly when it proves an account, and otherwise leaves the login alone. */
  lemma LoginIffProved(s: State, w: World, params: seq<string>)
    ensures var (s', replies) := Authenticate(s, w, params);
            match Proved(s, w, params)
            case Some(a) => s'.account == Some(a) && replies == [LoggedIn(a), SaslSuccess] && Reset(s') == s'
            case None => s'.account == s.account && forall i :: 0 <= i < |replies| ==> !replies[i].LoggedIn? && replies[i] != SaslSuccess
  {
    hide ValidUtf8, Scram.Start, Scram.Finish, Verified, FromName;
  }

  /** At event `j` the client's first message named the account of `exchange`. */
  ghost predicate StartedAt(events: seq<Event>, j: nat, exchange: Scram.Exchange)
    requires j < |events|
  {
    var s := After(events, j);
    && events[j].Command?
    && var w, text := events[j].world, Completed(s, events[j].world, events[j].params);
    && text.Some? && w.nonce.Some?
    && Scram.Begins(w.crypto, text.value, w.nonce.value, w.lookup, exchange)
  }

  /** At event `k` the client proved that it knows the credentials of `exchange`. */
  ghost predicate FinishedAt(events: seq<Event>, k: nat, exchange: Scram.Exchange)
    requires k < |events|
  {
    var s := After(events, k);
    && events[k].Command?
    && var w, text := events[k].world, Completed(s, events[k].world, events[k].params);
    && text.Some?
    && Scram.Proves(w.crypto, exchange, text.value)
  }

  /** No reset after event `j` and up to `n`: the phase is `p` throughout. */
  ghost predicate Held(events: seq<Event>, j: nat, n: nat, p: Phase)
    requires j <= n <= |events|
  {
    forall i {:trigger After(events, i)} :: j < i <= n ==> After(events, i).phase == p
  }

  lemma PhaseStep(s: State, w: World, params: seq<string>)
    ensures var s', text := Authenticate(s, w, params).0, Completed(s, w, params);
            && (s'.phase.AwaitingClientFinal? && s'.phase != s.phase ==>
                  && text.Some? && w.nonce.Some?
                  && Scram.Begins(w.crypto, text.value, w.nonce.value, w.lookup, s'.phase.exchange))
            && (s'.phase.AwaitingFinalAck? && s'.phase != s.phase ==>
                  && text.Some? && s.phase.AwaitingClientFinal?
                  && Scram.Proves(w.crypto, s.phase.exchange, text.value)
                  && s'.phase.account == s.phase.exchange.account)
  {
    hide ValidUtf8, Scram.Start, Scram.Finish, Scram.Begins, Scram.Proves, Verified, FromName;
    var text := Completed(s, w, params);
    if text.Some? && s.phase.AwaitingClientFinal? {
      Scram.FinishIffProves(w.crypto, s.phase.exchange, text.value);
    } else if text.Some? && w.nonce.Some? {
      var started := Scram.Start(w.crypto, text.value, w.nonce.value, w.lookup);
      if started.Some? {
        Scram.StartIff(w.crypto, text.value, w.nonce.value, w.lookup, started.value.0, started.value.1);
      }
    }
  }

  /** An exchange awaiting its final message was started, and not reset since. */
  lemma {:induction false} FinalIsBacked(events: seq<Event>, n: nat) returns (j: nat)
    requires n <= |events| && After(events, n).phase.AwaitingClientFinal?
    ensures j < n && StartedAt(events, j, After(events, n).phase.exchange)
    ensures Held(events, j, n, After(events, n).phase)
  {
    hide Authenticate, Completed, Scram.Begins;
    var s, e := After(events, n - 1), events[n - 1];
    if After(events, n).phase == s.phase {
      j := FinalIsBacked(events, n - 1);
    } else {
      PhaseStep(s, e.world, e.params);
      j := n - 1;
    }
  }

  /**
   * The three parts of an accepted exchange for `account`: started at `j`, its proof
   * accepted at `k`, and neither reset nor replaced between `j` and `n`.
   */
  ghost predicate Exchanged(events: seq<Event>, j: nat, k: nat, n: nat, exchange: Scram.Exchange) {
    && j < k < n <= |events|
    && StartedAt(events, j, exchange) && Held(events, j, k, AwaitingClientFinal(exchange))
    && FinishedAt(events, k, exchange) && Held(events, k, n, AwaitingFinalAck(exchange.account))
  }

  lemma {:induction false} AckIsBacked(events: seq<Event>, n: nat)
    returns (j: nat, k: nat, exchange: Scram.Exchange)
    requires n <= |events| && After(events, n).phase.AwaitingFinalAck?
    ensures Exchanged(events, j, k, n, exchange) && exchange.account == After(events, n).phase.account
  {
    hide Authenticate, Completed, StartedAt, Scram.Proves;
    var s, e := After(events, n - 1), events[n - 1];
    if After(events, n).phase == s.phase {
      j, k, exchange := AckIsBacked(events, n - 1);
    } else {
      PhaseStep(s, e.world, e.params);
      exchange, k := s.phase.exchange, n - 1;
      j := FinalIsBacked(events, k);
    }
  }

  /** What stands behind a login as `account` at event `n`. */
  ghost predicate Evidence(events: seq<Event>, n: nat, account: string)
    requires n < |events| && events[n].Command?
  {
    var s, w := After(events, n), events[n].world;
    var data := Completed(s, w, events[n].params);
    && s.mechanism.Some? && data.Some?
    && (if s.mechanism == Some(ScramSha256)
        then exists j, k, exchange :: Exchanged(events, j, k, n, exchange) && exchange.account == account
        else Vouched(w, s.mechanism.value, data.value, account))
  }

  /** The account database vouches for the credentials, or for the certificate. */
  ghost predicate Vouched(w: World, m: Mechanism, data: string, account: string) {
    match m
    case Plain => exists c :: Sendable(c) && data == PlainText(c) && w.verifyPassword(c.authcid, c.password) == Some(account)
    case External =>
      w.fingerprint.Some? && w.verifyFingerprint(w.lossy(data), w.fingerprint.value) == Some(account)
    case ScramSha256 => false
  }

  function PlainText(c: Credentials): string {
    c.authzid + [NUL] + c.authcid + [NUL] + c.password
  }

  /** A payload is accepted exactly if the database vouches for it. */
  lemma VerifiedIffVouched(w: World, m: Mechanism, data: string, account: string)
    ensures Verified(w, m, data) == Some(account) <==> Vouched(w, m, data, account)
  {
    hide DecodePlain, Sendable, EncodePlain, PlainText;
    if m.Plain? {
      forall c
        ensures DecodePlain(data) == Some(c) <==> Sendable(c) && data == PlainText(c)
      {
        DecodePlainIff(data, c);
        PlainIsJoined(c);
      }
      if Vouched(w, m, data, account) {
        var c :| Sendable(c) && data == PlainText(c) && w.verifyPassword(c.authcid, c.password) == Some(account);
        assert DecodePlain(data) == Some(c);
      }
    }
  }

  lemma PlainIsJoined(c: Credentials)
    ensures EncodePlain(c) == PlainText(c)
  {
    assert c.authzid + [NUL] + (c.authcid + [NUL] + c.password) == PlainText(c);
  }

  /** The replies to event `n`. */
  ghost function RepliesAt(events: seq<Event>, n: nat): seq<Reply>
    requires n < |events| && events[n].Command?
  {
    Authenticate(After(events, n), events[n].world, events[n].params).1
  }

  /**
   * In every run: an AUTHENTICATE line that is answered with a login, be it to the
   * account already held, ends with that account, and evidence stands behind it.
   */
  lemma LoginIsVerified(events: seq<Event>, n: nat, account: string)
    requires n < |events| && events[n].Command? && LoggedIn(account) in RepliesAt(events, n)
    ensures After(events, n + 1).account == Some(account) && Evidence(events, n, account)
  {
    hide Authenticate, PushChunk, Verified, Vouched, Exchanged, ValidUtf8;
    var s, e := After(events, n), events[n];
    LoginIffProved(s, e.world, e.params);
    if s.mechanism == Some(ScramSha256) {
      var j, k, exchange := AckIsBacked(events, n);
    } else {
      VerifiedIffVouched(e.world, s.mechanism.value, Completed(s, e.world, e.params).value, account);
    }
  }

  /** Success is never reported but together with a login. */
  lemma SuccessIsLogin(events: seq<Event>, n: nat)
    requires n < |events| && events[n].Command? && SaslSuccess in RepliesAt(events, n)
    ensures exists account :: LoggedIn(account) in RepliesAt(events, n)
  {
    hide Authenticate, PushChunk, Verified, ValidUtf8;
    var s, e := After(events, n), events[n];
    LoginIffProved(s, e.world, e.params);
    var account := Proved(s, e.world, e.params).value;
    assert RepliesAt(events, n)[0] == LoggedIn(account);
  }

  /**
   * In every run: an AUTHENTICATE line that changes the account changes it to one
   * that was verified, by this line or in the exchange that this line ends.
   */
  lemma AccountIsVerified(events: seq<Event>, n: nat)
    requires n < |events| && events[n].Command?
    requires After(events, n + 1).account != After(events, n).account
    ensures After(events, n + 1).account.Some? && Evidence(events, n, After(events, n + 1).account.value)
  {
    hide Authenticate, Proved, Evidence;
    var s, e := After(events, n), events[n];
    LoginIffProved(s, e.world, e.params);
    var account := Proved(s, e.world, e.params).value;
    assert RepliesAt(events, n)[0] == LoggedIn(account);
    LoginIsVerified(events, n, account);
  }

  /** Before registration a login is final as far as AUTHENTICATE goes. */
  lemma {:induction false} EarlyLoginStays(events: seq<Event>, m: nat, n: nat)
    requires m <= n <= |events|
    requires After(events, m).account.Some? && !After(events, n).registered
    requires forall i :: m <= i < n ==> !events[i].AccountSet?
    ensures After(events, n).account == After(events, m).account
    decreases n
  {
    hide Authenticate;
    if m < n {
      var s, e := After(events, n - 1), events[n - 1];
      if e.Command? {
        RegisteredStays(s, e.world, e.params);
      }
      EarlyLoginStays(events, m, n - 1);
    }
  }

  lemma RegisteredStays(s: State, w: World, params: seq<string>)
    ensures Authenticate(s, w, params).0.registered == s.registered
    ensures !s.registered && s.account.Some? ==> Authenticate(s, w, params).0 == s
  {
    hide PushChunk, FromName, Verified, ValidUtf8, Scram.Start, Scram.Finish;
  }

  // ------------------------------------------------------------------ honest clients

  /** A payload as a client sends it: full lines, a shorter one, `+` for an empty last one. */
  function Chunks(payload: string): seq<string> {
    if payload == [] then ["+"]
    else if |payload| < CHUNK_LEN then [payload]
    else [payload[..CHUNK_LEN]] + Chunks(payload[CHUNK_LEN..])
  }

  /** A sequence of AUTHENTICATE lines. */
  function Lines(s: State, w: World, lines: seq<string>): Outcome
    decreases |lines|
  {
    if lines == [] then (s, [])
    else
      var (s', first) := Authenticate(s, w, [lines[0]]);
      var (s'', more) := Lines(s', w, lines[1..]);
      (s'', first + more)
  }

  /** The session is in the middle of an exchange and will listen. */
  predicate Listening(s: State) {
    (s.registered || s.account.None?) && s.capable
  }

  /** What the whole payload should amount to. */
  function Whole(s: State, w: World, payload: string): Outcome
    requires s.mechanism.Some?
  {
    var data := w.crypto.decode(payload);
    if data.Some? then Payload(s.(buffer := []), w, s.mechanism.value, data.value)
    else (Reset(s), [SaslTooLong])
  }

  lemma LineCompletes(s: State, w: World, line: string, rest: string)
    requires Listening(s) && s.mechanism.Some? && |s.buffer| + |rest| <= MAX_SASL_LEN
    requires |rest| < CHUNK_LEN && |rest| != 1 && line == if rest == [] then "+" else rest
    ensures Authenticate(s, w, [line]) == Whole(s, w, s.buffer + rest)
  {
    hide Payload, FromName;
    assert rest == [] ==> s.buffer + rest == s.buffer;
  }

  lemma LineContinues(s: State, w: World, line: string)
    requires Listening(s) && s.mechanism.Some? && |s.buffer| + |line| <= MAX_SASL_LEN
    requires |line| == CHUNK_LEN
    ensures Authenticate(s, w, [line]) == (s.(buffer := s.buffer + line), [])
  {
    hide Payload, FromName;
  }

  lemma OneLine(s: State, w: World, line: string)
    ensures Lines(s, w, [line]) == Authenticate(s, w, [line])
  {
    hide Authenticate;
    var (s', first) := Authenticate(s, w, [line]);
    assert [line][1..] == [];
    assert first + [] == first;
  }

  /** However long, a payload sent in lines is read as the whole. */
  lemma {:induction false} PayloadIsWhole(s: State, w: World, payload: string)
    requires Listening(s) && s.mechanism.Some?
    requires |s.buffer| + |payload| <= MAX_SASL_LEN && |payload| % 4 == 0
    ensures Lines(s, w, Chunks(payload)) == Whole(s, w, s.buffer + payload)
    decreases |payload|
  {
    hide Authenticate, Payload;
    if |payload| < CHUNK_LEN {
      var line := if payload == [] then "+" else payload;
      LineCompletes(s, w, line, payload);
      OneLine(s, w, line);
    } else {
      var line, rest := payload[..CHUNK_LEN], payload[CHUNK_LEN..];
      var s' := s.(buffer := s.buffer + line);
      LineContinues(s, w, line);
      PayloadIsWhole(s', w, rest);
      assert s.buffer + line + rest == s.buffer + payload;
      assert Chunks(payload)[1..] == Chunks(rest);
      assert [] + Lines(s', w, Chunks(rest)).1 == Lines(s', w, Chunks(rest)).1;
    }
  }

  lemma {:induction false} LinesAppend(s: State, w: World, a: seq<string>, b: seq<string>)
    ensures var (s', first) := Lines(s, w, a);
            var (s'', more) := Lines(s', w, b);
            Lines(s, w, a + b) == (s'', first + more)
    decreases |a|
  {
    hide Authenticate;
    if a == [] {
      assert a + b == b;
      var (s', more) := Lines(s, w, b);
      assert [] + more == more;
    } else {
      var (s', first) := Authenticate(s, w, [a[0]]);
      assert (a + b)[1..] == a[1..] + b;
      LinesAppend(s', w, a[1..], b);
      var (s2, r2) := Lines(s', w, a[1..]);
      var (s3, r3) := Lines(s2, w, b);
      assert first + (r2 + r3) == first + r2 + r3;
    }
  }

  /** The session is idle and will listen. */
  predicate Waiting(s: State) {
    Listening(s) && s.mechanism.None? && s.phase.Idle? && s.buffer == []
  }

  lemma SelectScram(s: State, w: World)
    requires Waiting(s)
    ensures Lines(s, w, ["SCRAM-SHA-256"])
         == (s.(mechanism := Some(ScramSha256), phase := AwaitingClientFirst), [Ready])
  {
    OneLine(s, w, "SCRAM-SHA-256");
    assert Upper("SCRAM-SHA-256") == "SCRAM-SHA-256";
  }

  lemma SelectPlain(s: State, w: World)
    requires Waiting(s)
    ensures Lines(s, w, ["PLAIN"]) == (s.(mechanism := Some(Plain)), [Ready])
  {
    OneLine(s, w, "PLAIN");
    assert Upper("PLAIN") == "PLAIN";
  }

  /** One encoded payload, when the mechanism is SCRAM. */
  lemma ScramPayload(s: State, w: World, text: string)
    requires Listening(s) && s.mechanism == Some(ScramSha256) && s.buffer == []
    requires Scram.Sound(w.crypto) && |w.crypto.encode(text)| <= MAX_SASL_LEN
    ensures Lines(s, w, Chunks(w.crypto.encode(text))) == ScramStep(s, w, text)
  {
    hide Lines, Chunks, ScramStep;
    var code := w.crypto.encode(text);
    assert Scram.IsCode(code);
    PayloadIsWhole(s, w, code);
    assert s.buffer + code == code;
    assert s.(buffer := []) == s;
  }

  lemma TextIsUtf8(a: string, b: string, c: string)
    requires ValidUtf8(b) && ValidUtf8(c)
    requires forall i :: 0 <= i < |a| ==> a[i] as int < 0x80
    ensures ValidUtf8(a + b) && ValidUtf8(b + c) && ValidUtf8(a)
  {
    hide ValidUtf8;
    ValidAscii(a);
    ValidConcat(a, b);
    ValidConcat(b, c);
  }

  lemma FirstIsUtf8(user: string, nonce: string)
    requires ValidUtf8(user) && ValidUtf8(nonce)
    ensures ValidUtf8(Scram.ClientFirst(user, nonce))
  {
    hide ValidUtf8;
    TextIsUtf8("n,,n=", user, user);
    TextIsUtf8(",r=", nonce, nonce);
    ValidConcat("n,,n=" + user, ",r=" + nonce);
    assert Scram.ClientFirst(user, nonce) == ("n,,n=" + user) + (",r=" + nonce);
  }

  lemma FinalIsUtf8(nonce: string, code: string)
    requires ValidUtf8(nonce) && Scram.IsCode(code)
    ensures ValidUtf8(Scram.WithoutProof(nonce) + "," + Scram.Field('p', code))
  {
    hide ValidUtf8;
    TextIsUtf8("c=biws,r=", nonce, nonce);
    ValidAscii(",p=" + code);
    ValidConcat("c=biws,r=" + nonce, ",p=" + code);
    assert Scram.WithoutProof(nonce) + "," + Scram.Field('p', code) == ("c=biws,r=" + nonce) + (",p=" + code);
  }

  lemma ClientFinalIsUtf8(c: Scram.Crypto, bare: string, serverFirst: string, nonce: string, password: string)
    requires Scram.Sound(c) && ValidUtf8(nonce) && Scram.LastField(serverFirst, 'r') == Some(nonce)
    requires Scram.ClientFinal(c, bare, serverFirst, password).Some?
    ensures ValidUtf8(Scram.ClientFinal(c, bare, serverFirst, password).value.0)
  {
    hide ValidUtf8, Scram.LastField, Scram.WithoutProof, Scram.Field, Scram.AuthMessage, Scram.IsCode, Scram.Mixed;
    forall m
      ensures ValidUtf8("c=biws,r=" + nonce + ",p=" + c.encode(m))
    {
      FinalIsUtf8(nonce, c.encode(m));
      Scram.FinalText(nonce, c.encode(m));
    }
  }

  /** A user, as the account database knows it, and the nonces of one exchange. */
  datatype Client = Client(user: string, password: string, salt: string, iterations: nat, nonce: string)

  predicate Presentable(s: string) {
    ',' !in s && ValidUtf8(s)
  }

  ghost predicate Knows(w: World, c: Client, account: string) {
    && Scram.Sound(w.crypto) && c.iterations < 0x1_0000_0000
    && Presentable(c.user) && Presentable(c.nonce) && w.nonce.Some? && Presentable(w.nonce.value)
    && w.lookup(c.user) == Some((account, Scram.Derive(w.crypto, c.password, c.salt, c.iterations)))
  }

  function ExchangeOf(w: World, c: Client, account: string): Scram.Exchange
    requires w.nonce.Some?
  {
    Scram.Expected(w.crypto, c.user, c.nonce, w.nonce.value, account,
                   Scram.Derive(w.crypto, c.password, c.salt, c.iterations))
  }

  lemma HonestFirst(s: State, w: World, c: Client, account: string)
    requires Knows(w, c, account) && s.phase == AwaitingClientFirst
    ensures var ex := ExchangeOf(w, c, account);
            ScramStep(s, w, Scram.ClientFirst(c.user, c.nonce))
            == (s.(phase := AwaitingClientFinal(ex)), [Challenge(w.crypto.encode(ex.serverFirst))])
  {
    hide ValidUtf8, Scram.Start, Scram.Sound, Scram.Derive;
    FirstIsUtf8(c.user, c.nonce);
    Scram.HonestStart(w.crypto, c.user, c.nonce, w.nonce.value, w.lookup);
  }

  lemma HonestFinal(s: State, w: World, c: Client, account: string)
    requires Knows(w, c, account) && s.phase == AwaitingClientFinal(ExchangeOf(w, c, account))
    ensures var ex := ExchangeOf(w, c, account);
            var final := Scram.ClientFinal(w.crypto, ex.bare, ex.serverFirst, c.password);
            && final.Some?
            && ScramStep(s, w, final.value.0)
            == (s.(phase := AwaitingFinalAck(account)), [Challenge(w.crypto.encode(final.value.1))])
  {
    hide ValidUtf8, Scram.Finish, Scram.Sound, Scram.Derive, Scram.ClientFinal, Scram.ServerFirst;
    var ex := ExchangeOf(w, c, account);
    Scram.HonestFinish(w.crypto, c.password, c.salt, c.iterations, ex);
    Scram.ServerFirstFields(w.crypto, ex.nonce, ex.creds, 'r');
    ValidConcat(c.nonce, w.nonce.value);
    ClientFinalIsUtf8(w.crypto, ex.bare, ex.serverFirst, ex.nonce, c.password);
  }

  lemma HonestAck(s: State, w: World, account: string)
    requires Listening(s) && s.mechanism == Some(ScramSha256) && s.buffer == []
    requires s.phase == AwaitingFinalAck(account) && Scram.Sound(w.crypto)
    ensures Lines(s, w, ["+"]) == Login(s, account)
  {
    ScramPayload(s, w, []);
    assert Chunks([]) == ["+"];
  }

  /** The lines of a whole SCRAM login. */
  function ScramLines(w: World, c: Client, account: string): seq<string>
    requires w.nonce.Some?
  {
    var ex := ExchangeOf(w, c, account);
    var final := Scram.ClientFinal(w.crypto, ex.bare, ex.serverFirst, c.password);
    ["SCRAM-SHA-256"]
    + (Chunks(w.crypto.encode(Scram.ClientFirst(c.user, c.nonce)))
       + (Chunks(w.crypto.encode(if final.Some? then final.value.0 else []))
          + ["+"]))
  }

  /** A client that knows the password logs in, and is told what proves the server to it. */
  lemma HonestScramLogin(s: State, w: World, c: Client, account: string)
    requires Waiting(s) && Knows(w, c, account)
    requires |w.crypto.encode(Scram.ClientFirst(c.user, c.nonce))| <= MAX_SASL_LEN
    requires var ex := ExchangeOf(w, c, account);
             var final := Scram.ClientFinal(w.crypto, ex.bare, ex.serverFirst, c.password);
             final.Some? ==> |w.crypto.encode(final.value.0)| <= MAX_SASL_LEN
    ensures var ex := ExchangeOf(w, c, account);
            var final := Scram.ClientFinal(w.crypto, ex.bare, ex.serverFirst, c.password);
            && final.Some?
            && Lines(s, w, ScramLines(w, c, account))
            == (s.(account := Some(account)),
                [Ready, Challenge(w.crypto.encode(ex.serverFirst)), Challenge(w.crypto.encode(final.value.1)),
                 LoggedIn(account), SaslSuccess])
  {
    hide Lines, Chunks, ScramStep, ExchangeOf, Scram.ClientFinal, Scram.ClientFirst, ValidUtf8, Scram.Sound;
    var ex := ExchangeOf(w, c, account);
    var first := Chunks(w.crypto.encode(Scram.ClientFirst(c.user, c.nonce)));
    var s1 := s.(mechanism := Some(ScramSha256), phase := AwaitingClientFirst);
    SelectScram(s, w);
    HonestFirst(s1, w, c, account);
    ScramPayload(s1, w, Scram.ClientFirst(c.user, c.nonce));
    var s2 := s1.(phase := AwaitingClientFinal(ex));
    HonestFinal(s2, w, c, account);
    var final := Scram.ClientFinal(w.crypto, ex.bare, ex.serverFirst, c.password).value;
    ScramPayload(s2, w, final.0);
    var s3 := s2.(phase := AwaitingFinalAck(account));
    HonestAck(s3, w, account);
    var last := Chunks(w.crypto.encode(final.0));
    LinesAppend(s2, w, last, ["+"]);
    LinesAppend(s1, w, first, last + ["+"]);
    LinesAppend(s, w, ["SCRAM-SHA-256"], first + (last + ["+"]));
    var a, b := Challenge(w.crypto.encode(ex.serverFirst)), Challenge(w.crypto.encode(final.1));
    assert [Ready] + ([a] + ([b] + [LoggedIn(account), SaslSuccess]))
        == [Ready, a, b, LoggedIn(account), SaslSuccess];
    assert Login(s3, account).0 == s.(account := Some(account));
  }

  /** The same for PLAIN. */
  lemma HonestPlainLogin(s: State, w: World, c: Credentials, account: string)
    requires Waiting(s) && Scram.Sound(w.crypto) && Sendable(c)
    requires w.verifyPassword(c.authcid, c.password) == Some(account)
    requires |w.crypto.encode(EncodePlain(c))| <= MAX_SASL_LEN
    ensures Lines(s, w, ["PLAIN"] + Chunks(w.crypto.encode(EncodePlain(c))))
         == (s.(account := Some(account)), [Ready, LoggedIn(account), SaslSuccess])
  {
    hide Lines, Chunks, DecodePlain, EncodePlain, ValidUtf8;
    var code := w.crypto.encode(EncodePlain(c));
    var s1 := s.(mechanism := Some(Plain));
    assert Scram.IsCode(code);
    SelectPlain(s, w);
    PayloadIsWhole(s1, w, code);
    assert s1.buffer + code == code;
    DecodePlainIff(EncodePlain(c), c);
    LinesAppend(s, w, ["PLAIN"], Chunks(code));
    assert [Ready] + [LoggedIn(account), SaslSuccess] == [Ready, LoggedIn(account), SaslSuccess];
    assert Login(s1, account).0 == s.(account := Some(account));
  }

  // ------------------------------------------------------------------------- refusals

  /** Mechanisms are named in any case. */
  lemma MechanismNames(name: string)
    ensures FromName(name) == Some(Plain) <==> Spells(name, "PLAIN")
    ensures FromName(name) == Some(External) <==> Spells(name, "EXTERNAL")
    ensures FromName(name) == Some(ScramSha256) <==> Spells(name, "SCRAM-SHA-256")
  {
    hide Upper, Spells;
    UpperIffSpells(name, "PLAIN");
    UpperIffSpells(name, "EXTERNAL");
    UpperIffSpells(name, "SCRAM-SHA-256");
    assert "PLAIN"[0] != "EXTERNAL"[0] && "PLAIN"[0] != "SCRAM-SHA-256"[0] && "EXTERNAL"[0] != "SCRAM-SHA-256"[0];
  }

  /** An abort, a line beyond the limit and one that does not decode all end the exchange, and say so. */
  lemma ExchangeEnds(s: State, w: World, line: string)
    requires Listening(s)
    ensures line == "*" ==> Authenticate(s, w, [line]) == (State(s.registered, s.account, s.capable, None, Idle, []), [SaslAborted])
    ensures s.mechanism.Some? && line != "*" && line != "+" && |s.buffer| + |line| > 8192 ==>
              Authenticate(s, w, [line]) == (State(s.registered, s.account, s.capable, None, Idle, []), [SaslTooLong])
    ensures s.mechanism.Some? && line != "*" && |line| < 400 && |s.buffer| + |line| <= 8192
            && w.crypto.decode(if line == "+" then s.buffer else s.buffer + line).None? ==>
              Authenticate(s, w, [line]) == (State(s.registered, s.account, s.capable, None, Idle, []), [SaslTooLong])
  {
    hide Payload, FromName;
  }

  /** A full line is kept until a shorter one comes, as long as all of it fits. */
  lemma FullLineWaits(s: State, w: World, line: string)
    requires Listening(s) && s.mechanism.Some? && |line| >= 400 && |s.buffer| + |line| <= 8192
    ensures Authenticate(s, w, [line]) == (s.(buffer := s.buffer + line), [])
  {
    hide Payload, FromName;
  }

  /** A payload that proves nothing, or is out of turn, ends the exchange. */
  lemma RefusalEnds(s: State, w: World, params: seq<string>)
    requires Invariant(s) && Completed(s, w, params).Some?
    ensures var data, r := Completed(s, w, params).value, Authenticate(s, w, params);
            var over := (State(s.registered, s.account, s.capable, None, Idle, []), [SaslFail]);
            && (s.mechanism != Some(ScramSha256) && (forall a :: !Vouched(w, s.mechanism.value, data, a)) ==> r == over)
            && (s.mechanism == Some(ScramSha256) && !ValidUtf8(data) ==> r == over)
            && (s.phase == AwaitingClientFirst && w.nonce.None? ==> r == over)
            && (s.phase == AwaitingClientFirst && w.nonce.Some? ==>
                  (forall ex :: !Scram.Begins(w.crypto, data, w.nonce.value, w.lookup, ex)) ==> r == over)
            && (s.phase.AwaitingClientFinal? && !Scram.Proves(w.crypto, s.phase.exchange, data) ==> r == over)
  {
    hide ValidUtf8, Scram.Start, Scram.Finish, Scram.Begins, Scram.Proves, Verified, Vouched, FromName;
    var data := Completed(s, w, params).value;
    if s.mechanism != Some(ScramSha256) {
      var account := Verified(w, s.mechanism.value, data);
      if account.Some? {
        VerifiedIffVouched(w, s.mechanism.value, data, account.value);
      }
    } else if s.phase.AwaitingClientFinal? {
      Scram.FinishIffProves(w.crypto, s.phase.exchange, data);
    } else if s.phase == AwaitingClientFirst && w.nonce.Some? {
      var started := Scram.Start(w.crypto, data, w.nonce.value, w.lookup);
      if started.Some? {
        Scram.StartIff(w.crypto, data, w.nonce.value, w.lookup, started.value.0, started.value.1);
      }
    }
  }

  /** Who may not authenticate, and what names no mechanism, is told so and nothing changes. */
  lemma NothingBegins(s: State, w: World, params: seq<string>)
    ensures !s.registered && s.account.Some? ==> Authenticate(s, w, params) == (s, [SaslAlready])
    ensures Listening(s) && params == [] ==> Authenticate(s, w, params) == (s, [SaslFail])
    ensures (s.registered || s.account.None?) && !s.capable ==> Authenticate(s, w, params) == (s, [SaslFail])
    ensures Listening(s) && params != [] && params[0] != "*" && s.mechanism.None? && FromName(params[0]).None? ==>
              Authenticate(s, w, params) == (s, [SaslFail])
  {
    hide DataLine, FromName;
  }
}
