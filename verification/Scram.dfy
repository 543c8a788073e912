/**
 * The server side of a SCRAM-SHA-256 exchange (ferrixd/src/scram.rs), over
 * uninterpreted cryptography.  Octet strings are `string`s.
 */
module Scram {
  import opened Octets
  import opened Numbers

  const LEN := 32

  /** The primitives: HMAC, SHA-256, PBKDF2, and base64 both ways. */
  datatype Crypto = Crypto(
    hmac: (string, string) -> string,
    sha256: string -> string,
    pbkdf2: (string, string, nat) -> string,
    encode: string -> string,
    decode: string -> Option<string>)

  predicate IsDigest(s: string) {
    |s| == LEN && forall i :: 0 <= i < |s| ==> s[i] as int < 256
  }

  /** A code of base64: ASCII without commas. */
  predicate IsCode(s: string) {
    |s| % 4 == 0 && ',' !in s && forall i :: 0 <= i < |s| ==> s[i] as int < 0x80
  }

  /** What the exchange needs of the primitives. */
  ghost predicate Sound(c: Crypto) {
    && (forall k, m :: IsDigest(c.hmac(k, m)))
    && (forall m :: c.decode(c.encode(m)) == Some(m))
    && (forall m :: IsCode(c.encode(m)))
    && c.encode([]) == []
  }

  datatype Creds = Creds(salt: string, iterations: nat, storedKey: string, serverKey: string)

  function ClientKey(c: Crypto, password: string, salt: string, iterations: nat): string {
    c.hmac(c.pbkdf2(password, salt, iterations), "Client Key")
  }

  function ServerKey(c: Crypto, password: string, salt: string, iterations: nat): string {
    c.hmac(c.pbkdf2(password, salt, iterations), "Server Key")
  }

  function Derive(c: Crypto, password: string, salt: string, iterations: nat): Creds {
    Creds(salt, iterations,
          c.sha256(ClientKey(c, password, salt, iterations)),
          ServerKey(c, password, salt, iterations))
  }

  // -------------------------------------------------------------------- exclusive or

  function Xor(a: nat, b: nat, bits: nat): nat {
    if bits == 0 then 0
    else (if a % 2 == b % 2 then 0 else 1) + 2 * Xor(a / 2, b / 2, bits - 1)
  }

  function Pow2(n: nat): nat {
    if n == 0 then 1 else 2 * Pow2(n - 1)
  }

  lemma {:induction false} XorTwice(a: nat, b: nat, bits: nat)
    requires a < Pow2(bits)
    ensures Xor(a, b, bits) < Pow2(bits) && Xor(Xor(a, b, bits), b, bits) == a
  {
    if bits > 0 {
      XorTwice(a / 2, b / 2, bits - 1);
      var x := Xor(a, b, bits);
      assert x / 2 == Xor(a / 2, b / 2, bits - 1) && x % 2 == if a % 2 == b % 2 then 0 else 1;
    }
  }

  lemma XorOctets(a: nat, b: nat)
    requires a < 256
    ensures Xor(a, b, 8) < 256 && Xor(Xor(a, b, 8), b, 8) == a
  {
    hide Xor;
    assert Pow2(8) == 256 by {
      assert Pow2(4) == 16;
    }
    XorTwice(a, b, 8);
  }

  lemma XorIsOctet(a: nat, b: nat)
    ensures Xor(a, b, 8) < 256
  {
    XorOctets(a % 256, b);
    XorBound(a, b, 8);
    assert Pow2(4) == 16;
  }

  lemma {:induction false} XorBound(a: nat, b: nat, bits: nat)
    ensures Xor(a, b, bits) < Pow2(bits)
  {
    if bits > 0 {
      XorBound(a / 2, b / 2, bits - 1);
    }
  }

  function XorChar(a: char, b: char): char {
    XorIsOctet(a as int, b as int);
    Xor(a as int, b as int, 8) as char
  }

  function Mixed(a: string, b: string): (r: string)
    requires |a| == |b|
    ensures |r| == |a|
  {
    seq(|a|, i requires 0 <= i < |a| => XorChar(a[i], b[i]))
  }

  lemma MixedTwice(a: string, b: string)
    requires IsDigest(a) && IsDigest(b)
    ensures IsDigest(Mixed(a, b)) && Mixed(Mixed(a, b), b) == a
  {
    hide Xor;
    forall i | 0 <= i < LEN
      ensures Mixed(a, b)[i] as int < 256 && Mixed(Mixed(a, b), b)[i] == a[i]
    {
      XorOctets(a[i] as int, b[i] as int);
    }
  }

  // -------------------------------------------------------------------------- fields

  /** `x=`, stripped. */
  function StripKey(field: string, key: char): Option<string> {
    if |field| >= 2 && field[0] == key && field[1] == '=' then Some(field[2..]) else None
  }

  /** The last comma-separated field with this key. */
  function LastField(s: string, key: char): Option<string>
    decreases |s|
  {
    var (head, tail) := Cut(s, ',');
    var later := if tail.Some? then LastField(tail.value, key) else None;
    if later.Some? then later else StripKey(head, key)
  }

  /** The loop over the fields that picks two of them. */
  method PickFields(s: string, a: char, b: char) returns (x: Option<string>, y: Option<string>)
    requires a != b
    ensures x == LastField(s, a) && y == LastField(s, b)
  {
    x, y := None, None;
    var rest := Some(s);
    while rest.Some?
      invariant LastField(s, a) == Later(rest, a, x)
      invariant LastField(s, b) == Later(rest, b, y)
      decreases if rest.Some? then |rest.value| + 1 else 0
    {
      var (field, more) := Cut(rest.value, ',');
      if StripKey(field, a).Some? {
        x := StripKey(field, a);
      } else if StripKey(field, b).Some? {
        y := StripKey(field, b);
      }
      rest := more;
    }
  }

  /** The field to be found in what is left, or else the one found so far. */
  function Later(rest: Option<string>, key: char, sofar: Option<string>): Option<string> {
    if rest.Some? && LastField(rest.value, key).Some? then LastField(rest.value, key) else sofar
  }

  lemma FieldThen(head: string, tail: string, key: char)
    requires ',' !in head
    ensures LastField(head + "," + tail, key)
         == if LastField(tail, key).Some? then LastField(tail, key) else StripKey(head, key)
  {
    assert Join(head, ',', Some(tail)) == head + "," + tail;
    CutJoin(head, ',', Some(tail));
  }

  lemma FieldAlone(head: string, key: char)
    requires ',' !in head
    ensures LastField(head, key) == StripKey(head, key)
  {
    CutJoin(head, ',', None);
  }

  function Field(key: char, value: string): string {
    [key, '='] + value
  }

  lemma FieldStrips(key: char, value: string, k: char)
    ensures StripKey(Field(key, value), k) == if k == key then Some(value) else None
  {
    assert Field(key, value)[2..] == value;
  }

  /** The part after the GS2 header. */
  function Bare(clientFirst: string): Option<string> {
    var (_, afterFlag) := Cut(clientFirst, ',');
    if afterFlag.None? then None else Cut(afterFlag.value, ',').1
  }

  // ------------------------------------------------------------------------ exchange

  datatype Exchange = Exchange(
    account: string, creds: Creds, bare: string, serverFirst: string, nonce: string)

  type Lookup = string -> Option<(string, Creds)>

  function ServerFirst(c: Crypto, nonce: string, creds: Creds): string {
    Field('r', nonce) + "," + (Field('s', c.encode(creds.salt)) + "," + Field('i', Decimal(creds.iterations)))
  }

  function Start(c: Crypto, clientFirst: string, serverNonce: string, lookup: Lookup): Option<(Exchange, string)> {
    var bare := Bare(clientFirst);
    if bare.None? then None
    else
      var user, nonce := LastField(bare.value, 'n'), LastField(bare.value, 'r');
      if user.None? || nonce.None? then None
      else
        var found := lookup(user.value);
        if found.None? then None
        else
          var (account, creds) := found.value;
          var combined := nonce.value + serverNonce;
          var first := ServerFirst(c, combined, creds);
          Some((Exchange(account, creds, bare.value, first, combined), first))
  }

  function WithoutProof(nonce: string): string {
    Field('c', "biws") + "," + Field('r', nonce)
  }

  function AuthMessage(bare: string, serverFirst: string, nonce: string): string {
    bare + "," + serverFirst + "," + WithoutProof(nonce)
  }

  function Finish(c: Crypto, ex: Exchange, clientFinal: string): Option<string> {
    var nonce, code := LastField(clientFinal, 'r'), LastField(clientFinal, 'p');
    if nonce != Some(ex.nonce) || code.None? then None
    else
      var proof := c.decode(code.value);
      var auth := AuthMessage(ex.bare, ex.serverFirst, ex.nonce);
      var signature := c.hmac(ex.creds.storedKey, auth);
      if proof.None? || !IsDigest(proof.value) || !IsDigest(signature) then None
      else if c.sha256(Mixed(proof.value, signature)) != ex.creds.storedKey then None
      else Some(Field('v', c.encode(c.hmac(ex.creds.serverKey, auth))))
  }

  // ------------------------------------------------------------------- an honest client

  function ClientBare(user: string, nonce: string): string {
    Field('n', user) + "," + Field('r', nonce)
  }

  function ClientFirst(user: string, nonce: string): string {
    "n,," + ClientBare(user, nonce)
  }

  /** The client of RFC 5802, section 3: it knows the password and reads `r`, `s` and `i`. */
  function ClientFinal(c: Crypto, bare: string, serverFirst: string, password: string): Option<(string, string)> {
    var nonce, salt := LastField(serverFirst, 'r'), LastField(serverFirst, 's');
    var iterations := LastField(serverFirst, 'i');
    if nonce.None? || salt.None? || iterations.None? then None
    else if c.decode(salt.value).None? || ParseU64(iterations.value, 10).None? then None
    else
      var salted := c.pbkdf2(password, c.decode(salt.value).value, ParseU64(iterations.value, 10).value);
      var key := c.hmac(salted, "Client Key");
      var auth := bare + "," + serverFirst + "," + ("c=biws,r=" + nonce.value);
      var signature := c.hmac(c.sha256(key), auth);
      if |key| != |signature| then None
      else
        Some(("c=biws,r=" + nonce.value + ",p=" + c.encode(Mixed(key, signature)),
              "v=" + c.encode(c.hmac(c.hmac(salted, "Server Key"), auth))))
  }

  /** The client's last message, in parts. */
  lemma FinalText(nonce: string, code: string)
    ensures WithoutProof(nonce) == "c=biws,r=" + nonce
    ensures "c=biws,r=" + nonce + ",p=" + code == WithoutProof(nonce) + "," + Field('p', code)
    ensures "v=" + code == Field('v', code)
  {
    assert WithoutProof(nonce) == "c=biws,r=" + nonce;
  }

  lemma BareOfFirst(user: string, nonce: string)
    ensures Bare(ClientFirst(user, nonce)) == Some(ClientBare(user, nonce))
  {
    hide Cut, ClientBare;
    var bare := ClientBare(user, nonce);
    assert ClientFirst(user, nonce) == Join("n", ',', Some(Join("", ',', Some(bare))));
    CutJoin("n", ',', Some(Join("", ',', Some(bare))));
    CutJoin("", ',', Some(bare));
  }

  lemma FieldHasNoComma(key: char, value: string)
    requires key != ',' && ',' !in value
    ensures ',' !in Field(key, value)
  {
  }

  lemma BareFields(user: string, nonce: string)
    requires ',' !in user && ',' !in nonce
    ensures LastField(ClientBare(user, nonce), 'n') == Some(user)
    ensures LastField(ClientBare(user, nonce), 'r') == Some(nonce)
  {
    hide LastField, StripKey, Field;
    FieldHasNoComma('n', user);
    FieldHasNoComma('r', nonce);
    forall k | k == 'n' || k == 'r'
      ensures LastField(ClientBare(user, nonce), k) == if k == 'n' then Some(user) else Some(nonce)
    {
      FieldThen(Field('n', user), Field('r', nonce), k);
      FieldAlone(Field('r', nonce), k);
      FieldStrips('n', user, k);
      FieldStrips('r', nonce, k);
    }
  }

  lemma DecimalHasNoComma(n: nat)
    ensures ',' !in Decimal(n)
  {
  }

  lemma ServerFirstFields(c: Crypto, nonce: string, creds: Creds, k: char)
    requires Sound(c) && ',' !in nonce
    ensures LastField(ServerFirst(c, nonce, creds), k)
         == match k
            case 'r' => Some(nonce)
            case 's' => Some(c.encode(creds.salt))
            case 'i' => Some(Decimal(creds.iterations))
            case _ => None
  {
    hide LastField, StripKey, Field, Decimal;
    var salt, count := c.encode(creds.salt), Decimal(creds.iterations);
    DecimalHasNoComma(creds.iterations);
    FieldHasNoComma('r', nonce);
    assert IsCode(salt);
    FieldHasNoComma('s', salt);
    FieldHasNoComma('i', count);
    FieldThen(Field('r', nonce), Field('s', salt) + "," + Field('i', count), k);
    FieldThen(Field('s', salt), Field('i', count), k);
    FieldAlone(Field('i', count), k);
    FieldStrips('r', nonce, k);
    FieldStrips('s', salt, k);
    FieldStrips('i', count, k);
  }

  lemma FinalFields(nonce: string, code: string, k: char)
    requires ',' !in nonce && ',' !in code && (k == 'r' || k == 'p')
    ensures LastField(WithoutProof(nonce) + "," + Field('p', code), k) == if k == 'r' then Some(nonce) else Some(code)
  {
    hide LastField, StripKey, Field;
    FieldHasNoComma('c', "biws");
    FieldHasNoComma('r', nonce);
    FieldHasNoComma('p', code);
    var tail := Field('r', nonce) + "," + Field('p', code);
    assert WithoutProof(nonce) + "," + Field('p', code) == Field('c', "biws") + "," + tail;
    FieldThen(Field('c', "biws"), tail, k);
    FieldThen(Field('r', nonce), Field('p', code), k);
    FieldAlone(Field('p', code), k);
    FieldStrips('c', "biws", k);
    FieldStrips('r', nonce, k);
    FieldStrips('p', code, k);
  }

  /** What the server keeps after an honest first message. */
  function Expected(c: Crypto, user: string, nonce: string, serverNonce: string, account: string, creds: Creds): Exchange {
    Exchange(account, creds, ClientBare(user, nonce),
             ServerFirst(c, nonce + serverNonce, creds), nonce + serverNonce)
  }

  lemma HonestStart(c: Crypto, user: string, nonce: string, serverNonce: string, lookup: Lookup)
    requires ',' !in user && ',' !in nonce && lookup(user).Some?
    ensures var (account, creds) := lookup(user).value;
            var ex := Expected(c, user, nonce, serverNonce, account, creds);
            Start(c, ClientFirst(user, nonce), serverNonce, lookup) == Some((ex, ex.serverFirst))
  {
    hide Bare, LastField, ClientFirst;
    BareOfFirst(user, nonce);
    BareFields(user, nonce);
  }

  /**
   * A client that knows the password is accepted, and the server's last message is
   * the one that client expects, so the server has proved itself too.
   */
  lemma HonestFinish(c: Crypto, password: string, salt: string, iterations: nat, ex: Exchange)
    requires Sound(c) && iterations < U64_RANGE && ',' !in ex.nonce
    requires ex.creds == Derive(c, password, salt, iterations)
    requires ex.serverFirst == ServerFirst(c, ex.nonce, ex.creds)
    ensures var final := ClientFinal(c, ex.bare, ex.serverFirst, password);
            final.Some? && Finish(c, ex, final.value.0) == Some(final.value.1)
  {
    hide LastField, ServerFirst, WithoutProof, Field, Mixed, ParseU64, IsCode, IsDigest;
    ServerFirstFields(c, ex.nonce, ex.creds, 'r');
    ServerFirstFields(c, ex.nonce, ex.creds, 's');
    ServerFirstFields(c, ex.nonce, ex.creds, 'i');
    ParseDecimal(iterations);
    var key := ClientKey(c, password, salt, iterations);
    var auth := AuthMessage(ex.bare, ex.serverFirst, ex.nonce);
    var signature := c.hmac(ex.creds.storedKey, auth);
    DigestLength(key);
    DigestLength(signature);
    MixedTwice(key, signature);
    var proof := Mixed(key, signature);
    CodeHasNoComma(c.encode(proof));
    FinalText(ex.nonce, c.encode(proof));
    FinalText(ex.nonce, c.encode(c.hmac(ex.creds.serverKey, auth)));
    FinalFields(ex.nonce, c.encode(proof), 'r');
    FinalFields(ex.nonce, c.encode(proof), 'p');
  }

  lemma DigestLength(s: string)
    requires IsDigest(s)
    ensures |s| == LEN
  {
  }

  lemma CodeHasNoComma(s: string)
    requires IsCode(s)
    ensures ',' !in s
  {
  }

  // ---------------------------------------------------------- what an accepted message shows

  /** Bit `i` of a number. */
  function BitAt(n: nat, i: nat): nat {
    if i == 0 then n % 2 else BitAt(n / 2, i - 1)
  }

  /** A bit of a mixed number is set exactly where the two differ. */
  lemma {:induction false} XorBit(a: nat, b: nat, bits: nat, i: nat)
    requires i < bits
    ensures BitAt(Xor(a, b, bits), i) == if BitAt(a, i) == BitAt(b, i) then 0 else 1
  {
    var x := Xor(a, b, bits);
    assert x / 2 == Xor(a / 2, b / 2, bits - 1) && x % 2 == if a % 2 == b % 2 then 0 else 1;
    if i > 0 {
      XorBit(a / 2, b / 2, bits - 1, i - 1);
    }
  }

  /** So mixing is exclusive or, octet by octet. */
  lemma MixedBit(a: string, b: string, k: nat, i: nat)
    requires |a| == |b| && k < |a| && i < 8
    ensures BitAt(Mixed(a, b)[k] as int, i) == if BitAt(a[k] as int, i) == BitAt(b[k] as int, i) then 0 else 1
  {
    hide Xor, BitAt;
    XorIsOctet(a[k] as int, b[k] as int);
    XorBit(a[k] as int, b[k] as int, 8, i);
  }

  /** What is between the second comma and the end. */
  lemma BareIff(text: string, bare: string)
    ensures Bare(text) == Some(bare)
       <==> exists flag, authzid :: ',' !in flag && ',' !in authzid && text == flag + "," + (authzid + "," + bare)
  {
    hide Cut;
    if Bare(text) == Some(bare) {
      var (flag, rest) := Cut(text, ',');
      var (authzid, last) := Cut(rest.value, ',');
      assert text == flag + "," + (authzid + "," + bare);
    }
    forall flag, authzid | ',' !in flag && ',' !in authzid && text == flag + "," + (authzid + "," + bare)
      ensures Bare(text) == Some(bare)
    {
      CutJoin(flag, ',', Some(authzid + "," + bare));
      CutJoin(authzid, ',', Some(bare));
    }
  }

  /** The first message names a user whose account and credentials the exchange takes. */
  ghost predicate Begins(c: Crypto, text: string, serverNonce: string, lookup: Lookup, ex: Exchange) {
    && Bare(text) == Some(ex.bare)
    && LastField(ex.bare, 'n').Some? && LastField(ex.bare, 'r').Some?
    && lookup(LastField(ex.bare, 'n').value) == Some((ex.account, ex.creds))
    && ex.nonce == LastField(ex.bare, 'r').value + serverNonce
    && ex.serverFirst == "r=" + ex.nonce + ",s=" + c.encode(ex.creds.salt) + ",i=" + Decimal(ex.creds.iterations)
  }

  lemma ServerFirstText(c: Crypto, nonce: string, creds: Creds)
    ensures ServerFirst(c, nonce, creds)
         == "r=" + nonce + ",s=" + c.encode(creds.salt) + ",i=" + Decimal(creds.iterations)
  {
    hide Decimal;
    var salt, count := c.encode(creds.salt), Decimal(creds.iterations);
    assert Field('r', nonce) == "r=" + nonce && Field('s', salt) == "s=" + salt && Field('i', count) == "i=" + count;
    assert "r=" + nonce + "," + ("s=" + salt + "," + ("i=" + count)) == "r=" + nonce + ",s=" + salt + ",i=" + count;
  }

  lemma StartIff(c: Crypto, text: string, serverNonce: string, lookup: Lookup, ex: Exchange, first: string)
    ensures Start(c, text, serverNonce, lookup) == Some((ex, first))
       <==> Begins(c, text, serverNonce, lookup, ex) && first == ex.serverFirst
  {
    hide Bare, LastField, ServerFirst, Decimal;
    var r := Start(c, text, serverNonce, lookup);
    if r.Some? {
      StartBegins(c, text, serverNonce, lookup);
    }
    if Begins(c, text, serverNonce, lookup, ex) {
      BeginsStarts(c, text, serverNonce, lookup, ex);
    }
  }

  lemma StartBegins(c: Crypto, text: string, serverNonce: string, lookup: Lookup)
    requires Start(c, text, serverNonce, lookup).Some?
    ensures var (ex, first) := Start(c, text, serverNonce, lookup).value;
            Begins(c, text, serverNonce, lookup, ex) && first == ex.serverFirst
  {
    hide Bare, LastField, ServerFirst, Decimal;
    var (ex, first) := Start(c, text, serverNonce, lookup).value;
    ServerFirstText(c, ex.nonce, ex.creds);
    assert ex.bare == Bare(text).value;
    assert lookup(LastField(ex.bare, 'n').value).value == (ex.account, ex.creds);
    assert first == ServerFirst(c, ex.nonce, ex.creds);
  }

  lemma BeginsStarts(c: Crypto, text: string, serverNonce: string, lookup: Lookup, ex: Exchange)
    requires Begins(c, text, serverNonce, lookup, ex)
    ensures Start(c, text, serverNonce, lookup) == Some((ex, ex.serverFirst))
  {
    hide Bare, LastField, ServerFirst, Decimal;
    ServerFirstText(c, ex.nonce, ex.creds);
    var found := lookup(LastField(ex.bare, 'n').value).value;
    assert found.0 == ex.account && found.1 == ex.creds;
    assert ServerFirst(c, ex.nonce, ex.creds) == ex.serverFirst;
  }

  /** The authentication message of RFC 5802, section 3. */
  function SignedText(ex: Exchange): string {
    ex.bare + "," + ex.serverFirst + ",c=biws,r=" + ex.nonce
  }

  /**
   * The final message repeats the nonce and holds a proof of the stored credentials:
   * a key whose digest is the stored key, mixed with the signature of what was said.
   */
  ghost predicate Proves(c: Crypto, ex: Exchange, text: string) {
    && LastField(text, 'r') == Some(ex.nonce) && LastField(text, 'p').Some?
    && var signature := c.hmac(ex.creds.storedKey, SignedText(ex));
    && IsDigest(signature)
    && exists key :: HasKey(c, ex, LastField(text, 'p').value, signature, key)
  }

  ghost predicate HasKey(c: Crypto, ex: Exchange, code: string, signature: string, key: string)
    requires IsDigest(signature)
  {
    IsDigest(key) && c.sha256(key) == ex.creds.storedKey && c.decode(code) == Some(Mixed(key, signature))
  }

  lemma SignedIsAuthMessage(ex: Exchange)
    ensures AuthMessage(ex.bare, ex.serverFirst, ex.nonce) == SignedText(ex)
  {
    assert Field('c', "biws") == "c=biws" && Field('r', ex.nonce) == "r=" + ex.nonce;
    assert ex.bare + "," + ex.serverFirst + "," + ("c=biws" + "," + ("r=" + ex.nonce)) == SignedText(ex);
  }

  /** A final message is accepted if and only if it proves the stored credentials. */
  lemma FinishIffProves(c: Crypto, ex: Exchange, text: string)
    ensures Finish(c, ex, text).Some? <==> Proves(c, ex, text)
  {
    hide LastField, AuthMessage, SignedText, Mixed;
    SignedIsAuthMessage(ex);
    var signature := c.hmac(ex.creds.storedKey, SignedText(ex));
    if Finish(c, ex, text).Some? {
      var code := LastField(text, 'p').value;
      var proof := c.decode(code).value;
      MixedTwice(proof, signature);
      assert HasKey(c, ex, code, signature, Mixed(proof, signature));
    }
    if Proves(c, ex, text) {
      var key :| HasKey(c, ex, LastField(text, 'p').value, signature, key);
      MixedTwice(key, signature);
    }
  }

  /** What the server answers then: its own signature of the same text. */
  lemma FinishAnswers(c: Crypto, ex: Exchange, text: string)
    requires Finish(c, ex, text).Some?
    ensures Finish(c, ex, text).value == "v=" + c.encode(c.hmac(ex.creds.serverKey, SignedText(ex)))
  {
    hide LastField, AuthMessage, SignedText, Mixed;
    SignedIsAuthMessage(ex);
  }
}
