/** The assumptions made of base64 and HMAC can be met: here is a code that meets them. */
module Codes {
  import opened Octets
  import Scram
  import Kv

  function Run(n: nat): (s: string)
    ensures |s| == n && forall i :: 0 <= i < n ==> s[i] == 'A'
  {
    seq(n, _ => 'A')
  }

  /** Each octet as a run of `A`s, closed by four `B`s. */
  function Code(m: string): (s: string)
    ensures |s| % 4 == 0 && forall i :: 0 <= i < |s| ==> s[i] == 'A' || s[i] == 'B'
  {
    if m == [] then [] else Run(4 * (m[0] as int)) + "BBBB" + Code(m[1..])
  }

  lemma {:induction false} CodeInjective(a: string, b: string)
    requires Code(a) == Code(b)
    ensures a == b
    decreases |a|
  {
    hide Run;
    if a != [] && b != [] {
      FirstOfCode(a);
      FirstOfCode(b);
      assert a[0] as int == b[0] as int;
      CodeInjective(a[1..], b[1..]);
      assert a == [a[0]] + a[1..] && b == [b[0]] + b[1..];
    }
  }

  lemma FirstOfCode(m: string)
    requires m != []
    ensures Find(Code(m), 'B') == 4 * (m[0] as int)
    ensures Code(m)[4 * (m[0] as int) + 4..] == Code(m[1..])
  {
    hide Find;
    var n := 4 * (m[0] as int);
    assert Code(m)[..n] == Run(n);
    FindUnique(Code(m), 'B', n);
  }

  ghost function Decode(s: string): Option<string> {
    if exists m :: Code(m) == s then Some(var m :| Code(m) == s; m) else None
  }

  lemma DecodeOfCode(m: string)
    ensures Decode(Code(m)) == Some(m)
  {
    hide Code;
    var r := Decode(Code(m));
    CodeInjective(r.value, m);
  }

  lemma Zeros()
    ensures Scram.IsDigest(seq(Scram.LEN, _ => '\0'))
  {
  }

  lemma SoundCryptoExists()
    ensures exists c :: Scram.Sound(c)
  {
    hide Code, Decode;
    var zeros := seq(Scram.LEN, _ => '\0');
    Zeros();
    var c := Scram.Crypto((k, m) => zeros, m => zeros, (p, s, i) => zeros, m => Code(m), s => Decode(s));
    forall m
      ensures c.decode(c.encode(m)) == Some(m) && Scram.IsCode(c.encode(m))
    {
      DecodeOfCode(m);
      CodeIsCode(m);
    }
    EmptyCode();
    assert Scram.Sound(c);
  }

  lemma CodeIsCode(m: string)
    ensures Scram.IsCode(Code(m)) && Solid(Code(m)) && Kv.Ascii(Code(m))
  {
  }

  lemma EmptyCode()
    ensures Code([]) == []
  {
  }

  lemma SoundBase64Exists()
    ensures exists b :: Kv.Sound(b)
  {
    hide Code, Decode;
    var b := Kv.Base64(m => Code(m), s => Decode(s));
    forall m
      ensures b.decode(b.encode(m)) == Some(m) && Solid(b.encode(m)) && Kv.Ascii(b.encode(m))
    {
      DecodeOfCode(m);
      CodeIsCode(m);
    }
    assert Kv.Sound(b);
  }
}
