/** Message ids: minting, and reseeding the counter from the loaded rows. */
module MsgIds {
  import opened Octets
  import opened Numbers
  import opened Persist

  /** `next_msgid`: the server's prefix and the counter as sixteen hex digits. */
  function Mint(prefix: string, counter: nat): string {
    prefix + Pad(Print(counter, 16), 16)
  }

  /** No prefix yet, or one as `set_msgid_prefix` makes it. */
  predicate IsPrefix(prefix: string) {
    prefix == [] || prefix[|prefix| - 1] == '-'
  }

  /** What follows the last dash. */
  function AfterDash(s: string): (r: string)
    ensures '-' !in r
  {
    var n := Find(s, '-');
    if n == |s| then s else AfterDash(s[n + 1..])
  }

  function CounterOf(msgid: string): Option<nat> {
    ParseU64(AfterDash(msgid), 16)
  }

  /** One more than the largest counter among the rows, or one. */
  ghost predicate IsSeed(rows: seq<Row>, next: nat) {
    && (forall i :: 0 <= i < |rows| && CounterOf(rows[i].message.msgid).Some? ==>
                      CounterOf(rows[i].message.msgid).value < next)
    && (next == 1 || exists i :: 0 <= i < |rows| && CounterOf(rows[i].message.msgid) == Some(next - 1))
  }

  /** The counter loop of `load`, and the seed it gives. */
  method NextId(rows: seq<Row>) returns (next: nat)
    ensures IsSeed(rows, next)
    ensures forall i :: 0 <= i < |rows| && CounterOf(rows[i].message.msgid).Some? ==>
                          CounterOf(rows[i].message.msgid).value < next
    ensures next == 1 || exists i :: 0 <= i < |rows| && CounterOf(rows[i].message.msgid) == Some(next - 1)
  {
    hide CounterOf;
    var max := 0;
    for k := 0 to |rows|
      invariant max >= 0
      invariant forall i :: 0 <= i < k && CounterOf(rows[i].message.msgid).Some? ==>
                              CounterOf(rows[i].message.msgid).value <= max
      invariant max == 0 || exists i :: 0 <= i < k && CounterOf(rows[i].message.msgid) == Some(max)
    {
      var counter := CounterOf(rows[k].message.msgid);
      if counter.Some? && counter.value > max {
        max := counter.value;
      }
    }
    next := max + 1;
  }

  lemma {:induction false} AfterDashOf(a: string, b: string)
    requires '-' !in b && IsPrefix(a)
    ensures AfterDash(a + b) == b
    decreases |a|
  {
    if a == [] {
      assert a + b == b;
      FindUnique(b, '-', |b|);
    } else {
      var n := Find(a, '-');
      assert a[|a| - 1] in a;
      assert n < |a| by {
        assert a[..|a|] == a;
      }
      FindUnique(a + b, '-', n) by {
        assert (a + b)[..n] == a[..n];
      }
      assert (a + b)[n + 1..] == a[n + 1..] + b;
      AfterDashOf(a[n + 1..], b);
    }
  }

  lemma {:induction false} HexHasNoDash(n: nat, width: nat)
    ensures '-' !in Pad(Print(n, 16), width) && '+' !in Pad(Print(n, 16), width)
  {
    PadKeeps(Print(n, 16), width);
  }

  lemma {:induction false} PadKeeps(s: string, width: nat)
    requires '-' !in s && '+' !in s
    ensures '-' !in Pad(s, width) && '+' !in Pad(s, width)
    decreases width - |s|
  {
    if |s| < width {
      PadKeeps(['0'] + s, width);
    }
  }

  /** The counter of a minted id is read back. */
  lemma CounterOfMinted(prefix: string, n: nat)
    requires IsPrefix(prefix) && n < U64_RANGE
    ensures CounterOf(Mint(prefix, n)) == Some(n)
  {
    var hex := Pad(Print(n, 16), 16);
    HexHasNoDash(n, 16);
    AfterDashOf(prefix, hex);
    ValueOfPrint(n, 16);
    ValueOfPadded(Print(n, 16), 16, 16);
    assert hex[0] in hex;
  }

  /** Different counters give different ids. */
  lemma MintedOnce(prefix: string, a: nat, b: nat)
    requires IsPrefix(prefix) && a < U64_RANGE && b < U64_RANGE && Mint(prefix, a) == Mint(prefix, b)
    ensures a == b
  {
    CounterOfMinted(prefix, a);
    CounterOfMinted(prefix, b);
  }

  /**
   * No id minted after a restart is the id of a loaded message, whichever server
   * that message came from: every loaded counter is below the seed.
   */
  lemma MintedAfterLoadIsNew(rows: seq<Row>, next: nat, prefix: string, n: nat, i: nat)
    requires forall k :: 0 <= k < |rows| && CounterOf(rows[k].message.msgid).Some? ==>
                           CounterOf(rows[k].message.msgid).value < next
    requires next <= n < U64_RANGE && IsPrefix(prefix) && i < |rows|
    ensures Mint(prefix, n) != rows[i].message.msgid
  {
    CounterOfMinted(prefix, n);
  }

  /**
   * Rows that were not loaded are not protected: with only another server's newer
   * row loaded, the seed is 2 and our own older id comes up again.
   */
  lemma UnloadedIdsCanRepeat(ours: string, theirs: string, m: Stored)
    requires IsPrefix(ours) && IsPrefix(theirs)
    ensures var unloaded, loaded := m.(msgid := Mint(ours, 5)), [Row(2, "", m.(msgid := Mint(theirs, 1)))];
            && (forall i :: 0 <= i < |loaded| ==> CounterOf(loaded[i].message.msgid) == Some(2 - 1))
            && exists n :: 2 <= n < U64_RANGE && Mint(ours, n) == unloaded.msgid
  {
    CounterOfMinted(theirs, 1);
    assert 2 <= 5 < U64_RANGE && Mint(ours, 5) == m.(msgid := Mint(ours, 5)).msgid;
  }

  /** An id of ours comes up again exactly when its counter is not below the seed. */
  lemma RepeatsIffNotBelowSeed(prefix: string, counter: nat, next: nat)
    requires IsPrefix(prefix) && counter < U64_RANGE
    ensures (exists n :: next <= n < U64_RANGE && Mint(prefix, n) == Mint(prefix, counter)) <==> next <= counter
  {
    hide Mint;
    if next <= counter {
      assert next <= counter < U64_RANGE && Mint(prefix, counter) == Mint(prefix, counter);
    }
    forall n: nat | n < U64_RANGE && Mint(prefix, n) == Mint(prefix, counter)
      ensures n == counter
    {
      MintedOnce(prefix, n, counter);
    }
  }

  lemma HexRange()
    ensures Power(16, 16) == U64_RANGE
  {
    assert Power(16, 4) == 0x1_0000;
    assert Power(16, 8) == 0x1_0000_0000 by {
      assert Power(16, 6) == 0x100_0000;
    }
    assert Power(16, 12) == 0x1_0000_0000_0000 by {
      assert Power(16, 10) == 0x100_0000_0000;
    }
    assert Power(16, 14) == 0x100_0000_0000_0000;
  }

  /** A minted id is the prefix and sixteen hex digits. */
  lemma MintedWidth(prefix: string, n: nat)
    requires n < U64_RANGE
    ensures |Mint(prefix, n)| == |prefix| + 16 && Mint(prefix, n)[..|prefix|] == prefix
    ensures var hex := Mint(prefix, n)[|prefix|..]; IsNumeral(hex, 16) && Value(hex, 16) == n
  {
    hide Print, Pad;
    HexRange();
    PrintLength(n, 16, 16);
    PadLength(Print(n, 16), 16);
    ValueOfPrint(n, 16);
    ValueOfPadded(Print(n, 16), 16, 16);
    assert Mint(prefix, n)[|prefix|..] == Pad(Print(n, 16), 16);
  }
}
