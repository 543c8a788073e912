/** Line framing (ferrixd/src/codec.rs). */
module Codec {
  import opened Octets
  import opened Sequences

  // ------------------------------------------------------------ the stream's meaning

  /** The terminated lines of a stream, without their `LF`. */
  function Lines(s: string): seq<string>
    decreases |s|
  {
    var n := Find(s, LF);
    if n == |s| then [] else [s[..n]] + Lines(s[n + 1..])
  }

  /** What follows the last `LF`. */
  function Tail(s: string): string
    decreases |s|
  {
    var n := Find(s, LF);
    if n == |s| then s else Tail(s[n + 1..])
  }

  function StripCr(line: string): string {
    if line != [] && line[|line| - 1] == CR then line[..|line| - 1] else line
  }

  function Frames(s: string): seq<string> {
    StripAll(Lines(s))
  }

  function StripAll(lines: seq<string>): seq<string> {
    seq(|lines|, i requires 0 <= i < |lines| => StripCr(lines[i]))
  }

  lemma FirstLine(s: string)
    ensures var n := Find(s, LF);
            if n == |s| then Lines(s) == [] && Tail(s) == s
            else Lines(s) == [s[..n]] + Lines(s[n + 1..]) && Tail(s) == Tail(s[n + 1..])
  {
    hide Find;
  }

  /** Putting the terminators back gives the stream. */
  function Unlines(lines: seq<string>): string {
    if lines == [] then [] else lines[0] + [LF] + Unlines(lines[1..])
  }

  lemma {:induction false} LinesAreTheStream(s: string)
    ensures Unlines(Lines(s)) + Tail(s) == s
    decreases |s|
  {
    hide Find, Lines, Tail, Unlines;
    var n := Find(s, LF);
    FirstLine(s);
    if n == |s| {
      NoLines();
    } else {
      LinesAreTheStream(s[n + 1..]);
      var rest := Lines(s[n + 1..]);
      UnlinesCons(s[..n], rest);
      calc {
        Unlines(Lines(s)) + Tail(s);
        s[..n] + [LF] + Unlines(rest) + Tail(s[n + 1..]);
        s[..n] + [LF] + (Unlines(rest) + Tail(s[n + 1..]));
        s[..n] + [LF] + s[n + 1..];
        s;
      }
    }
  }

  lemma NoLines()
    ensures Unlines([]) == []
  {
  }

  lemma UnlinesCons(line: string, rest: seq<string>)
    ensures Unlines([line] + rest) == line + [LF] + Unlines(rest)
  {
    assert ([line] + rest)[1..] == rest;
  }

  lemma {:induction false} LinesHaveNoBreaks(s: string)
    ensures LF !in Tail(s)
    ensures forall i :: 0 <= i < |Lines(s)| ==> LF !in Lines(s)[i]
    decreases |s|
  {
    hide Find;
    var n := Find(s, LF);
    if n == |s| {
      assert s[..n] == s;
    } else {
      LinesHaveNoBreaks(s[n + 1..]);
    }
  }

  /** Reading on: what arrives continues the tail. */
  lemma {:induction false} StreamAppend(a: string, b: string)
    ensures Lines(a + b) == Lines(a) + Lines(Tail(a) + b)
    ensures Tail(a + b) == Tail(Tail(a) + b)
    decreases |a|
  {
    hide Find, Lines, Tail;
    var n := Find(a, LF);
    FirstLine(a);
    if n == |a| {
      assert [] + Lines(a + b) == Lines(a + b);
    } else {
      assert (a + b)[..n] == a[..n];
      FindUnique(a + b, LF, n);
      FirstLine(a + b);
      assert (a + b)[n + 1..] == a[n + 1..] + b;
      StreamAppend(a[n + 1..], b);
      assert Lines(a + b) == [a[..n]] + (Lines(a[n + 1..]) + Lines(Tail(a[n + 1..]) + b));
    }
  }

  lemma StripAppend(a: seq<string>, b: seq<string>)
    ensures StripAll(a + b) == StripAll(a) + StripAll(b)
  {
  }

  // ------------------------------------------------------------------- the decoder

  datatype Decoded = Frame(line: string) | Waiting | TooLong

  function Decode(max: nat, src: string): (Decoded, string) {
    var n := Find(src, LF);
    if n == |src| then (if |src| > max then TooLong else Waiting, src)
    else
      var line := StripCr(src[..n]);
      (if |line| > max then TooLong else Frame(line), src[n + 1..])
  }

  /** A framed stream: what it has delivered, what it holds, whether it is still open. */
  datatype Reader = Reader(frames: seq<string>, buffer: string, open: bool)

  /** Decode until the buffer holds no whole line or the stream fails. */
  function Drain(max: nat, r: Reader): Reader
    decreases |r.buffer|
  {
    var (d, rest) := Decode(max, r.buffer);
    match d
    case Frame(line) => Drain(max, Reader(r.frames + [line], rest, true))
    case Waiting => Reader(r.frames, rest, true)
    case TooLong => Reader(r.frames, rest, false)
  }

  function Feed(max: nat, r: Reader, chunk: string): Reader {
    if r.open then Drain(max, r.(buffer := r.buffer + chunk)) else r
  }

  function Run(max: nat, chunks: seq<string>): Reader {
    if chunks == [] then Reader([], [], true)
    else Feed(max, Run(max, chunks[..|chunks| - 1]), chunks[|chunks| - 1])
  }

  class IrcCodec {
    const maxLine: nat
    var src: string

    constructor (max: nat)
      ensures maxLine == max && src == []
    {
      maxLine, src := max, [];
    }

    method Next() returns (d: Decoded)
      modifies this
      ensures (d, src) == Decode(maxLine, old(src))
    {
      var newline := 0;
      while newline < |src| && src[newline] != LF
        invariant 0 <= newline <= |src| && LF !in src[..newline]
      {
        newline := newline + 1;
      }
      FindUnique(src, LF, newline);
      if newline == |src| {
        return if |src| > maxLine then TooLong else Waiting;
      }
      var line := src[..newline + 1];
      src := src[newline + 1..];
      line := line[..|line| - 1];
      assert line == old(src)[..newline];
      if line != [] && line[|line| - 1] == CR {
        line := line[..|line| - 1];
      }
      return if |line| > maxLine then TooLong else Frame(line);
    }

    /** One read from the socket: take every frame the buffer now holds. */
    method Receive(chunk: string) returns (frames: seq<string>, open: bool)
      modifies this
      ensures Reader(frames, src, open) == Feed(maxLine, Reader([], old(src), true), chunk)
    {
      src := src + chunk;
      frames, open := [], true;
      while true
        invariant open
        invariant Drain(maxLine, Reader(frames, src, true)) == Drain(maxLine, Reader([], old(src) + chunk, true))
        decreases |src|
      {
        var d := Next();
        match d
        case Frame(line) =>
          frames := frames + [line];
        case Waiting =>
          return;
        case TooLong =>
          open := false;
          return;
      }
    }
  }

  // ---------------------------------------------------------------- what is proved

  predicate StrippedFit(max: nat, lines: seq<string>) {
    forall i :: 0 <= i < |lines| ==> |StripCr(lines[i])| <= max
  }

  /** The frames before the first line that does not fit. */
  function Fitting(max: nat, lines: seq<string>): seq<string> {
    if lines == [] || |StripCr(lines[0])| > max then []
    else [StripCr(lines[0])] + Fitting(max, lines[1..])
  }

  lemma {:induction false} FittingIsPrefix(max: nat, lines: seq<string>)
    ensures Fitting(max, lines) <= StripAll(lines)
    ensures StrippedFit(max, lines) ==> Fitting(max, lines) == StripAll(lines)
  {
    if lines != [] {
      FittingIsPrefix(max, lines[1..]);
      assert lines == [lines[0]] + lines[1..];
      StripAppend([lines[0]], lines[1..]);
    }
  }

  lemma FitCons(max: nat, line: string, rest: seq<string>)
    ensures StrippedFit(max, [line] + rest) <==> |StripCr(line)| <= max && StrippedFit(max, rest)
    ensures Fitting(max, [line] + rest) == if |StripCr(line)| > max then [] else [StripCr(line)] + Fitting(max, rest)
  {
    hide StripCr;
    var lines := [line] + rest;
    assert lines[1..] == rest && lines[0] == line;
    assert forall i :: 0 <= i < |rest| ==> rest[i] == lines[i + 1];
  }

  lemma DrainStep(max: nat, r: Reader)
    ensures var (d, rest) := Decode(max, r.buffer);
            Drain(max, r) == if d.Frame? then Drain(max, Reader(r.frames + [d.line], rest, true))
                             else Reader(r.frames, rest, d.Waiting?)
  {
    hide Decode;
  }

  lemma {:induction false} DrainMeaning(max: nat, r: Reader)
    ensures var d := Drain(max, r);
            && (d.open <==> StrippedFit(max, Lines(r.buffer)) && |Tail(r.buffer)| <= max)
            && d.frames == r.frames + Fitting(max, Lines(r.buffer))
            && (d.open ==> d.buffer == Tail(r.buffer))
    decreases |r.buffer|
  {
    hide StripCr, Find, StrippedFit, Fitting, Lines, Tail, Drain;
    DrainStep(max, r);
    var n := Find(r.buffer, LF);
    FirstLine(r.buffer);
    if n == |r.buffer| {
      FittingIsPrefix(max, []);
      NothingFits(max);
    } else {
      var rest := Lines(r.buffer[n + 1..]);
      FitCons(max, r.buffer[..n], rest);
      var (d, after) := Decode(max, r.buffer);
      if d.Frame? {
        DrainMeaning(max, Reader(r.frames + [d.line], after, true));
        assert r.frames + ([d.line] + Fitting(max, rest)) == r.frames + [d.line] + Fitting(max, rest);
      }
    }
  }

  lemma NothingFits(max: nat)
    ensures StrippedFit(max, []) && Fitting(max, []) == []
  {
  }

  /** After each chunk, what waits for its terminator is no longer than a line. */
  predicate WaitingFits(max: nat, chunks: seq<string>) {
    forall k :: 0 <= k <= |chunks| ==> |Tail(Flatten(chunks[..k]))| <= max
  }

  lemma WaitingFitsStep(max: nat, chunks: seq<string>)
    requires chunks != []
    ensures WaitingFits(max, chunks)
       <==> WaitingFits(max, chunks[..|chunks| - 1]) && |Tail(Flatten(chunks))| <= max
  {
    hide Tail, Flatten;
    var before := chunks[..|chunks| - 1];
    assert forall k :: 0 <= k < |chunks| ==> chunks[..k] == before[..k];
    assert chunks[..|chunks|] == chunks;
    assert before[..|before|] == before;
  }

  lemma StrippedFitAppend(max: nat, a: seq<string>, b: seq<string>)
    ensures StrippedFit(max, a + b) <==> StrippedFit(max, a) && StrippedFit(max, b)
  {
    hide StripCr;
    assert forall i :: 0 <= i < |a| ==> a[i] == (a + b)[i];
    assert forall i :: 0 <= i < |b| ==> b[i] == (a + b)[|a| + i];
  }

  /**
   * For every chunking: the stream stays open exactly when its frames fit and what
   * waits after each chunk fits.  While it is open, the frames are those of the whole
   * stream and the buffer is its tail; once closed, what was delivered is a prefix.
   */
  lemma {:induction false} RunMeaning(max: nat, chunks: seq<string>)
    ensures var s, r := Flatten(chunks), Run(max, chunks);
            && (r.open <==> StrippedFit(max, Lines(s)) && WaitingFits(max, chunks))
            && (r.open ==> r.frames == Frames(s) && r.buffer == Tail(s) && |r.buffer| <= max)
            && r.frames <= Frames(s)
  {
    hide StripCr, Lines, Tail, Drain, StripAll, StrippedFit, Fitting;
    if chunks == [] {
      EmptyStream(max);
      assert chunks[..0] == [];
    } else {
      var before, chunk := chunks[..|chunks| - 1], chunks[|chunks| - 1];
      var s, r := Flatten(before), Run(max, before);
      assert chunks == before + [chunk];
      FlattenLast(before, chunk);
      RunMeaning(max, before);
      StreamAppend(s, chunk);
      var more := Lines(Tail(s) + chunk);
      WaitingFitsStep(max, chunks);
      StrippedFitAppend(max, Lines(s), more);
      StripAppend(Lines(s), more);
      if r.open {
        DrainMeaning(max, r.(buffer := r.buffer + chunk));
        FittingIsPrefix(max, more);
      }
    }
  }

  lemma EmptyStream(max: nat)
    ensures Lines([]) == [] && Tail([]) == [] && Frames([]) == [] && StrippedFit(max, [])
  {
  }

  // ------------------------------------------------------------- any chunking at all

  /** Every line, counting a final `CR`, and the tail are within the limit. */
  predicate RawFit(max: nat, s: string) {
    |Tail(s)| <= max && forall i :: 0 <= i < |Lines(s)| ==> |Lines(s)[i]| <= max
  }

  /** What is unterminated in the middle of the stream is a piece of one raw line. */
  lemma TailOfPrefix(max: nat, a: string, b: string)
    requires RawFit(max, a + b)
    ensures |Tail(a)| <= max
  {
    hide Find, Lines, Tail;
    StreamAppend(a, b);
    LinesHaveNoBreaks(a);
    FindAfter(Tail(a), b, LF);
    FirstLine(Tail(a) + b);
    var n := Find(Tail(a) + b, LF);
    if n < |Tail(a) + b| {
      assert Lines(a + b)[|Lines(a)|] == (Tail(a) + b)[..n];
    }
  }

  /** Each raw line is the unterminated tail of the stream up to its terminator. */
  lemma {:induction false} LineIsATail(s: string, i: nat) returns (p: nat)
    requires i < |Lines(s)|
    ensures p <= |s| && Tail(s[..p]) == Lines(s)[i]
    decreases |s|
  {
    hide Find, Lines, Tail;
    var n := Find(s, LF);
    FirstLine(s);
    if i == 0 {
      p := n;
      FindUnique(s[..n], LF, n);
      FirstLine(s[..n]);
    } else {
      var q := LineIsATail(s[n + 1..], i - 1);
      p := n + 1 + q;
      assert s[..p][..n] == s[..n] && s[..p][n + 1..] == s[n + 1..][..q];
      FindUnique(s[..p], LF, n);
      FirstLine(s[..p]);
    }
  }

  lemma {:induction false} ChunkPrefix(chunks: seq<string>, k: nat) returns (rest: string)
    requires k <= |chunks|
    ensures Flatten(chunks) == Flatten(chunks[..k]) + rest
    decreases |chunks|
  {
    hide Flatten;
    if k == |chunks| {
      assert chunks[..k] == chunks;
      rest := [];
    } else {
      var before, last := chunks[..|chunks| - 1], chunks[|chunks| - 1];
      var part := ChunkPrefix(before, k);
      assert before[..k] == chunks[..k] && chunks == before + [last];
      FlattenLast(before, last);
      rest := part + last;
    }
  }

  lemma StripShortens(max: nat, s: string)
    requires RawFit(max, s)
    ensures StrippedFit(max, Lines(s))
  {
    hide Lines, Tail;
  }

  lemma RawFitKeepsOpen(max: nat, chunks: seq<string>)
    requires RawFit(max, Flatten(chunks))
    ensures Run(max, chunks).open
  {
    hide Run, Flatten, Lines, Tail, StripCr;
    StripShortens(max, Flatten(chunks));
    forall k | 0 <= k <= |chunks|
      ensures |Tail(Flatten(chunks[..k]))| <= max
    {
      var rest := ChunkPrefix(chunks, k);
      TailOfPrefix(max, Flatten(chunks[..k]), rest);
    }
    RunMeaning(max, chunks);
  }

  lemma FlattenTwo(a: string, b: string)
    ensures Flatten([a, b]) == a + b && Flatten([a]) == a
  {
    var one, two := [a], [a, b];
    assert one[1..] == [] && two[1..] == [b] && [b][1..] == [];
    assert Flatten([b]) == b + [] && Flatten(one) == a + [];
  }

  /** A stream cut at `p` stays open only if its part before `p` leaves a short tail. */
  lemma CutWaits(max: nat, s: string, p: nat)
    requires p <= |s| && Run(max, [s[..p], s[p..]]).open
    ensures Flatten([s[..p], s[p..]]) == s && |Tail(s[..p])| <= max
  {
    hide Run, Flatten, Lines, Tail, StripCr;
    var chunks := [s[..p], s[p..]];
    assert s[..p] + s[p..] == s;
    FlattenTwo(s[..p], s[p..]);
    RunMeaning(max, chunks);
    assert |Tail(Flatten(chunks[..1]))| <= max;
    assert chunks[..1] == [s[..p]] && Flatten([s[..p]]) == s[..p];
  }

  ghost predicate OpenHoweverCut(max: nat, s: string) {
    forall chunks :: Flatten(chunks) == s ==> Run(max, chunks).open
  }

  /** No chunking closes the stream exactly when its raw lines and its tail fit. */
  lemma OpenHoweverCutIff(max: nat, s: string)
    ensures OpenHoweverCut(max, s) <==> RawFit(max, s)
  {
    hide Run, Flatten, Lines, Tail, StripCr;
    if RawFit(max, s) {
      forall chunks | Flatten(chunks) == s
        ensures Run(max, chunks).open
      {
        RawFitKeepsOpen(max, chunks);
      }
    }
    if OpenHoweverCut(max, s) {
      assert s[..|s|] == s;
      FlattenTwo(s[..|s|], s[|s|..]);
      CutWaits(max, s, |s|);
      forall i | 0 <= i < |Lines(s)|
        ensures |Lines(s)[i]| <= max
      {
        var p := LineIsATail(s, i);
        assert s[..p] + s[p..] == s;
        FlattenTwo(s[..p], s[p..]);
        CutWaits(max, s, p);
      }
    }
  }

  lemma WholeLinePasses(line: string)
    requires LF !in line
    ensures Run(|line|, [line + CRLF]).open
  {
    hide Run, Flatten, Find, Lines, Tail;
    var whole := line + CRLF;
    FindUnique(whole, LF, |line| + 1);
    FirstLine(whole);
    EmptyStream(|line|);
    assert whole[..|line| + 1] == line + [CR] && whole[|line| + 2..] == [];
    assert StripCr(line + [CR]) == line;
    FlattenTwo(whole, []);
    NothingFlat<char>();
    WaitingFitsStep(|line|, [whole]);
    assert [whole][..0] == [];
    RunMeaning(|line|, [whole]);
  }

  lemma CutLineFails(line: string)
    requires LF !in line
    ensures !Run(|line|, [line + [CR], [LF]]).open
  {
    hide Run, Flatten, Find, Lines, Tail;
    var whole, part := line + CRLF, line + [CR];
    assert whole[..|part|] == part && whole[|part|..] == [LF];
    FindUnique(part, LF, |part|);
    FirstLine(part);
    if Run(|line|, [part, [LF]]).open {
      CutWaits(|line|, whole, |part|);
    }
  }

  /** A full-length line ending in `CR LF` passes in one read and closes the stream in two. */
  lemma ChunkingCanMatter(line: string)
    requires LF !in line
    ensures Flatten([line + CRLF]) == Flatten([line + [CR], [LF]])
    ensures Run(|line|, [line + CRLF]).open && !Run(|line|, [line + [CR], [LF]]).open
  {
    hide Run, Flatten;
    WholeLinePasses(line);
    CutLineFails(line);
    FlattenTwo(line + CRLF, []);
    FlattenTwo(line + [CR], [LF]);
    assert line + [CR] + [LF] == line + CRLF;
  }

  // ---------------------------------------------------------------- what a frame holds

  /** A frame is its line, less the `CR` the line may end in. */
  lemma FrameIsLine(s: string, i: nat)
    requires i < |Frames(s)|
    ensures |Frames(s)| == |Lines(s)|
    ensures var line := Lines(s)[i];
            if line != [] && line[|line| - 1] == CR then Frames(s)[i] + [CR] == line else Frames(s)[i] == line
  {
    hide Lines;
  }

  lemma OneLine(line: string)
    requires LF !in line
    ensures Lines(line + [LF]) == [line] && Tail(line + [LF]) == []
  {
    hide Find, Lines, Tail;
    var whole := line + [LF];
    FindUnique(whole, LF, |line|);
    assert whole[..|line|] == line && whole[|line| + 1..] == [];
    FirstLine(whole);
    EmptyStream(0);
  }

  lemma OneRead(max: nat, chunk: string)
    requires Run(max, [chunk]).open
    ensures Run(max, [chunk]).frames == Frames(chunk) && Run(max, [chunk]).buffer == Tail(chunk)
  {
    hide Run, Lines, Tail, Flatten;
    FlattenTwo(chunk, []);
    RunMeaning(max, [chunk]);
  }

  /** A line that ends in `CR LF`, or in `LF` alone, is delivered without its ending. */
  lemma LineIsDelivered(max: nat, line: string)
    requires LF !in line && |line| <= max
    ensures Run(max, [line + CRLF]).open && Run(max, [line + CRLF]).frames == [line]
    ensures line == [] || line[|line| - 1] != CR ==>
              Run(max, [line + [LF]]).open && Run(max, [line + [LF]]).frames == [line]
  {
    hide Run, Lines, Tail, Flatten;
    ReadOpens(max, line + [CR], line);
    assert line + [CR] + [LF] == line + CRLF;
    if line == [] || line[|line| - 1] != CR {
      ReadOpens(max, line, line);
    }
  }

  lemma ReadOpens(max: nat, raw: string, line: string)
    requires LF !in raw && |line| <= max
    requires if raw != [] && raw[|raw| - 1] == CR then raw == line + [CR] else raw == line
    ensures Run(max, [raw + [LF]]).open && Run(max, [raw + [LF]]).frames == [line]
  {
    hide Run, Lines, Tail, Flatten, StripCr;
    var whole := raw + [LF];
    OneLine(raw);
    StripOne(raw, line);
    assert Frames(whole) == [line];
    FlattenTwo(whole, []);
    NothingFlat<char>();
    EmptyStream(max);
    WaitingFitsStep(max, [whole]);
    assert [whole][..0] == [];
    NothingWaits(max);
    RunMeaning(max, [whole]);
    OneRead(max, whole);
  }

  lemma StripOne(raw: string, line: string)
    requires if raw != [] && raw[|raw| - 1] == CR then raw == line + [CR] else raw == line
    ensures StripCr(raw) == line
  {
  }

  lemma NothingWaits(max: nat)
    ensures WaitingFits(max, [])
  {
    EmptyStream(max);
    NothingFlat<char>();
  }
}
