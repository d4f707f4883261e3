/**
 Whole streams cut into reads. A read appends after the bytes held, as
 include/connection.h:43-49 describes; after each read all frames are drained, as
 Client_HandleRead does.
 */
module Streams {
  import opened Basics
  import opened Connections
  import opened Framing

  // ---------------------------------------------------------------- lines

  /** The complete lines of a stream, each with its CR LF. */
  ghost function Lines(s: string): seq<string> {
    var c := FirstCrlf(s);
    if c < |s| then [s[..c + 2]] + Lines(s[c + 2..]) else []
  }

  /** The unfinished line at the end of a stream. */
  ghost function Rest(s: string): string {
    var c := FirstCrlf(s);
    if c < |s| then Rest(s[c + 2..]) else s
  }

  lemma FirstCrlfOfPrefix(a: string, b: string)
    requires HasCrlf(a)
    ensures FirstCrlf(a + b) == FirstCrlf(a)
  {
    var c := FirstCrlf(a);
    assert forall j :: 0 <= j <= c && CrlfAt(a + b, j) ==> CrlfAt(a, j);
    assert CrlfAt(a + b, c);
    FirstCrlfUnique(a + b, c);
  }

  lemma {:induction false} RestHasNoCrlf(s: string)
    ensures !HasCrlf(Rest(s))
    decreases |s|
  {
    var c := FirstCrlf(s);
    if c < |s| {
      RestHasNoCrlf(s[c + 2..]);
    }
  }

  lemma LinesStep(s: string, line: string, tail: string)
    requires s == line + tail && HasCrlf(line) && FirstCrlf(line) == |line| - 2
    ensures Lines(s) == [line] + Lines(tail) && Rest(s) == Rest(tail)
  {
    FirstCrlfOfPrefix(line, tail);
    assert s[..|line|] == line && s[|line|..] == tail;
  }

  lemma FirstLine(s: string) returns (line: string, tail: string)
    requires HasCrlf(s)
    ensures s == line + tail && HasCrlf(line) && FirstCrlf(line) == |line| - 2
    ensures |tail| < |s|
  {
    var c := FirstCrlf(s);
    line, tail := s[..c + 2], s[c + 2..];
    assert forall j :: 0 <= j <= c && CrlfAt(line, j) ==> CrlfAt(s, j);
    assert CrlfAt(line, c);
    FirstCrlfUnique(line, c);
  }

  lemma {:induction false} LinesOfConcatenation(a: string, b: string)
    ensures Lines(a + b) == Lines(a) + Lines(Rest(a) + b)
    ensures Rest(a + b) == Rest(Rest(a) + b)
    decreases |a|
  {
    if HasCrlf(a) {
      var line, tail := FirstLine(a);
      LinesStep(a, line, tail);
      assert a + b == line + (tail + b);
      LinesStep(a + b, line, tail + b);
      LinesOfConcatenation(tail, b);
      Associative([line], Lines(tail), Lines(Rest(tail) + b));
    }
  }

  // ---------------------------------------------------------------- well-formed streams

  /** An unfinished line short enough that none of it has been cut off yet. */
  ghost predicate CanFinish(rest: string) {
    |rest| <= MSG_SIZE - 1
  }

  ghost predicate ShortLines(ls: seq<string>) {
    forall i :: 0 <= i < |ls| ==> |ls[i]| <= MSG_SIZE
  }

  /** No line, with its CR LF, exceeds the 512 bytes of section 2.3 of RFC 2812. */
  ghost predicate Good(s: string) {
    ShortLines(Lines(s)) && CanFinish(Rest(s))
  }

  lemma UnfinishedPrefix(r: string, b: string)
    requires !HasCrlf(r) && Good(r + b)
    ensures CanFinish(r)
    ensures |r| == MSG_SIZE - 1 && b != "" ==> b[0] == '\n' && FirstCrlf(r + b) == MSG_SIZE - 2
  {
    var c := FirstCrlf(r + b);
    if c < |r + b| {
      assert Lines(r + b)[0] == (r + b)[..c + 2];
      assert c + 1 < |r| ==> CrlfAt(r, c);
    }
  }

  lemma ShortLinesConcat(a: seq<string>, b: seq<string>)
    ensures ShortLines(a + b) <==> ShortLines(a) && ShortLines(b)
  {
    if ShortLines(a + b) {
      assert forall i :: 0 <= i < |a| ==> a[i] == (a + b)[i];
      assert forall i :: 0 <= i < |b| ==> b[i] == (a + b)[|a| + i];
    }
  }

  lemma GoodPrefix(a: string, b: string)
    requires Good(a + b)
    ensures Good(a)
    ensures Good(Rest(a) + b)
  {
    LinesOfConcatenation(a, b);
    RestHasNoCrlf(a);
    ShortLinesConcat(Lines(a), Lines(Rest(a) + b));
    UnfinishedPrefix(Rest(a), b);
  }

  // ---------------------------------------------------------------- one buffer full

  ghost function Delivered(fs: seq<Frame>): seq<string> {
    seq(|fs|, i requires 0 <= i < |fs| => fs[i].Delivered())
  }

  /** A line delivered while its LF is still to come: 511 bytes of it are held. */
  ghost function Early(rest: string): seq<string> {
    if |rest| == MSG_SIZE - 1 then [rest[..MSG_SIZE - 2] + CRLF] else []
  }

  ghost function Kept(rest: string): string {
    if |rest| == MSG_SIZE - 1 then rest[MSG_SIZE - 2..] else rest
  }

  lemma DeliveredStep(f: Frame, fs: seq<Frame>)
    ensures Delivered([f] + fs) == [f.Delivered()] + Delivered(fs)
  {
  }

  lemma DeliveredAppend(a: seq<Frame>, b: seq<Frame>)
    ensures Delivered(a + b) == Delivered(a) + Delivered(b)
  {
  }

  lemma FramesOfLongLine(h: string)
    requires |h| == MSG_SIZE - 1 && !HasCrlf(h)
    ensures Delivered(Frames(h)) == [h[..MSG_SIZE - 2] + CRLF] && Leftover(h) == h[MSG_SIZE - 2..]
  {
    var cut, kept := Cut(h[..MSG_SIZE - 2]), h[MSG_SIZE - 2..];
    assert |kept| == 1 && TakeFrame(kept).None? && Frames(kept) == [];
    assert Frames(h) == [cut];
  }

  lemma FramesOfShortRest(h: string)
    requires |h| <= MSG_SIZE - 2 && !HasCrlf(h)
    ensures Delivered(Frames(h)) == [] && Leftover(h) == h
  {
    assert TakeFrame(h).None?;
  }

  lemma FrameBeforeRest(h: string)
    requires FirstCrlf(h) < |h|
    ensures var line, rest := h[..FirstCrlf(h) + 2], h[FirstCrlf(h) + 2..];
            && Delivered(Frames(h)) == [line] + Delivered(Frames(rest)) && Leftover(h) == Leftover(rest)
            && Lines(h) == [line] + Lines(rest) && Rest(h) == Rest(rest)
  {
    var c := FirstCrlf(h);
    assert TakeFrame(h) == Some(Whole(h[..c + 2]));
    DeliveredStep(Whole(h[..c + 2]), Frames(h[c + 2..]));
  }

  lemma {:induction false} FramesOfGoodBuffer(h: string)
    requires |h| <= MSG_SIZE && CanFinish(Rest(h))
    ensures Delivered(Frames(h)) == Lines(h) + Early(Rest(h))
    ensures Leftover(h) == Kept(Rest(h))
    decreases |h|
  {
    var c := FirstCrlf(h);
    if c < |h| {
      FrameBeforeRest(h);
      FramesOfGoodBuffer(h[c + 2..]);
      Associative([h[..c + 2]], Lines(h[c + 2..]), Early(Rest(h)));
    } else if |h| == MSG_SIZE - 1 {
      FramesOfLongLine(h);
    } else {
      FramesOfShortRest(h);
    }
  }

  // ---------------------------------------------------------------- runs of reads

  ghost function Received(chunks: seq<string>): string {
    if chunks == [] then "" else Received(chunks[..|chunks| - 1]) + chunks[|chunks| - 1]
  }

  /** The frames drained and the bytes held after a sequence of reads. */
  ghost function ReadRun(chunks: seq<string>): (seq<Frame>, string) {
    if chunks == [] then ([], "")
    else
      var (fs, held) := ReadRun(chunks[..|chunks| - 1]);
      var h := held + chunks[|chunks| - 1];
      (fs + Frames(h), Leftover(h))
  }

  /** No read brings more than the store has room for. */
  ghost predicate FitStore(chunks: seq<string>) {
    forall i :: 0 <= i < |chunks| ==> |ReadRun(chunks[..i]).1| + |chunks[i]| <= MSG_SIZE
  }

  lemma FitStorePrefix(chunks: seq<string>)
    requires FitStore(chunks) && chunks != []
    ensures FitStore(chunks[..|chunks| - 1])
  {
    var before := chunks[..|chunks| - 1];
    forall i | 0 <= i < |before|
      ensures |ReadRun(before[..i]).1| + |before[i]| <= MSG_SIZE
    {
      assert before[..i] == chunks[..i];
    }
  }

  /** For every stream and every way of reading it, no byte is lost, repeated or reordered. */
  lemma {:induction false} ReadsConserveStream(chunks: seq<string>)
    ensures BytesOf(ReadRun(chunks).0) + ReadRun(chunks).1 == Received(chunks)
  {
    if chunks != [] {
      var before, chunk := chunks[..|chunks| - 1], chunks[|chunks| - 1];
      ReadsConserveStream(before);
      var (fs, held) := ReadRun(before);
      FramesConserve(held + chunk);
      BytesOfAppend(fs, Frames(held + chunk));
      Associative(BytesOf(fs), BytesOf(Frames(held + chunk)), Leftover(held + chunk));
      Associative(BytesOf(fs), held, chunk);
    }
  }

  ghost function NonBare(ls: seq<string>): seq<string> {
    if ls == [] then []
    else if ls[0] == CRLF then NonBare(ls[1..])
    else [ls[0]] + NonBare(ls[1..])
  }

  lemma {:induction false} NonBareAppend(a: seq<string>, b: seq<string>)
    ensures NonBare(a + b) == NonBare(a) + NonBare(b)
  {
    if a == [] {
      assert a + b == b;
    } else {
      assert (a + b)[1..] == a[1..] + b;
      NonBareAppend(a[1..], b);
    }
  }

  /** How many reads end 511 bytes into a line whose LF has not arrived. */
  ghost function EarlyReads(chunks: seq<string>): nat {
    if chunks == [] then 0
    else
      EarlyReads(chunks[..|chunks| - 1])
      + if chunks[|chunks| - 1] != "" && |Rest(Received(chunks))| == MSG_SIZE - 1 then 1 else 0
  }

  lemma EarlyLine(r: string, chunk: string)
    requires !HasCrlf(r) && |r| == MSG_SIZE - 1 && chunk != "" && Good(r + chunk)
    ensures r + chunk == (r[..MSG_SIZE - 2] + CRLF) + chunk[1..]
    ensures Kept(r) + chunk == CRLF + chunk[1..]
  {
    UnfinishedPrefix(r, chunk);
    assert CrlfAt(r + chunk, MSG_SIZE - 2);
    assert r == r[..MSG_SIZE - 2] + ['\r'] && chunk == ['\n'] + chunk[1..];
  }

  lemma FirstCrlfOfEarly(r: string)
    requires !HasCrlf(r) && |r| == MSG_SIZE - 1
    ensures var line := r[..MSG_SIZE - 2] + CRLF;
            HasCrlf(line) && FirstCrlf(line) == |line| - 2
  {
    var line := r[..MSG_SIZE - 2] + CRLF;
    assert forall j :: 0 <= j < MSG_SIZE - 2 && CrlfAt(line, j) ==> CrlfAt(r, j);
    FirstCrlfUnique(line, MSG_SIZE - 2);
  }

  /** The LF that completes a line of which 511 bytes had arrived. */
  lemma EarlyLineCompleted(r: string, chunk: string)
    requires !HasCrlf(r) && |r| == MSG_SIZE - 1 && chunk != "" && Good(r + chunk)
    ensures Lines(r + chunk) == Early(r) + Lines(chunk[1..])
    ensures Rest(r + chunk) == Rest(chunk[1..])
    ensures Kept(r) + chunk == CRLF + chunk[1..]
  {
    EarlyLine(r, chunk);
    FirstCrlfOfEarly(r);
    LinesStep(r + chunk, r[..MSG_SIZE - 2] + CRLF, chunk[1..]);
  }

  lemma TakeBareCrlf(later: string)
    ensures Frames(CRLF + later) == [Whole(CRLF)] + Frames(later)
    ensures Leftover(CRLF + later) == Leftover(later)
  {
    var h := CRLF + later;
    FirstCrlfUnique(h, 0);
    assert h[..2] == CRLF && h[2..] == later;
    assert TakeFrame(h) == Some(Whole(CRLF));
  }

  lemma FramesAfterBareCrlf(later: string)
    requires |later| <= MSG_SIZE - 2 && CanFinish(Rest(later))
    ensures Delivered(Frames(CRLF + later)) == [CRLF] + (Lines(later) + Early(Rest(later)))
    ensures Leftover(CRLF + later) == Kept(Rest(later))
  {
    TakeBareCrlf(later);
    FramesOfGoodBuffer(later);
    DeliveredStep(Whole(CRLF), Frames(later));
  }

  lemma NonBareEarly(rest: string)
    ensures NonBare(Early(rest)) == Early(rest)
  {
    if |rest| == MSG_SIZE - 1 {
      assert Early(rest)[1..] == [];
    }
  }

  /**
   What one read adds, given the unfinished line `r` before it. If 511 bytes of it had
   arrived it has been delivered already, and its LF only completes a bare CR LF.
   */
  lemma ReadAdds(r: string, chunk: string)
    requires !HasCrlf(r) && Good(r + chunk) && |Kept(r) + chunk| <= MSG_SIZE
    ensures var fs, rest := Frames(Kept(r) + chunk), Rest(r + chunk);
            && Early(r) + NonBare(Delivered(fs)) == NonBare(Lines(r + chunk)) + Early(rest)
            && |fs| == |Lines(r + chunk)| + (if chunk != "" && |rest| == MSG_SIZE - 1 then 1 else 0)
            && Leftover(Kept(r) + chunk) == Kept(rest)
  {
    UnfinishedPrefix(r, chunk);
    if chunk == "" {
      EmptyReadAdds(r);
      assert r + chunk == r && Kept(r) + chunk == Kept(r);
    } else if |r| == MSG_SIZE - 1 {
      EarlyReadAdds(r, chunk);
    } else {
      FramesOfGoodBuffer(r + chunk);
      NonBareAppend(Lines(r + chunk), Early(Rest(r + chunk)));
      NonBareEarly(Rest(r + chunk));
    }
  }

  lemma EmptyReadAdds(r: string)
    requires !HasCrlf(r) && CanFinish(r)
    ensures Rest(r) == r && Lines(r) == [] && Frames(Kept(r)) == [] && Leftover(Kept(r)) == Kept(r)
    ensures Early(r) + NonBare(Delivered([])) == NonBare([]) + Early(r)
  {
    assert TakeFrame(Kept(r)).None?;
  }

  lemma EarlyReadAdds(r: string, chunk: string)
    requires !HasCrlf(r) && |r| == MSG_SIZE - 1 && chunk != "" && Good(r + chunk) && |Kept(r) + chunk| <= MSG_SIZE
    ensures var fs, rest := Frames(Kept(r) + chunk), Rest(r + chunk);
            && Early(r) + NonBare(Delivered(fs)) == NonBare(Lines(r + chunk)) + Early(rest)
            && |fs| == |Lines(r + chunk)| + (if |rest| == MSG_SIZE - 1 then 1 else 0)
            && Leftover(Kept(r) + chunk) == Kept(rest)
  {
    var later := chunk[1..];
    var rest := Rest(later);
    EarlyLineCompleted(r, chunk);
    FramesAfterBareCrlf(later);
    NonBareEarly(r);
    NonBareEarly(rest);
    BareAmong(Early(r), Lines(later), Early(rest));
  }

  lemma BareAmong(early: seq<string>, lines: seq<string>, tail: seq<string>)
    requires NonBare(early) == early && NonBare(tail) == tail
    ensures early + NonBare([CRLF] + (lines + tail)) == NonBare(early + lines) + tail
  {
    assert ([CRLF] + (lines + tail))[1..] == lines + tail;
    NonBareAppend(lines, tail);
    NonBareAppend(early, lines);
  }

  ghost predicate Delivers(chunks: seq<string>) {
    var (fs, held) := ReadRun(chunks);
    var s := Received(chunks);
    && NonBare(Delivered(fs)) == NonBare(Lines(s)) + Early(Rest(s))
    && |fs| == |Lines(s)| + EarlyReads(chunks)
    && held == Kept(Rest(s))
  }

  lemma OneMoreRead(before: seq<string>, chunk: string)
    requires FitStore(before + [chunk]) && Good(Received(before) + chunk) && Delivers(before)
    ensures Delivers(before + [chunk])
  {
    var chunks := before + [chunk];
    assert chunks[..|before|] == before;
    var (fs, held) := ReadRun(before);
    var s, r := Received(before), Rest(Received(before));
    var added := Frames(held + chunk);
    LinesOfConcatenation(s, chunk);
    RestHasNoCrlf(s);
    GoodPrefix(s, chunk);
    ReadAdds(r, chunk);
    DeliveredAppend(fs, added);
    NonBareAppend(Delivered(fs), Delivered(added));
    NonBareAppend(Lines(s), Lines(r + chunk));
    Associative(NonBare(Lines(s)), Early(r), NonBare(Delivered(added)));
    Associative(NonBare(Lines(s)), NonBare(Lines(r + chunk)), Early(Rest(r + chunk)));
  }

  lemma NoReadsYet()
    ensures Delivers([])
  {
    assert Received([]) == "" && FirstCrlf("") == 0;
  }

  lemma {:induction false} GoodIsDelivered(chunks: seq<string>)
    requires FitStore(chunks) && Good(Received(chunks))
    ensures Delivers(chunks)
  {
    if chunks == [] {
      NoReadsYet();
    } else {
      var before, chunk := chunks[..|chunks| - 1], chunks[|chunks| - 1];
      assert chunks == before + [chunk];
      GoodPrefix(Received(before), chunk);
      FitStorePrefix(chunks);
      GoodIsDelivered(before);
      OneMoreRead(before, chunk);
    }
  }

  // ---------------------------------------------------------------- no longer line is delivered

  lemma {:induction false} FramesAreShort(h: string)
    requires |h| <= MSG_SIZE
    ensures ShortLines(Delivered(Frames(h)))
    decreases |h|
  {
    match TakeFrame(h)
    case None =>
    case Some(f) =>
      FramesAreShort(h[|f.bytes|..]);
      DeliveredStep(f, Frames(h[|f.bytes|..]));
      ShortLinesConcat([f.Delivered()], Delivered(Frames(h[|f.bytes|..])));
  }

  lemma {:induction false} ReadsAreShort(chunks: seq<string>)
    requires FitStore(chunks)
    ensures ShortLines(Delivered(ReadRun(chunks).0)) && |ReadRun(chunks).1| <= MSG_SIZE - 2
  {
    if chunks != [] {
      var before, chunk := chunks[..|chunks| - 1], chunks[|chunks| - 1];
      var (fs, held) := ReadRun(before);
      FitStorePrefix(chunks);
      ReadsAreShort(before);
      FramesAreShort(held + chunk);
      LeftoverIsShort(held + chunk);
      DeliveredAppend(fs, Frames(held + chunk));
      ShortLinesConcat(Delivered(fs), Delivered(Frames(held + chunk)));
    }
  }

  lemma {:induction false} NonBareShort(ls: seq<string>)
    ensures ShortLines(NonBare(ls)) <==> ShortLines(ls)
  {
    if ls != [] {
      NonBareShort(ls[1..]);
      ShortLinesConcat([ls[0]], ls[1..]);
      ShortLinesConcat([ls[0]], NonBare(ls[1..]));
      assert ls == [ls[0]] + ls[1..];
    }
  }

  lemma DeliveredIsGood(chunks: seq<string>)
    requires FitStore(chunks) && Delivers(chunks)
    ensures Good(Received(chunks))
  {
    var s := Received(chunks);
    ReadsAreShort(chunks);
    NonBareShort(Delivered(ReadRun(chunks).0));
    ShortLinesConcat(NonBare(Lines(s)), Early(Rest(s)));
    NonBareShort(Lines(s));
  }

  /**
   For every stream and every way of cutting it into reads that fit the store: apart from
   bare CR LF, the frames are the complete lines in order, plus the unfinished line if 511
   bytes of it have arrived, with one frame more than there are lines for each read that
   ends 511 bytes into a line, if and only if no line exceeds 512 bytes with its CR LF and
   the unfinished line has at most 511.
   */
  lemma ReadsDeliverLinesIff(chunks: seq<string>)
    requires FitStore(chunks)
    ensures Delivers(chunks) <==>
              (forall line :: line in Lines(Received(chunks)) ==> |line| <= 512) && |Rest(Received(chunks))| <= 511
  {
    var lines := Lines(Received(chunks));
    assert ShortLines(lines) <==> forall line :: line in lines ==> |line| <= 512;
    if Good(Received(chunks)) {
      GoodIsDelivered(chunks);
    } else if Delivers(chunks) {
      DeliveredIsGood(chunks);
    }
  }

  // ---------------------------------------------------------------- a line that is too long

  lemma CutFrame(h: string, head: string, tail: string)
    requires h == head + tail && |head| == MSG_SIZE - 2 && 1 <= |tail| <= 2 && !HasCrlf(h)
    ensures Frames(h) == [Cut(head)] && Leftover(h) == tail
  {
    assert h[..MSG_SIZE - 2] == head && h[MSG_SIZE - 2..] == tail;
    if HasCrlf(tail) {
      var i :| 0 <= i < |tail| && CrlfAt(tail, i);
      assert CrlfAt(h, MSG_SIZE - 2 + i);
    }
    assert TakeFrame(tail).None?;
  }

  lemma WholeLine(h: string, word: string)
    requires NoCr(word) && h == word + CRLF && |h| <= MSG_SIZE
    ensures Frames(h) == [Whole(h)] && Leftover(h) == ""
  {
    assert CrlfAt(h, |word|);
    FirstCrlfUnique(h, |word|);
    assert h[..|h|] == h && h[|h|..] == "";
    assert TakeFrame("").None?;
  }

  lemma TwoFrames(a: string, b: string, fs: seq<Frame>, held: string, gs: seq<Frame>, left: string)
    requires Frames(a) == fs && Leftover(a) == held && Frames(held + b) == gs && Leftover(held + b) == left
    ensures ReadRun([a] + [b]) == (fs + gs, left)
  {
    assert [a][..0] == [] && "" + a == a;
    assert ReadRun([a]) == ([] + fs, held);
    assert [] + fs == fs;
    assert ([a] + [b])[..1] == [a];
  }

  lemma LongLineIsLine(head: string, tail: string, more: string)
    requires NoCr(head) && NoCr(more) && tail == more + CRLF
    ensures Lines(head + tail) == [head + tail]
  {
    var line := head + tail;
    assert line == (head + more) + CRLF;
    assert CrlfAt(line, |head| + |more|);
    assert forall i :: 0 <= i < |head| + |more| ==> line[i] == (head + more)[i];
    FirstCrlfUnique(line, |head| + |more|);
    assert line + "" == line && FirstCrlf("") == 0;
    LinesStep(line, line, "");
  }

  /**
   The rest of a line that is too long is not discarded: a line of 513 to 1022 bytes, of
   which 512 come in a first read, is delivered as two messages.
   */
  lemma LongLineIsSplit(head: string, more: string)
    requires NoCr(head) && NoCr(more) && |head| == 510 && 1 <= |more| <= 510
    ensures var tail := more + CRLF;
            && Lines(head + tail) == [head + tail] && |head + tail| > 512
            && ReadRun([head + tail[..2]] + [tail[2..]]) == ([Cut(head)] + [Whole(tail)], "")
  {
    var tail := more + CRLF;
    LongLineIsLine(head, tail, more);
    FirstHalf(head, more, tail[..2]);
    CutFrame(head + tail[..2], head, tail[..2]);
    assert tail[..2] + tail[2..] == tail;
    WholeLine(tail, more);
    TwoFrames(head + tail[..2], tail[2..], [Cut(head)], tail[..2], [Whole(tail)], "");
  }

  lemma FirstHalf(head: string, more: string, held: string)
    requires NoCr(head) && NoCr(more) && |more| >= 1 && held == (more + CRLF)[..2]
    ensures !HasCrlf(head + held)
  {
    var h := head + held;
    forall i | 0 <= i < |h|
      ensures !CrlfAt(h, i)
    {
      assert i + 1 < |h| && i < |head| ==> h[i] == head[i];
      assert i + 1 < |h| && i == |head| ==> h[i] == more[0];
    }
  }

  // ---------------------------------------------------------------- reads as written

  /**
   The frames drained and the bytes held when each read overwrites the start of the store,
   as src/connection.c:18 has it.
   */
  ghost function WrittenRun(chunks: seq<string>): (seq<Frame>, string) {
    if chunks == [] then ([], "")
    else
      var (fs, held) := WrittenRun(chunks[..|chunks| - 1]);
      var h := Overwritten(held, chunks[|chunks| - 1]);
      (fs + Frames(h), Leftover(h))
  }

  /** Every read finds the store empty, brings nothing, or brings zeros over zeros. */
  ghost predicate ReadsAligned(chunks: seq<string>) {
    forall i :: 0 <= i < |chunks| ==> KeepsBytes(ReadRun(chunks[..i]).1, chunks[i])
  }

  lemma AlignedPrefix(chunks: seq<string>)
    requires ReadsAligned(chunks) && chunks != []
    ensures ReadsAligned(chunks[..|chunks| - 1])
  {
    var before := chunks[..|chunks| - 1];
    forall i | 0 <= i < |before|
      ensures KeepsBytes(ReadRun(before[..i]).1, before[i])
    {
      assert before[..i] == chunks[..i];
    }
  }

  /** On aligned reads the code as written frames the stream as its header describes. */
  lemma {:induction false} WrittenReadsAgree(chunks: seq<string>)
    requires ReadsAligned(chunks)
    ensures WrittenRun(chunks) == ReadRun(chunks)
  {
    if chunks != [] {
      AlignedPrefix(chunks);
      WrittenReadsAgree(chunks[..|chunks| - 1]);
      OverwriteIsAppendIff(ReadRun(chunks[..|chunks| - 1]).1, chunks[|chunks| - 1]);
    }
  }

  lemma SameFramesSameBytes(s: string, t: string)
    requires Frames(s) == Frames(t) && Leftover(s) == Leftover(t)
    ensures s == t
  {
    FramesConserve(s);
    FramesConserve(t);
  }

  lemma AgreeingReadKeepsBytes(before: seq<string>, chunk: string)
    requires WrittenRun(before) == ReadRun(before) && WrittenRun(before + [chunk]) == ReadRun(before + [chunk])
    ensures KeepsBytes(ReadRun(before).1, chunk)
  {
    var (fs, held) := ReadRun(before);
    OneMoreChunk(before, chunk, fs, held, fs, held);
    var written, joined := Overwritten(held, chunk), held + chunk;
    assert Frames(written) == (fs + Frames(written))[|fs|..] == (fs + Frames(joined))[|fs|..] == Frames(joined);
    SameFramesSameBytes(written, joined);
    OverwriteIsAppendIff(held, chunk);
  }

  /** After every one of the reads, the code as written stands where the documented one does. */
  ghost predicate ReadsAgree(chunks: seq<string>) {
    forall i :: 0 <= i <= |chunks| ==> WrittenRun(chunks[..i]) == ReadRun(chunks[..i])
  }

  lemma AlignedUpTo(chunks: seq<string>, i: nat)
    requires ReadsAligned(chunks) && i <= |chunks|
    ensures ReadsAligned(chunks[..i])
  {
    forall j | 0 <= j < i
      ensures KeepsBytes(ReadRun(chunks[..i][..j]).1, chunks[..i][j])
    {
      assert chunks[..i][..j] == chunks[..j];
    }
  }

  lemma AlignedReadsAgree(chunks: seq<string>)
    requires ReadsAligned(chunks)
    ensures ReadsAgree(chunks)
  {
    forall i | 0 <= i <= |chunks|
      ensures WrittenRun(chunks[..i]) == ReadRun(chunks[..i])
    {
      AlignedUpTo(chunks, i);
      WrittenReadsAgree(chunks[..i]);
    }
  }

  lemma AgreeingReadsAligned(chunks: seq<string>, i: nat)
    requires ReadsAgree(chunks) && i < |chunks|
    ensures KeepsBytes(ReadRun(chunks[..i]).1, chunks[i])
  {
    assert chunks[..i + 1] == chunks[..i] + [chunks[i]];
    AgreeingReadKeepsBytes(chunks[..i], chunks[i]);
  }

  /** The code as written frames the stream as documented, read by read, exactly when the reads are aligned. */
  lemma WrittenReadsAgreeIff(chunks: seq<string>)
    ensures ReadsAgree(chunks) <==> ReadsAligned(chunks)
  {
    if ReadsAgree(chunks) {
      forall i | 0 <= i < |chunks|
        ensures KeepsBytes(ReadRun(chunks[..i]).1, chunks[i])
      {
        AgreeingReadsAligned(chunks, i);
      }
    } else if ReadsAligned(chunks) {
      AlignedReadsAgree(chunks);
    }
  }

  lemma OneLine(line: string, tail: string)
    requires |line| >= 2 && CrlfAt(line, |line| - 2) && !HasCrlf(tail) && |line + tail| <= MSG_SIZE - 2
    requires forall j :: 0 <= j < |line| - 2 ==> !CrlfAt(line, j)
    ensures Frames(line + tail) == [Whole(line)] && Leftover(line + tail) == tail
  {
    var s := line + tail;
    assert forall j :: 0 <= j < |line| - 2 && CrlfAt(s, j) ==> CrlfAt(line, j);
    assert CrlfAt(s, |line| - 2);
    FirstCrlfUnique(s, |line| - 2);
    assert s[..|line|] == line && s[|line|..] == tail;
    assert TakeFrame(tail).None?;
  }

  lemma OneMoreChunk(before: seq<string>, chunk: string, fs: seq<Frame>, held: string, ws: seq<Frame>, kept: string)
    requires ReadRun(before) == (fs, held) && WrittenRun(before) == (ws, kept)
    ensures ReadRun(before + [chunk]) == (fs + Frames(held + chunk), Leftover(held + chunk))
    ensures WrittenRun(before + [chunk]) ==
              (ws + Frames(Overwritten(kept, chunk)), Leftover(Overwritten(kept, chunk)))
  {
    assert (before + [chunk])[..|before|] == before;
  }

  lemma Unfinished(a: string)
    requires !HasCrlf(a) && |a| <= MSG_SIZE - 2
    ensures Frames(a) == [] && Leftover(a) == a
  {
  }

  lemma OverwrittenText(a: string, b: string, c: string)
    requires |c| == |a| + |b| && b <= c
    requires forall i :: |b| <= i < |c| ==> c[i] == if i < |a| then a[i] else '\0'
    ensures Overwritten(a, b) == c
  {
  }

  lemma FirstRead(a: string)
    requires !HasCrlf(a) && |a| <= MSG_SIZE - 2
    ensures ReadRun([a]) == ([], a) && WrittenRun([a]) == ([], a)
  {
    Unfinished(a);
    OverwrittenText("", a, a);
    OneMoreChunk([], a, [], "", [], "");
    assert [] + [a] == [a] && "" + a == a;
    assert [] + Frames(a) == [];
  }

  lemma TwoReads(a: string, b: string, joined: string, written: string)
    requires !HasCrlf(a) && |a| <= MSG_SIZE - 2
    requires joined == a + b && written == Overwritten(a, b)
    ensures ReadRun([a] + [b]) == (Frames(joined), Leftover(joined))
    ensures WrittenRun([a] + [b]) == (Frames(written), Leftover(written))
  {
    FirstRead(a);
    OneMoreChunk([a], b, [], a, [], a);
    assert [] + Frames(joined) == Frames(joined) && [] + Frames(written) == Frames(written);
  }

  lemma CommandLine(word: string, tail: string, s: string)
    requires NoCr(word) && NoCr(tail) && s == word + CRLF + tail && |s| <= MSG_SIZE - 2
    ensures Frames(s) == [Whole(word + CRLF)] && Leftover(s) == tail
  {
    assert s == (word + CRLF) + tail;
    OneLine(word + CRLF, tail);
  }

  ghost predicate NoCr(s: string) {
    '\r' !in s
  }

  lemma SplitCommand(a: string, b: string, word: string, heard: string, tail: string)
    requires NoCr(a) && NoCr(word) && NoCr(heard) && NoCr(tail)
    requires |a| + |b| <= MSG_SIZE - 2
    requires a + b == word + CRLF && Overwritten(a, b) == heard + CRLF + tail
    ensures ReadRun([a] + [b]) == ([Whole(word + CRLF)], "")
    ensures WrittenRun([a] + [b]) == ([Whole(heard + CRLF)], tail)
  {
    TwoReads(a, b, a + b, Overwritten(a, b));
    assert a + b == word + CRLF + "";
    CommandLine(word, "", a + b);
    CommandLine(heard, tail, Overwritten(a, b));
  }

  /** A command that arrives in two reads loses its beginning. */
  lemma SplitCommandIsCorrupted()
    ensures ReadRun(["NI"] + ["CK a" + CRLF]) == ([Whole("NICK a" + CRLF)], "")
    ensures WrittenRun(["NI"] + ["CK a" + CRLF]) == ([Whole("CK a" + CRLF)], ['\0', '\0'])
  {
    var a, b := "NI", "CK a" + CRLF;
    OverwrittenText(a, b, b + ['\0', '\0']);
    assert a + b == "NICK a" + CRLF;
    SplitCommand(a, b, "NICK a", "CK a", ['\0', '\0']);
  }
}
