/**
 Client_HandleRead of src/client.c as a whole: one read into the store, then for every frame
 that conn_read_message delivers, parse_message into the struct of the read, the handler, and
 the client's queue drained. What the bytes of a client do to the server, over any reads.
 */
module ServerReads {
  import opened Basics
  import opened Framing
  import opened Connections
  import opened Streams
  import P = Parser
  import R = RoundTrip
  import S = ServerState
  import I = ServerInvariant
  import Runs = ServerRuns
  import Laws = ServerLaws
  import opened EndToEnd
  import opened ClientReads
  import opened StructReuse
  import opened ServerObject

  // ---------------------------------------------------------------- the frames of one read

  /** The state after one frame, given the struct that earlier frames left. */
  ghost function ServeFrame(st: S.State, ref: S.Ref, m: P.Fields, d: string): (st': S.State)
    requires ref in st.heap
    ensures ref in st'.heap
  {
    if Accepts(d) then
      Runs.ReceiveIsSteady(st, ref, Seen(m, d));
      S.DoReceive(st, ref, Seen(m, d))
    else S.Flush(st, ref)
  }

  /** The loop of Client_HandleRead over frames, as far as the program goes. */
  ghost function ServeFrames(st: S.State, ref: S.Ref, m: P.Fields, ds: seq<string>): (st': S.State)
    requires ref in st.heap
    ensures ref in st'.heap
    decreases |ds|
  {
    if ds == [] || st.crashed then st
    else ServeFrames(ServeFrame(st, ref, m, ds[0]), ref, ParseFrame(m, ds[0]).1, ds[1..])
  }

  /** The messages that the handlers see in those frames. */
  ghost function HeardFrom(m: P.Fields, ds: seq<string>): seq<S.Message>
    decreases |ds|
  {
    if ds == [] then []
    else if Accepts(ds[0]) then [Seen(m, ds[0])] + HeardFrom(ParseFrame(m, ds[0]).1, ds[1..])
    else HeardFrom(ParseFrame(m, ds[0]).1, ds[1..])
  }

  /** Messages handled one after the other, as far as the program goes. */
  ghost function ServeAll(st: S.State, ref: S.Ref, ms: seq<S.Message>): (st': S.State)
    requires ref in st.heap
    ensures ref in st'.heap
    decreases |ms|
  {
    if ms == [] || st.crashed then st
    else
      Runs.ReceiveIsSteady(st, ref, ms[0]);
      ServeAll(S.DoReceive(st, ref, ms[0]), ref, ms[1..])
  }

  /** A connection that the server serves. */
  ghost predicate Served(st: S.State, ref: S.Ref) {
    I.Settled(st) && ref in st.heap && st.heap[ref].isOpen
  }

  lemma ReceivingKeepsServed(st: S.State, ref: S.Ref, m: S.Message)
    requires Served(st, ref) && !st.crashed
    ensures Served(S.DoReceive(st, ref, m), ref)
  {
    Runs.ReceiveKeepsInv(st, ref, m);
    Runs.ReceiveIsSteady(st, ref, m);
  }

  lemma NothingQueued(st: S.State, ref: S.Ref)
    requires Served(st, ref)
    ensures S.Flush(st, ref) == st
  {
    Laws.NothingToFlush(st, ref);
  }

  /** Handling any sequence of messages keeps the server's invariant and the connection open. */
  lemma {:induction false} ServingKeepsServed(st: S.State, ref: S.Ref, ms: seq<S.Message>)
    requires Served(st, ref)
    ensures Served(ServeAll(st, ref, ms), ref)
    decreases |ms|
  {
    if ms != [] && !st.crashed {
      ReceivingKeepsServed(st, ref, ms[0]);
      ServingKeepsServed(S.DoReceive(st, ref, ms[0]), ref, ms[1..]);
    }
  }

  lemma ServeFirst(st: S.State, ref: S.Ref, m: S.Message, ms: seq<S.Message>)
    requires ref in st.heap && !st.crashed && ref in S.DoReceive(st, ref, m).heap
    ensures ServeAll(st, ref, [m] + ms) == ServeAll(S.DoReceive(st, ref, m), ref, ms)
  {
    assert ([m] + ms)[1..] == ms;
  }

  /** The loop over frames handles exactly the messages heard in them, in order. */
  lemma {:induction false} FramesServeHeard(st: S.State, ref: S.Ref, m: P.Fields, ds: seq<string>)
    requires Served(st, ref)
    ensures ServeFrames(st, ref, m, ds) == ServeAll(st, ref, HeardFrom(m, ds))
    decreases |ds|
  {
    if ds != [] && !st.crashed {
      var m' := ParseFrame(m, ds[0]).1;
      if Accepts(ds[0]) {
        ReceivingKeepsServed(st, ref, Seen(m, ds[0]));
        ServeFirst(st, ref, Seen(m, ds[0]), HeardFrom(m', ds[1..]));
        FramesServeHeard(S.DoReceive(st, ref, Seen(m, ds[0])), ref, m', ds[1..]);
      } else {
        NothingQueued(st, ref);
        FramesServeHeard(st, ref, m', ds[1..]);
      }
    }
  }

  // ---------------------------------------------------------------- what is heard

  /** What the messages say by their tokens alone. */
  ghost function Said(tss: seq<seq<string>>): (ms: seq<S.Message>)
    ensures |ms| == |tss| && forall i :: 0 <= i < |tss| ==> ms[i] == MessageOfTokens(tss[i])
  {
    seq(|tss|, i requires 0 <= i < |tss| => MessageOfTokens(tss[i]))
  }

  /** No handler sees a stale field in these frames. */
  ghost predicate NoneStale(m: P.Fields, ds: seq<string>)
    decreases |ds|
  {
    ds == [] || (!(Accepts(ds[0]) && SeesStale(TokensIn(ds[0]), m)) && NoneStale(ParseFrame(m, ds[0]).1, ds[1..]))
  }

  lemma SaidStep(ts: seq<string>, tss: seq<seq<string>>)
    ensures Said([ts] + tss) == [MessageOfTokens(ts)] + Said(tss)
  {
  }

  lemma ConsEqualIff<T>(x: T, xs: seq<T>, y: T, ys: seq<T>)
    ensures [x] + xs == [y] + ys <==> x == y && xs == ys
  {
    if [x] + xs == [y] + ys {
      assert ([x] + xs)[0] == x && ([y] + ys)[0] == y;
      assert xs == ([x] + xs)[1..] == ([y] + ys)[1..] == ys;
    }
  }

  /** In every read, the handlers hear what the messages say exactly when none sees a stale field. */
  lemma {:induction false} HeardIff(m: P.Fields, ds: seq<string>)
    ensures |HeardFrom(m, ds)| == |TokenLists(ds)|
    ensures HeardFrom(m, ds) == Said(TokenLists(ds)) <==> NoneStale(m, ds)
    decreases |ds|
  {
    if ds != [] {
      var m' := ParseFrame(m, ds[0]).1;
      HeardIff(m', ds[1..]);
      if Accepts(ds[0]) {
        SeenIff(m, ds[0]);
        SaidStep(TokensIn(ds[0]), TokenLists(ds[1..]));
        ConsEqualIff(Seen(m, ds[0]), HeardFrom(m', ds[1..]), MessageOfTokens(TokensIn(ds[0])), Said(TokenLists(ds[1..])));
      }
    }
  }

  // ---------------------------------------------------------------- many reads

  /** The frames of each read, when reads append to the store as include/connection.h describes. */
  ghost function Batches(chunks: seq<string>): seq<seq<string>> {
    if chunks == [] then []
    else
      var before, chunk := chunks[..|chunks| - 1], chunks[|chunks| - 1];
      Batches(before) + [Delivered(Frames(ReadRun(before).1 + chunk))]
  }

  /** The frames of each read, when it overwrites the start of the store as src/connection.c:18 has it. */
  ghost function WrittenBatches(chunks: seq<string>): seq<seq<string>> {
    if chunks == [] then []
    else
      var before, chunk := chunks[..|chunks| - 1], chunks[|chunks| - 1];
      WrittenBatches(before) + [Delivered(Frames(Overwritten(WrittenRun(before).1, chunk)))]
  }

  lemma {:induction false} BatchesAreFrames(chunks: seq<string>)
    ensures Flat(Batches(chunks)) == Delivered(ReadRun(chunks).0)
  {
    if chunks != [] {
      var before, chunk := chunks[..|chunks| - 1], chunks[|chunks| - 1];
      var (fs, held) := ReadRun(before);
      BatchesAreFrames(before);
      FlatAppend(Batches(before), Delivered(Frames(held + chunk)));
      DeliveredAppend(fs, Frames(held + chunk));
    }
  }

  /** On aligned reads the code as written makes the same frames in the same reads. */
  lemma {:induction false} WrittenBatchesAgree(chunks: seq<string>)
    requires ReadsAligned(chunks)
    ensures WrittenBatches(chunks) == Batches(chunks)
  {
    if chunks != [] {
      var before := chunks[..|chunks| - 1];
      AlignedPrefix(chunks);
      WrittenBatchesAgree(before);
      WrittenReadsAgree(before);
      OverwriteIsAppendIff(ReadRun(before).1, chunks[|chunks| - 1]);
    }
  }

  /** Each read starts with a cleared struct. */
  ghost function ServeBatches(st: S.State, ref: S.Ref, bs: seq<seq<string>>): (st': S.State)
    requires ref in st.heap
    ensures ref in st'.heap
  {
    if bs == [] then st
    else ServeFrames(ServeBatches(st, ref, bs[..|bs| - 1]), ref, P.CLEARED, bs[|bs| - 1])
  }

  ghost function HeardIn(bs: seq<seq<string>>): seq<S.Message> {
    if bs == [] then [] else HeardIn(bs[..|bs| - 1]) + HeardFrom(P.CLEARED, bs[|bs| - 1])
  }

  ghost predicate Unstale(bs: seq<seq<string>>) {
    forall i :: 0 <= i < |bs| ==> NoneStale(P.CLEARED, bs[i])
  }

  lemma {:induction false} ServeMore(st: S.State, ref: S.Ref, a: seq<S.Message>, b: seq<S.Message>)
    requires ref in st.heap
    ensures ServeAll(st, ref, a + b) == ServeAll(ServeAll(st, ref, a), ref, b)
    decreases |a|
  {
    if a == [] {
      assert a + b == b;
    } else if !st.crashed {
      Runs.ReceiveIsSteady(st, ref, a[0]);
      assert (a + b)[1..] == a[1..] + b;
      ServeMore(S.DoReceive(st, ref, a[0]), ref, a[1..], b);
    }
  }

  /** The loops over all reads handle exactly the messages heard in them, in order. */
  lemma {:induction false} BatchesServeHeard(st: S.State, ref: S.Ref, bs: seq<seq<string>>)
    requires Served(st, ref)
    ensures ServeBatches(st, ref, bs) == ServeAll(st, ref, HeardIn(bs))
  {
    if bs != [] {
      var before, b := bs[..|bs| - 1], bs[|bs| - 1];
      BatchesServeHeard(st, ref, before);
      ServingKeepsServed(st, ref, HeardIn(before));
      FramesServeHeard(ServeBatches(st, ref, before), ref, P.CLEARED, b);
      ServeMore(st, ref, HeardIn(before), HeardFrom(P.CLEARED, b));
    }
  }

  lemma {:induction false} TokenListsAppend(a: seq<string>, b: seq<string>)
    ensures TokenLists(a + b) == TokenLists(a) + TokenLists(b)
  {
    if a == [] {
      assert a + b == b;
    } else {
      assert (a + b)[1..] == a[1..] + b;
      TokenListsAppend(a[1..], b);
    }
  }

  lemma SaidAppend(a: seq<seq<string>>, b: seq<seq<string>>)
    ensures Said(a + b) == Said(a) + Said(b)
  {
  }

  lemma AppendEqualIff<T>(a: seq<T>, b: seq<T>, c: seq<T>, d: seq<T>)
    requires |a| == |c|
    ensures a + b == c + d <==> a == c && b == d
  {
    if a + b == c + d {
      assert a == (a + b)[..|a|] == (c + d)[..|c|] == c;
      assert b == (a + b)[|a|..] == (c + d)[|c|..] == d;
    }
  }

  lemma HeardSnoc(before: seq<seq<string>>, b: seq<string>)
    ensures HeardIn(before + [b]) == HeardIn(before) + HeardFrom(P.CLEARED, b)
    ensures TokenLists(Flat(before + [b])) == TokenLists(Flat(before)) + TokenLists(b)
  {
    assert (before + [b])[..|before|] == before;
    FlatAppend(before, b);
    TokenListsAppend(Flat(before), b);
  }

  lemma UnstaleSnoc(before: seq<seq<string>>, b: seq<string>)
    ensures Unstale(before + [b]) <==> Unstale(before) && NoneStale(P.CLEARED, b)
  {
    if Unstale(before + [b]) {
      assert (before + [b])[|before|] == b;
      assert forall i :: 0 <= i < |before| ==> before[i] == (before + [b])[i];
    }
  }

  /** In these reads the handlers hear what the messages say exactly when none sees a stale field. */
  ghost predicate HeardUnlessStale(bs: seq<seq<string>>) {
    && |HeardIn(bs)| == |TokenLists(Flat(bs))|
    && (HeardIn(bs) == Said(TokenLists(Flat(bs))) <==> Unstale(bs))
  }

  lemma {:induction false} HeardInIff(bs: seq<seq<string>>)
    ensures HeardUnlessStale(bs)
  {
    if bs == [] {
      NothingHeard();
    } else {
      FrontAndLast(bs);
      HeardInIff(bs[..|bs| - 1]);
      OneMoreHeard(bs[..|bs| - 1], bs[|bs| - 1]);
    }
  }

  lemma NothingHeard()
    ensures HeardUnlessStale([])
  {
    assert Said([]) == [];
  }

  lemma OneMoreHeard(before: seq<seq<string>>, b: seq<string>)
    requires HeardUnlessStale(before)
    ensures HeardUnlessStale(before + [b])
  {
    var ts, us := TokenLists(Flat(before)), TokenLists(b);
    HeardIff(P.CLEARED, b);
    HeardSnoc(before, b);
    UnstaleSnoc(before, b);
    SaidAppend(ts, us);
    AppendEqualIff(HeardIn(before), HeardFrom(P.CLEARED, b), Said(ts), Said(us));
  }

  // ---------------------------------------------------------------- commands

  ghost function CommandMessages(cs: seq<Sent>): (ms: seq<S.Message>)
    ensures |ms| == |cs| && forall i :: 0 <= i < |cs| ==> ms[i] == CommandMessage(cs[i].command)
  {
    seq(|cs|, i requires 0 <= i < |cs| => CommandMessage(cs[i].command))
  }

  /** A stream of printed commands, cut into reads that fit the store. */
  ghost predicate Sends(cs: seq<Sent>, chunks: seq<string>) {
    AllValid(cs) && Received(chunks) == Flat(SentLines(cs)) && FitStore(chunks)
  }

  lemma SaidWords(cs: seq<Sent>)
    requires AllValid(cs)
    ensures Said(SentWords(cs)) == CommandMessages(cs)
  {
    forall i | 0 <= i < |cs|
      ensures MessageOfTokens(SentWords(cs)[i]) == CommandMessage(cs[i].command)
    {
      assert cs[i].Valid();
      CommandWordsSay(cs[i].command);
    }
  }

  /**
   For every list of commands, every layout and every way of cutting their bytes into reads,
   the handlers hear exactly those commands, in order, if and only if no handler sees a field
   that an earlier message of its read left behind.
   */
  lemma CommandsHeardIff(cs: seq<Sent>, chunks: seq<string>)
    requires Sends(cs, chunks)
    ensures |HeardIn(Batches(chunks))| == |cs|
    ensures HeardIn(Batches(chunks)) == CommandMessages(cs) <==> Unstale(Batches(chunks))
  {
    CommandsArrive(cs, chunks);
    BatchesAreFrames(chunks);
    HeardInIff(Batches(chunks));
    SaidWords(cs);
  }

  /** Then the server ends in the state that handling the commands one after the other gives. */
  lemma CommandsAreServed(st: S.State, ref: S.Ref, cs: seq<Sent>, chunks: seq<string>)
    requires Served(st, ref) && Sends(cs, chunks) && Unstale(Batches(chunks))
    ensures ServeBatches(st, ref, Batches(chunks)) == ServeAll(st, ref, CommandMessages(cs))
    ensures Served(ServeBatches(st, ref, Batches(chunks)), ref)
  {
    CommandsHeardIff(cs, chunks);
    BatchesServeHeard(st, ref, Batches(chunks));
    ServingKeepsServed(st, ref, CommandMessages(cs));
  }

  /** The same for the code as written, on reads that each find the store empty. */
  lemma CommandsAreServedAsWritten(st: S.State, ref: S.Ref, cs: seq<Sent>, chunks: seq<string>)
    requires Served(st, ref) && Sends(cs, chunks) && ReadsAligned(chunks) && Unstale(Batches(chunks))
    ensures ServeBatches(st, ref, WrittenBatches(chunks)) == ServeAll(st, ref, CommandMessages(cs))
  {
    WrittenBatchesAgree(chunks);
    CommandsAreServed(st, ref, cs, chunks);
  }

  // ---------------------------------------------------------------- conditions on what is sent

  /** In this read only the first message may leave fields alone. */
  ghost predicate OnlyFirstLeaves(ds: seq<string>) {
    forall i :: 0 <= i < |ds| && LeavesFields(TokensIn(ds[i])) ==> NonBare(ds[..i]) == []
  }

  lemma {:induction false} NoneLeave(m: P.Fields, ds: seq<string>)
    requires forall i :: 0 <= i < |ds| ==> !LeavesFields(TokensIn(ds[i]))
    ensures NoneStale(m, ds)
    decreases |ds|
  {
    if ds != [] {
      assert !LeavesFields(TokensIn(ds[0]));
      NeverStale(TokensIn(ds[0]), m);
      NoneLeave(ParseFrame(m, ds[0]).1, ds[1..]);
    }
  }

  lemma PrefixAfterBare(ds: seq<string>, i: nat)
    requires i < |ds| - 1 && ds[0] == CRLF
    ensures NonBare(ds[1..][..i]) == NonBare(ds[..i + 1]) && ds[1..][i] == ds[i + 1]
  {
    assert ds[..i + 1][1..] == ds[1..][..i];
  }

  lemma BareFirst(ds: seq<string>)
    requires ds != [] && ds[0] == CRLF && OnlyFirstLeaves(ds)
    ensures OnlyFirstLeaves(ds[1..])
  {
    forall i | 0 <= i < |ds| - 1 && LeavesFields(TokensIn(ds[1..][i]))
      ensures NonBare(ds[1..][..i]) == []
    {
      PrefixAfterBare(ds, i);
      LeavingIsFirst(ds, i + 1);
    }
  }

  lemma LeavingIsFirst(ds: seq<string>, i: nat)
    requires OnlyFirstLeaves(ds) && i < |ds| && LeavesFields(TokensIn(ds[i]))
    ensures NonBare(ds[..i]) == []
  {
  }

  lemma OthersDoNotLeave(ds: seq<string>, i: nat)
    requires |ds| > 0 && ds[0] != CRLF && OnlyFirstLeaves(ds) && 0 < i < |ds|
    ensures !LeavesFields(TokensIn(ds[i]))
  {
    assert ds[..i][0] == ds[0];
  }

  /** A read in which only the first message may leave fields alone has none that sees a stale one. */
  lemma {:induction false} FirstIsHarmless(ds: seq<string>)
    requires OnlyFirstLeaves(ds)
    ensures NoneStale(P.CLEARED, ds)
    decreases |ds|
  {
    if ds != [] {
      NeverStale(TokensIn(ds[0]), P.CLEARED);
      if ds[0] == CRLF {
        BareFrameIsRejected();
        AcceptsIff(P.CLEARED, ds[0]);
        BareFirst(ds);
        FirstIsHarmless(ds[1..]);
      } else {
        forall i | 0 <= i < |ds| - 1
          ensures !LeavesFields(TokensIn(ds[1..][i]))
        {
          OthersDoNotLeave(ds, i + 1);
        }
        NoneLeave(ParseFrame(P.CLEARED, ds[0]).1, ds[1..]);
      }
    }
  }

  /** Commands that can see stale fields do no harm when each is the first of its read. */
  lemma FirstInReadIsServed(st: S.State, ref: S.Ref, cs: seq<Sent>, chunks: seq<string>)
    requires Served(st, ref) && Sends(cs, chunks)
    requires forall i :: 0 <= i < |Batches(chunks)| ==> OnlyFirstLeaves(Batches(chunks)[i])
    ensures ServeBatches(st, ref, Batches(chunks)) == ServeAll(st, ref, CommandMessages(cs))
  {
    forall i | 0 <= i < |Batches(chunks)|
      ensures NoneStale(P.CLEARED, Batches(chunks)[i])
    {
      FirstIsHarmless(Batches(chunks)[i]);
    }
    CommandsAreServed(st, ref, cs, chunks);
  }

  lemma {:induction false} InNonBare(ds: seq<string>, d: string)
    requires d in ds && d != CRLF
    ensures d in NonBare(ds)
  {
    if ds[0] != d {
      InNonBare(ds[1..], d);
    }
  }

  lemma {:induction false} InFlat<T>(ss: seq<seq<T>>, i: nat, x: T)
    requires i < |ss| && x in ss[i]
    ensures x in Flat(ss)
  {
    if i > 0 {
      InFlat(ss[1..], i - 1, x);
    }
  }

  lemma FrameOfCommand(cs: seq<Sent>, chunks: seq<string>, i: nat, d: string)
    requires Sends(cs, chunks) && i < |Batches(chunks)| && d in Batches(chunks)[i]
    ensures d == CRLF || exists k :: 0 <= k < |cs| && d == cs[k].Bytes()
  {
    if d != CRLF {
      CommandsArrive(cs, chunks);
      BatchesAreFrames(chunks);
      InFlat(Batches(chunks), i, d);
      InNonBare(Flat(Batches(chunks)), d);
      var k :| 0 <= k < |cs| && d == SentLines(cs)[k];
      assert d == cs[k].Bytes();
    }
  }

  /** Every other command is served as it was sent, in whatever reads it comes. */
  lemma PlainCommandsAreServed(st: S.State, ref: S.Ref, cs: seq<Sent>, chunks: seq<string>)
    requires Served(st, ref) && Sends(cs, chunks)
    requires forall k :: 0 <= k < |cs| ==> !CanSeeStale(cs[k].command)
    ensures ServeBatches(st, ref, Batches(chunks)) == ServeAll(st, ref, CommandMessages(cs))
  {
    forall i | 0 <= i < |Batches(chunks)|
      ensures NoneStale(P.CLEARED, Batches(chunks)[i])
    {
      forall j | 0 <= j < |Batches(chunks)[i]|
        ensures !LeavesFields(TokensIn(Batches(chunks)[i][j]))
      {
        PlainFrame(cs, chunks, i, Batches(chunks)[i][j]);
      }
      NoneLeave(P.CLEARED, Batches(chunks)[i]);
    }
    CommandsAreServed(st, ref, cs, chunks);
  }

  lemma PlainFrame(cs: seq<Sent>, chunks: seq<string>, i: nat, d: string)
    requires Sends(cs, chunks) && i < |Batches(chunks)| && d in Batches(chunks)[i]
    requires forall k :: 0 <= k < |cs| ==> !CanSeeStale(cs[k].command)
    ensures !LeavesFields(TokensIn(d))
  {
    FrameOfCommand(cs, chunks, i, d);
    if d == CRLF {
      BareFrameIsRejected();
    } else {
      var k :| 0 <= k < |cs| && d == cs[k].Bytes();
      assert cs[k].Valid();
      TokensOfSent(cs[k]);
      CommandWordsSay(cs[k].command);
    }
  }

  // ---------------------------------------------------------------- the function itself

  /** One more read, as written, after any number of them. */
  lemma OneMoreServedRead(st: S.State, ref: S.Ref, chunks: seq<string>, chunk: string)
    requires ref in st.heap
    ensures var h := Held(Overwritten(WrittenRun(chunks).1, chunk), false);
            && ServeBatches(st, ref, WrittenBatches(chunks + [chunk]))
                 == ServeFrames(ServeBatches(st, ref, WrittenBatches(chunks)), ref, P.CLEARED, Delivered(Drain(h).0))
            && Drain(h).1 == Held(WrittenRun(chunks + [chunk]).1, false)
  {
    var written := Overwritten(WrittenRun(chunks).1, chunk);
    DrainIsFraming(written);
    assert (chunks + [chunk])[..|chunks|] == chunks;
    var b := Delivered(Frames(written));
    assert (WrittenBatches(chunks) + [b])[..|WrittenBatches(chunks)|] == WrittenBatches(chunks);
  }

  lemma FramesStep(st: S.State, ref: S.Ref, m: P.Fields, h: Held)
    requires ref in st.heap && !st.crashed
    ensures var (f, after) := ReadFrame(h);
            if f.None? then Drain(h) == ([], after) && ServeFrames(st, ref, m, Delivered(Drain(h).0)) == st
            else
              var d := f.value.Delivered();
              && Drain(h).1 == Drain(after).1
              && ServeFrames(st, ref, m, Delivered(Drain(h).0))
                   == ServeFrames(ServeFrame(st, ref, m, d), ref, ParseFrame(m, d).1, Delivered(Drain(after).0))
  {
    var (f, after) := ReadFrame(h);
    if f.Some? {
      DeliveredStep(f.value, Drain(after).0);
      assert ([f.value.Delivered()] + Delivered(Drain(after).0))[1..] == Delivered(Drain(after).0);
    }
  }

  /** The C string at a pointer into the message buffer. */
  method ReadText(buf: array<char>, p: nat) returns (text: string)
    ensures text == TextAt(buf[..], p)
  {
    text := "";
    var c := p;
    while c < buf.Length && buf[c] != NUL
      invariant p <= c && text + TextAt(buf[..], c) == TextAt(buf[..], p)
    {
      assert TextAt(buf[..], c) == [buf[c]] + TextAt(buf[..], c + 1);
      Associative(text, [buf[c]], TextAt(buf[..], c + 1));
      text := text + [buf[c]];
      c := c + 1;
    }
  }

  method ReadOptional(buf: array<char>, p: Option<nat>) returns (text: Option<string>)
    ensures text == OptionalText(buf[..], p)
  {
    text := None;
    if p.Some? {
      var t := ReadText(buf, p.value);
      text := Some(t);
    }
  }

  /** The two strings of PART and TOPIC: the first has been put in lower case when the second is read. */
  method ReadBehindName(buf: array<char>, name: nat, p: Option<nat>) returns (first: string, second: Option<string>)
    modifies buf
    ensures first == TextAt(old(buf[..]), name)
    ensures second == OptionalText(S.LoweredAt(old(buf[..]), name), p)
  {
    first := ReadText(buf, name);
    LowerInPlace(buf, name);
    second := ReadOptional(buf, p);
  }

  /** The handlers that read their strings before anything is written to the message buffer. */
  method SeeUnlowered(message: P.IrcMessage, buf: array<char>) returns (seen: S.Message)
    requires !message.mtype.PART? && !message.mtype.TOPIC?
    ensures seen == MessageOfFields(message.View(), buf[..])
  {
    var first := ReadOptional(buf, message.first);
    var second := ReadOptional(buf, message.second);
    match message.mtype
    case NICK =>
      if message.parseErr == P.ERR_NONICKNAMEGIVEN { return S.NickMissing; }
      return if first.None? then S.UsesNull else S.Nick(first.value);
    case USER =>
      if message.parseErr == P.ERR_NEEDMOREPARAMS { return S.UserMissing; }
      return if first.None? || second.None? then S.UsesNull else S.User(first.value, second.value);
    case PRIVMSG =>
      if message.parseErr == P.ERR_NORECIPIENT { return S.PrivmsgNoTarget; }
      if message.parseErr == P.ERR_NOTEXTTOSEND { return S.PrivmsgNoText; }
      return if first.None? || second.None? then S.UsesNull else S.Privmsg(first.value, second.value);
    case WHOIS => return if second.None? then S.WhoisNothing else S.Whois(second.value);
    case JOIN =>
      if message.parseErr == P.ERR_NEEDMOREPARAMS { return S.JoinNothing; }
      return if first.None? then S.UsesNull else S.Join(first.value);
    case LIST => return if first.None? then S.ListAll else S.ListSome(first.value);
    case NAMES => return if first.None? then S.NamesNothing else S.NamesSome(first.value);
    case AWAY => return S.Away(first);
    case PONG => return S.Answered([]);
    case _ => return S.Answered([0]);
  }

  /** What the handler of the message's type reads through the struct, in the order in which it reads it. */
  method See(message: P.IrcMessage, buf: array<char>) returns (seen: S.Message)
    modifies buf
    ensures seen == MessageOfFields(message.View(), old(buf[..]))
  {
    match message.mtype
    case PART =>
      if message.first.None? {
        return S.UsesNull;
      }
      var name, text := ReadBehindName(buf, message.first.value, message.second);
      return S.Part(name, text);
    case TOPIC =>
      if message.parseErr == P.ERR_NEEDMOREPARAMS {
        return S.TopicNothing;
      } else if message.first.None? {
        return S.UsesNull;
      }
      var name, text := ReadBehindName(buf, message.first.value, message.second);
      return if text.None? then S.TopicQuery(name) else S.TopicSet(name, text.value);
    case _ => seen := SeeUnlowered(message, buf);
  }

  /** The end of Client_HandleRead after a read of `bytes`, if the program gets there. */
  ghost function ClosedAt(st: S.State, ref: S.Ref, bytes: string): (st': S.State)
    requires ref in st.heap
    ensures ref in st'.heap
  {
    if bytes == "" && !st.crashed then S.DoClose(st, ref) else st
  }

  /** What a read does to the server and to the bytes held, as far as the program goes; "" is the end of the stream. */
  ghost function ServeRead(st: S.State, ref: S.Ref, held: Held, bytes: string): (r: (S.State, Held))
    requires ref in st.heap
    ensures ref in r.0.heap
  {
    var h := Held(Overwritten(held.bytes, bytes), held.discard);
    (ClosedAt(ServeFrames(st, ref, P.CLEARED, Delivered(Drain(h).0)), ref, bytes), Drain(h).1)
  }

  lemma {:induction false} ServingStaysReachable(st: S.State, ref: S.Ref, ms: seq<S.Message>)
    requires Runs.Reachable(st) && Served(st, ref)
    ensures Runs.Reachable(ServeAll(st, ref, ms))
    decreases |ms|
  {
    if ms != [] && !st.crashed {
      ReceivingKeepsServed(st, ref, ms[0]);
      Runs.StepStaysReachable(st, S.Receive(ref, ms[0]));
      ServingStaysReachable(S.DoReceive(st, ref, ms[0]), ref, ms[1..]);
    }
  }

  /** A read leads from a settled state to one, and from a reachable state to one. */
  lemma ReadStaysReachable(st: S.State, ref: S.Ref, held: Held, bytes: string)
    requires Served(st, ref)
    ensures I.Settled(ServeRead(st, ref, held, bytes).0)
    ensures Runs.Reachable(st) ==> Runs.Reachable(ServeRead(st, ref, held, bytes).0)
  {
    var h := Held(Overwritten(held.bytes, bytes), held.discard);
    var heard := HeardFrom(P.CLEARED, Delivered(Drain(h).0));
    FramesServeHeard(st, ref, P.CLEARED, Delivered(Drain(h).0));
    ServingKeepsServed(st, ref, heard);
    var st' := ServeAll(st, ref, heard);
    if bytes == "" && !st'.crashed {
      Runs.CloseKeepsInv(st', ref);
    }
    if Runs.Reachable(st) {
      ServingStaysReachable(st, ref, heard);
      if bytes == "" && !st'.crashed {
        Runs.StepStaysReachable(st', S.Close(ref));
      }
    }
  }

  const CONN_RESULT_ERROR: int := -1
  const CONN_RESULT_NORMAL: int := 0
  const CONN_RESULT_CLOSE: int := 1

  /**
   Client_HandleRead, as written. If the program does what C leaves undefined, it ends there.
   */
  method HandleRead(server: Server, ref: S.Ref, conn: Connection, arrived: Option<string>) returns (result: int)
    requires Served(server.View(), ref) && !server.crashed
    requires conn.Valid() && conn.ZeroTail() && (arrived.Some? ==> |arrived.value| <= MSG_SIZE - conn.totalRead)
    modifies server, conn, conn.message, conn.store
    ensures I.Settled(server.View())
    ensures Runs.Reachable(old(server.View())) ==> Runs.Reachable(server.View())
    ensures arrived.None? ==>
              && result == CONN_RESULT_ERROR && server.View() == old(server.View())
              && conn.Valid() && conn.ZeroTail() && conn.View() == old(conn.View())
    ensures arrived.Some? ==>
              var (st, held) := ServeRead(old(server.View()), ref, old(conn.View()), arrived.value);
              && server.View() == st
              && (!st.crashed ==>
                    && conn.Valid() && conn.ZeroTail() && conn.View() == held
                    && result == (if arrived.value == "" then CONN_RESULT_CLOSE else CONN_RESULT_NORMAL))
  {
    ghost var before, held := server.View(), conn.View();
    var numRead := conn.ReadStoreBuffer(arrived);
    if numRead == -1 {
      return CONN_RESULT_ERROR;
    }
    var message := new P.IrcMessage();
    ReadStaysReachable(before, ref, held, arrived.value);
    ServeLoop(server, ref, conn, message);
    if server.crashed {
      return CONN_RESULT_NORMAL;
    }
    if numRead == 0 {
      server.Close(ref);
      return CONN_RESULT_CLOSE;
    }
    return CONN_RESULT_NORMAL;
  }

  /** The loop of Client_HandleRead: parse, handle, drain the queue. */
  method ServeLoop(server: Server, ref: S.Ref, conn: Connection, message: P.IrcMessage)
    requires Served(server.View(), ref) && !server.crashed && conn.Valid() && conn.ZeroTail()
    modifies server, conn, conn.message, conn.store, message
    ensures var h := old(conn.View());
            && server.View() == ServeFrames(old(server.View()), ref, old(message.View()), Delivered(Drain(h).0))
            && Served(server.View(), ref)
            && (!server.crashed ==> conn.Valid() && conn.ZeroTail() && conn.View() == Drain(h).1)
  {
    ghost var h, st, m := conn.View(), server.View(), message.View();
    ghost var goal := ServeFrames(st, ref, m, Delivered(Drain(h).0));
    var got := true;
    while got && !server.crashed
      invariant conn.Valid() && conn.ZeroTail() && Served(server.View(), ref)
      invariant got ==> ServeFrames(server.View(), ref, message.View(), Delivered(Drain(conn.View()).0)) == goal
      invariant got ==> Drain(conn.View()).1 == Drain(h).1
      invariant !got ==> server.View() == goal && conn.View() == Drain(h).1
      decreases |conn.View().bytes|, got
    {
      FramesStep(server.View(), ref, message.View(), conn.View());
      got := ServeOne(server, ref, conn, message);
    }
  }

  /** One round of the loop. */
  method ServeOne(server: Server, ref: S.Ref, conn: Connection, message: P.IrcMessage) returns (got: bool)
    requires Served(server.View(), ref) && !server.crashed && conn.Valid() && conn.ZeroTail()
    modifies server, conn, conn.message, conn.store, message
    ensures conn.Valid() && conn.ZeroTail() && Served(server.View(), ref)
    ensures got <==> ReadFrame(old(conn.View())).0.Some?
    ensures conn.View() == ReadFrame(old(conn.View())).1
    ensures !got ==> server.View() == old(server.View()) && message.View() == old(message.View())
    ensures got ==>
              var d := ReadFrame(old(conn.View())).0.value.Delivered();
              && server.View() == ServeFrame(old(server.View()), ref, old(message.View()), d)
              && message.View() == ParseFrame(old(message.View()), d).1
  {
    var rc;
    ghost var m, h := message.View(), conn.View();
    got, rc := ReadAndParse(conn, message);
    if got {
      ghost var d := ReadFrame(h).0.value.Delivered();
      AcceptsIff(m, d);
      if rc != -1 {
        var seen := See(message, conn.message);
        ReceivingKeepsServed(server.View(), ref, seen);
        server.Receive(ref, seen);
      } else {
        NothingQueued(server.View(), ref);
        server.TryEmptyBuffer(ref);
      }
    }
  }
}
