/**
 The server among its clients: connections are accepted and reads come from them in any order.
 Whatever the order, the server goes through one run of its events, and in that run each client
 is heard as the bytes of its own reads say.
 */
module ServerWorld {
  import opened Basics
  import opened Connections
  import opened Framing
  import opened Streams
  import P = Parser
  import S = ServerState
  import I = ServerInvariant
  import Runs = ServerRuns
  import opened EndToEnd
  import opened ServerReads

  /** What the event loop meets: a new connection, or a read from one, in which no bytes are its end. */
  datatype Input = Connects(ref: S.Ref) | Reads(ref: S.Ref, bytes: string)

  /** The server, and the bytes that each connection's store holds. */
  datatype World = World(st: S.State, held: map<S.Ref, string>)

  ghost predicate CanHappen(w: World, i: Input) {
    !w.st.crashed &&
    match i
    case Connects(ref) => S.Possible(w.st, S.Accept(ref))
    case Reads(ref, bytes) =>
      && ref in w.st.heap && w.st.heap[ref].isOpen
      && ref in w.held && |w.held[ref]| + |bytes| <= MSG_SIZE
  }

  ghost function After(w: World, i: Input): World
    requires CanHappen(w, i)
  {
    match i
    case Connects(ref) => World(S.DoAccept(w.st, ref), w.held[ref := ""])
    case Reads(ref, bytes) =>
      var (st, left) := ServeRead(w.st, ref, Held(w.held[ref], false), bytes);
      World(st, w.held[ref := left.bytes])
  }

  ghost predicate Happens(ins: seq<Input>)
    decreases |ins|, 0
  {
    ins == [] || (Happens(ins[..|ins| - 1]) && CanHappen(WorldOf(ins[..|ins| - 1]), ins[|ins| - 1]))
  }

  ghost function WorldOf(ins: seq<Input>): World
    requires Happens(ins)
    decreases |ins|, 1
  {
    if ins == [] then World(S.START, map[])
    else After(WorldOf(ins[..|ins| - 1]), ins[|ins| - 1])
  }

  /** The reads of one client. */
  ghost function ChunksOf(ins: seq<Input>, ref: S.Ref): seq<string> {
    if ins == [] then []
    else
      var before, i := ChunksOf(ins[..|ins| - 1], ref), ins[|ins| - 1];
      if i.Reads? && i.ref == ref then before + [i.bytes] else before
  }

  // ---------------------------------------------------------------- the events of the server

  ghost function Receives(ref: S.Ref, ms: seq<S.Message>): (es: seq<S.Event>)
    ensures |es| == |ms| && forall i :: 0 <= i < |ms| ==> es[i] == S.Receive(ref, ms[i])
  {
    seq(|ms|, i requires 0 <= i < |ms| => S.Receive(ref, ms[i]))
  }

  /** The messages heard in a read that follows other reads of the same client. */
  ghost function HeardNext(chunks: seq<string>, bytes: string): seq<S.Message> {
    HeardFrom(P.CLEARED, Delivered(Frames(Overwritten(WrittenRun(chunks).1, bytes))))
  }

  ghost function Closing(ref: S.Ref, bytes: string): seq<S.Event> {
    if bytes == "" then [S.Close(ref)] else []
  }

  ghost function EventsOf(ins: seq<Input>): seq<S.Event> {
    if ins == [] then []
    else
      var before := ins[..|ins| - 1];
      match ins[|ins| - 1]
      case Connects(ref) => EventsOf(before) + [S.Accept(ref)]
      case Reads(ref, bytes) =>
        EventsOf(before) + (Receives(ref, HeardNext(ChunksOf(before, ref), bytes)) + Closing(ref, bytes))
  }

  /** The messages of one client among the events. */
  ghost function MessagesFrom(es: seq<S.Event>, ref: S.Ref): seq<S.Message> {
    if es == [] then []
    else if es[0].Receive? && es[0].ref == ref then [es[0].message] + MessagesFrom(es[1..], ref)
    else MessagesFrom(es[1..], ref)
  }

  lemma {:induction false} MessagesAppend(a: seq<S.Event>, b: seq<S.Event>, ref: S.Ref)
    ensures MessagesFrom(a + b, ref) == MessagesFrom(a, ref) + MessagesFrom(b, ref)
  {
    if a == [] {
      assert a + b == b;
    } else {
      assert (a + b)[1..] == a[1..] + b;
      MessagesAppend(a[1..], b, ref);
    }
  }

  lemma {:induction false} MessagesReceived(from: S.Ref, ms: seq<S.Message>, ref: S.Ref)
    ensures MessagesFrom(Receives(from, ms), ref) == if from == ref then ms else []
    decreases |ms|
  {
    if ms != [] {
      assert Receives(from, ms)[1..] == Receives(from, ms[1..]);
      MessagesReceived(from, ms[1..], ref);
    }
  }

  lemma MessagesOfRead(from: S.Ref, ms: seq<S.Message>, bytes: string, ref: S.Ref)
    ensures MessagesFrom(Receives(from, ms) + Closing(from, bytes), ref) == if from == ref then ms else []
  {
    MessagesAppend(Receives(from, ms), Closing(from, bytes), ref);
    MessagesReceived(from, ms, ref);
    assert MessagesFrom(Closing(from, bytes), ref) == [];
  }

  lemma OneMoreHeardRead(chunks: seq<string>, bytes: string)
    ensures HeardIn(WrittenBatches(chunks + [bytes])) == HeardIn(WrittenBatches(chunks)) + HeardNext(chunks, bytes)
  {
    assert (chunks + [bytes])[..|chunks|] == chunks;
    HeardSnoc(WrittenBatches(chunks), Delivered(Frames(Overwritten(WrittenRun(chunks).1, bytes))));
  }

  /** In the events of the server each client is heard as its own reads say, whatever the others send. */
  lemma {:induction false} EachIsHeard(ins: seq<Input>, ref: S.Ref)
    ensures MessagesFrom(EventsOf(ins), ref) == HeardIn(WrittenBatches(ChunksOf(ins, ref)))
  {
    if ins != [] {
      var before := ins[..|ins| - 1];
      EachIsHeard(before, ref);
      match ins[|ins| - 1]
      case Connects(r) => MessagesAppend(EventsOf(before), [S.Accept(r)], ref);
      case Reads(r, bytes) =>
        var heard := HeardNext(ChunksOf(before, r), bytes);
        MessagesAppend(EventsOf(before), Receives(r, heard) + Closing(r, bytes), ref);
        MessagesOfRead(r, heard, bytes, ref);
        OneMoreHeardRead(ChunksOf(before, ref), bytes);
    }
  }

  // ---------------------------------------------------------------- the run of the server

  ghost predicate RunsTo(es: seq<S.Event>, st: S.State) {
    Runs.Feasible(S.START, es) && Runs.Run(S.START, es) == st
  }

  /** The server has gone through these events, as far as the first on which it crashed. */
  ghost predicate GoneThrough(es: seq<S.Event>, st: S.State) {
    exists n :: 0 <= n <= |es| && RunsTo(es[..n], st) && (st.crashed || n == |es|)
  }

  lemma RunsOneMore(es: seq<S.Event>, st: S.State, e: S.Event)
    requires RunsTo(es, st) && S.Possible(st, e)
    ensures RunsTo(es + [e], S.Step(st, e))
  {
    Runs.OneMoreEvent(S.START, es, e);
  }

  lemma GoneThroughAll(es: seq<S.Event>, st: S.State)
    requires RunsTo(es, st)
    ensures GoneThrough(es, st)
  {
    assert es[..|es|] == es;
  }

  lemma GoneThroughMore(es: seq<S.Event>, more: seq<S.Event>, st: S.State)
    requires GoneThrough(es, st) && st.crashed
    ensures GoneThrough(es + more, st)
  {
    var n :| 0 <= n <= |es| && RunsTo(es[..n], st) && (st.crashed || n == |es|);
    assert (es + more)[..n] == es[..n];
  }

  lemma ReceivesCons(es: seq<S.Event>, ref: S.Ref, ms: seq<S.Message>)
    requires ms != []
    ensures es + Receives(ref, ms) == es + [S.Receive(ref, ms[0])] + Receives(ref, ms[1..])
  {
  }

  lemma {:induction false} ServingGoesThrough(es: seq<S.Event>, st: S.State, ref: S.Ref, ms: seq<S.Message>)
    requires RunsTo(es, st) && Served(st, ref)
    ensures GoneThrough(es + Receives(ref, ms), ServeAll(st, ref, ms))
    ensures ServeAll(st, ref, ms).crashed || RunsTo(es + Receives(ref, ms), ServeAll(st, ref, ms))
    decreases |ms|
  {
    if ms == [] {
      assert es + Receives(ref, ms) == es;
      GoneThroughAll(es, st);
    } else if st.crashed {
      GoneThroughAll(es, st);
      GoneThroughMore(es, Receives(ref, ms), st);
    } else {
      var e := S.Receive(ref, ms[0]);
      RunsOneMore(es, st, e);
      ReceivingKeepsServed(st, ref, ms[0]);
      ReceivesCons(es, ref, ms);
      ServingGoesThrough(es + [e], S.DoReceive(st, ref, ms[0]), ref, ms[1..]);
    }
  }

  lemma {:induction false} ServingKeepsKeys(st: S.State, ref: S.Ref, ms: seq<S.Message>)
    requires ref in st.heap
    ensures ServeAll(st, ref, ms).heap.Keys == st.heap.Keys
    decreases |ms|
  {
    if ms != [] && !st.crashed {
      Runs.ReceiveIsSteady(st, ref, ms[0]);
      ServingKeepsKeys(S.DoReceive(st, ref, ms[0]), ref, ms[1..]);
    }
  }

  lemma GoneThroughRest(es: seq<S.Event>, st: S.State)
    requires GoneThrough(es, st)
    ensures st.crashed || RunsTo(es, st)
    ensures Runs.Reachable(st)
  {
    var n :| 0 <= n <= |es| && RunsTo(es[..n], st) && (st.crashed || n == |es|);
    assert n == |es| ==> es[..n] == es;
    assert Runs.Feasible(S.START, es[..n]);
  }

  lemma ClosingGoesThrough(es: seq<S.Event>, st: S.State, ref: S.Ref, bytes: string)
    requires GoneThrough(es, st) && Served(st, ref)
    ensures GoneThrough(es + Closing(ref, bytes), ClosedAt(st, ref, bytes))
  {
    GoneThroughRest(es, st);
    if st.crashed {
      GoneThroughMore(es, Closing(ref, bytes), st);
    } else if bytes == "" {
      RunsOneMore(es, st, S.Close(ref));
      GoneThroughAll(es + [S.Close(ref)], S.DoClose(st, ref));
    } else {
      assert es + Closing(ref, bytes) == es;
    }
  }

  /** What a read does that follows other reads of the same client. */
  lemma ReadServesHeard(st: S.State, ref: S.Ref, chunks: seq<string>, bytes: string)
    requires Served(st, ref)
    ensures ServeRead(st, ref, Held(WrittenRun(chunks).1, false), bytes)
         == (ClosedAt(ServeAll(st, ref, HeardNext(chunks, bytes)), ref, bytes), Held(WrittenRun(chunks + [bytes]).1, false))
  {
    OneMoreServedRead(st, ref, chunks, bytes);
    DrainIsFraming(Overwritten(WrittenRun(chunks).1, bytes));
    FramesServeHeard(st, ref, P.CLEARED, Delivered(Frames(Overwritten(WrittenRun(chunks).1, bytes))));
  }

  /** A read that follows other reads of the same client, between any events of the others. */
  lemma ReadGoesThrough(es: seq<S.Event>, st: S.State, ref: S.Ref, chunks: seq<string>, bytes: string)
    requires RunsTo(es, st) && Served(st, ref)
    ensures var st' := ClosedAt(ServeAll(st, ref, HeardNext(chunks, bytes)), ref, bytes);
            && GoneThrough(es + (Receives(ref, HeardNext(chunks, bytes)) + Closing(ref, bytes)), st')
            && st'.heap.Keys == st.heap.Keys
  {
    var heard := HeardNext(chunks, bytes);
    ServingGoesThrough(es, st, ref, heard);
    ServingKeepsKeys(st, ref, heard);
    ServingKeepsServed(st, ref, heard);
    ClosingGoesThrough(es + Receives(ref, heard), ServeAll(st, ref, heard), ref, bytes);
    Associative(es, Receives(ref, heard), Closing(ref, bytes));
  }

  // ---------------------------------------------------------------- any order of inputs

  /** Every store holds what the reads of its own client left in it. */
  ghost predicate StoresHold(ins: seq<Input>, w: World) {
    && w.held.Keys == w.st.heap.Keys
    && forall r :: if r in w.held then w.held[r] == WrittenRun(ChunksOf(ins, r)).1 else ChunksOf(ins, r) == []
  }

  lemma ConnectionIsServed(es: seq<S.Event>, st: S.State, ref: S.Ref)
    requires RunsTo(es, st) && ref in st.heap && st.heap[ref].isOpen
    ensures Served(st, ref)
  {
    Runs.ReachableIsSettled(st);
  }

  lemma ChunksSnoc(before: seq<Input>, i: Input, ref: S.Ref)
    ensures ChunksOf(before + [i], ref) ==
              if i.Reads? && i.ref == ref then ChunksOf(before, ref) + [i.bytes] else ChunksOf(before, ref)
  {
    assert (before + [i])[..|before|] == before;
  }

  lemma StoresHoldAfter(before: seq<Input>, i: Input, w: World, w': World, left: string)
    requires StoresHold(before, w) && w'.held == w.held[i.ref := left] && w'.held.Keys == w'.st.heap.Keys
    requires i.Connects? ==> i.ref !in w.held && left == ""
    requires i.Reads? ==> i.ref in w.held && left == WrittenRun(ChunksOf(before, i.ref) + [i.bytes]).1
    ensures StoresHold(before + [i], w')
  {
    forall r
      ensures if r in w'.held then w'.held[r] == WrittenRun(ChunksOf(before + [i], r)).1
              else ChunksOf(before + [i], r) == []
    {
      ChunksSnoc(before, i, r);
    }
  }

  lemma OneMoreConnection(before: seq<Input>, w: World, ref: S.Ref)
    requires StoresHold(before, w) && GoneThrough(EventsOf(before), w.st) && CanHappen(w, Connects(ref))
    ensures StoresHold(before + [Connects(ref)], After(w, Connects(ref)))
    ensures GoneThrough(EventsOf(before) + [S.Accept(ref)], After(w, Connects(ref)).st)
  {
    GoneThroughRest(EventsOf(before), w.st);
    RunsOneMore(EventsOf(before), w.st, S.Accept(ref));
    GoneThroughAll(EventsOf(before) + [S.Accept(ref)], S.DoAccept(w.st, ref));
    StoresHoldAfter(before, Connects(ref), w, After(w, Connects(ref)), "");
  }

  lemma ReadHolds(before: seq<Input>, w: World, ref: S.Ref, bytes: string, st': S.State, left: string)
    requires StoresHold(before, w) && ref in w.held && st'.heap.Keys == w.st.heap.Keys
    requires left == WrittenRun(ChunksOf(before, ref) + [bytes]).1
    ensures StoresHold(before + [Reads(ref, bytes)], World(st', w.held[ref := left]))
  {
    var w' := World(st', w.held[ref := left]);
    assert w'.held.Keys == w.held.Keys;
    StoresHoldAfter(before, Reads(ref, bytes), w, w', left);
  }

  lemma OneMoreRead(before: seq<Input>, w: World, ref: S.Ref, bytes: string)
    requires StoresHold(before, w) && GoneThrough(EventsOf(before), w.st) && CanHappen(w, Reads(ref, bytes))
    ensures StoresHold(before + [Reads(ref, bytes)], After(w, Reads(ref, bytes)))
    ensures var heard := HeardNext(ChunksOf(before, ref), bytes);
            GoneThrough(EventsOf(before) + (Receives(ref, heard) + Closing(ref, bytes)), After(w, Reads(ref, bytes)).st)
  {
    var (st', left) := ServeRead(w.st, ref, Held(w.held[ref], false), bytes);
    GoneThroughRest(EventsOf(before), w.st);
    ConnectionIsServed(EventsOf(before), w.st, ref);
    ReadServesHeard(w.st, ref, ChunksOf(before, ref), bytes);
    ReadGoesThrough(EventsOf(before), w.st, ref, ChunksOf(before, ref), bytes);
    ReadHolds(before, w, ref, bytes, st', left.bytes);
  }

  lemma OneMoreInput(before: seq<Input>, w: World, i: Input)
    requires StoresHold(before, w) && GoneThrough(EventsOf(before), w.st) && CanHappen(w, i)
    ensures StoresHold(before + [i], After(w, i)) && GoneThrough(EventsOf(before + [i]), After(w, i).st)
  {
    assert (before + [i])[..|before|] == before;
    match i
    case Connects(ref) => OneMoreConnection(before, w, ref);
    case Reads(ref, bytes) => OneMoreRead(before, w, ref, bytes);
  }

  /**
   However connections and reads are interleaved, the server has gone through its events, as far
   as the first on which it crashed, and every store holds what its own client's reads left.
   */
  lemma {:induction false} WorldIsRun(ins: seq<Input>)
    requires Happens(ins)
    ensures GoneThrough(EventsOf(ins), WorldOf(ins).st) && StoresHold(ins, WorldOf(ins))
    decreases |ins|
  {
    if ins == [] {
      GoneThroughAll([], S.START);
    } else {
      FrontAndLast(ins);
      WorldIsRun(ins[..|ins| - 1]);
      OneMoreInput(ins[..|ins| - 1], WorldOf(ins[..|ins| - 1]), ins[|ins| - 1]);
    }
  }

  /** So whatever holds in every reachable state of the server holds whatever its clients send. */
  lemma WorldIsReachable(ins: seq<Input>)
    requires Happens(ins)
    ensures Runs.Reachable(WorldOf(ins).st)
  {
    WorldIsRun(ins);
    GoneThroughRest(EventsOf(ins), WorldOf(ins).st);
  }

  // ---------------------------------------------------------------- commands

  lemma {:induction false} ReadsFit(ins: seq<Input>, ref: S.Ref)
    requires Happens(ins) && ReadsAligned(ChunksOf(ins, ref))
    ensures FitStore(ChunksOf(ins, ref))
    decreases |ins|
  {
    if ins != [] {
      var before, i := ins[..|ins| - 1], ins[|ins| - 1];
      if i.Reads? && i.ref == ref {
        var chunks := ChunksOf(before, ref);
        assert (chunks + [i.bytes])[..|chunks|] == chunks;
        AlignedPrefix(chunks + [i.bytes]);
        ReadsFit(before, ref);
        WrittenReadsAgree(chunks);
        WorldIsRun(before);
        OneMoreFits(chunks, i.bytes);
      } else {
        ReadsFit(before, ref);
      }
    }
  }

  lemma OneMoreFits(chunks: seq<string>, bytes: string)
    requires FitStore(chunks) && |ReadRun(chunks).1| + |bytes| <= MSG_SIZE
    ensures FitStore(chunks + [bytes])
  {
    var all := chunks + [bytes];
    forall k | 0 <= k < |all|
      ensures |ReadRun(all[..k]).1| + |all[k]| <= MSG_SIZE
    {
      assert all[..k] == chunks[..k];
      assert k == |chunks| ==> chunks[..k] == chunks;
    }
  }

  /**
   Whatever the other clients send and however the reads are interleaved, the server handles from
   a client whose reads are aligned exactly the commands that it printed, in order, if and only
   if no handler sees a field that an earlier message of the client's own read left behind.
   */
  lemma EachClientIsServedIff(ins: seq<Input>, ref: S.Ref, cs: seq<Sent>)
    requires Happens(ins) && AllValid(cs)
    requires Received(ChunksOf(ins, ref)) == Flat(SentLines(cs)) && ReadsAligned(ChunksOf(ins, ref))
    ensures GoneThrough(EventsOf(ins), WorldOf(ins).st)
    ensures MessagesFrom(EventsOf(ins), ref) == CommandMessages(cs) <==> Unstale(Batches(ChunksOf(ins, ref)))
  {
    var chunks := ChunksOf(ins, ref);
    WorldIsRun(ins);
    EachIsHeard(ins, ref);
    ReadsFit(ins, ref);
    WrittenBatchesAgree(chunks);
    CommandsHeardIff(cs, chunks);
  }
}
