/**
 Runs of the server (src/client.c, src/handlers.c, src/channel.c, src/server.c): what holds in
 every state reachable by accepting, receiving and closing in any order.
 */
module ServerRuns {
  import opened Basics
  import opened ServerState
  import opened ServerInvariant

  // ---------------------------------------------------------------- what a message leaves alone

  /**
   No client appears or goes, none changes its id or whether it is open, and none but `ref`
   gets anything into an empty queue.
   */
  ghost predicate Steady(heap: map<Ref, Client>, heap': map<Ref, Client>, ref: Ref) {
    && heap'.Keys == heap.Keys
    && forall r :: r in heap ==>
         && heap'[r].id == heap[r].id && heap'[r].isOpen == heap[r].isOpen
         && (r != ref && heap[r].queue == [] ==> heap'[r].queue == [])
  }

  lemma SteadyTwice(heap: map<Ref, Client>, heap1: map<Ref, Client>, heap2: map<Ref, Client>, ref: Ref)
    requires Steady(heap, heap1, ref) && Steady(heap1, heap2, ref)
    ensures Steady(heap, heap2, ref)
  {
  }

  lemma OwnChangeIsSteady(heap: map<Ref, Client>, ref: Ref, c: Client)
    requires ref in heap && c.id == heap[ref].id && c.isOpen == heap[ref].isOpen
    ensures Steady(heap, heap[ref := c], ref)
  {
    assert heap[ref := c].Keys == heap.Keys;
  }

  lemma SendEachIsSteady(heap: map<Ref, Client>, ref: Ref, targets: set<Ref>, r: Reply)
    ensures Steady(heap, SendEach(heap, targets, r), ref)
  {
  }

  lemma SendToOneIsSteady(heap: map<Ref, Client>, ref: Ref, to: Ref, r: Reply)
    requires to in heap
    ensures Steady(heap, heap[to := SentTo(heap[to], r)], ref)
  {
    assert heap[to := SentTo(heap[to], r)].Keys == heap.Keys;
  }

  lemma EnterIsSteady(st: State, ref: Ref, name: string)
    requires ref in st.heap
    ensures Steady(st.heap, Enter(st, ref, name).heap, ref)
  {
    var n, id := Lower(name), st.heap[ref].id;
    if n in st.channels && id !in st.channels[n].members {
      var ch := st.channels[n];
      SendEachIsSteady(st.heap, ref, Targets(ch.members[id := ref], id), Joined(id, ch.name));
    }
  }

  lemma JoinOneIsSteady(st: State, ref: Ref, name: string)
    requires ref in st.heap
    ensures Steady(st.heap, JoinOne(st, ref, name).heap, ref)
  {
    if !LeadsToFreed(st, Lower(name)) {
      var st1 := Enter(st, ref, name);
      EnterIsSteady(st, ref, name);
      EnterKeepsRefs(st, ref, name);
      OwnChangeIsSteady(st1.heap, ref, JoinOne(st, ref, name).heap[ref]);
      SteadyTwice(st.heap, st1.heap, JoinOne(st, ref, name).heap, ref);
    }
  }

  lemma {:induction false} JoinAllIsSteady(st: State, ref: Ref, names: seq<string>)
    requires ref in st.heap
    ensures Steady(st.heap, JoinAll(st, ref, names).heap, ref)
  {
    if names != [] {
      var n := |names| - 1;
      var st1 := JoinAll(st, ref, names[..n]);
      JoinAllIsSteady(st, ref, names[..n]);
      if !st1.crashed {
        JoinOneIsSteady(st1, ref, names[n]);
        SteadyTwice(st.heap, st1.heap, JoinOne(st1, ref, names[n]).heap, ref);
      }
    }
  }

  lemma PushIsSteady(st: State, ref: Ref, rs: seq<Reply>)
    requires ref in st.heap
    ensures Steady(st.heap, Push(st, ref, rs).heap, ref)
  {
    OwnChangeIsSteady(st.heap, ref, Pushed(st.heap[ref], rs));
  }

  lemma TryRegisterIsSteady(st: State, ref: Ref)
    requires ref in st.heap
    ensures Steady(st.heap, TryRegister(st, ref).heap, ref)
  {
    var c := st.heap[ref];
    if !c.registered && c.receivedUser && c.receivedNick {
      var d := c.(registered := true);
      OwnChangeIsSteady(st.heap, ref, d);
      OwnChangeIsSteady(st.heap[ref := d], ref, Pushed(d, [Welcome(c.nickname, c.username)]));
      SteadyTwice(st.heap, st.heap[ref := d], TryRegister(st, ref).heap, ref);
    }
  }

  lemma NickIsSteady(st: State, ref: Ref, nick: string)
    requires ref in st.heap
    ensures Steady(st.heap, HandleNick(st, ref, nick).heap, ref)
  {
    if nick in st.nicks {
      PushIsSteady(st, ref, [NickInUse(nick)]);
    } else if |nick| <= NICK_SIZE {
      var st1 := TakeNick(st, ref, nick);
      OwnChangeIsSteady(st.heap, ref, st1.heap[ref]);
      TryRegisterIsSteady(st1, ref);
      SteadyTwice(st.heap, st1.heap, TryRegister(st1, ref).heap, ref);
    }
  }

  lemma UserIsSteady(st: State, ref: Ref, user: string, full: string)
    requires ref in st.heap
    ensures Steady(st.heap, HandleUser(st, ref, user, full).heap, ref)
  {
    if st.heap[ref].registered {
      PushIsSteady(st, ref, [AlreadyRegistered]);
    } else {
      var st1 := WithClient(st, ref, WithUser(st.heap[ref], user, full));
      OwnChangeIsSteady(st.heap, ref, st1.heap[ref]);
      TryRegisterIsSteady(st1, ref);
      SteadyTwice(st.heap, st1.heap, TryRegister(st1, ref).heap, ref);
    }
  }

  lemma PrivmsgIsSteady(st: State, ref: Ref, target: string, text: string)
    requires ref in st.heap
    ensures Steady(st.heap, HandlePrivmsg(st, ref, target, text).heap, ref)
  {
    var id := st.heap[ref].id;
    if IsChannelName(target) {
      if target in st.channels {
        var ch := st.channels[target];
        SendEachIsSteady(st.heap, ref, Targets(ch.members, id), Private(id, ch.name, text));
      }
    } else {
      PrivateIsSteady(st, ref, target, text);
    }
  }

  lemma PrivateIsSteady(st: State, ref: Ref, target: string, text: string)
    requires ref in st.heap && !IsChannelName(target)
    ensures Steady(st.heap, HandlePrivmsg(st, ref, target, text).heap, ref)
  {
    var id := st.heap[ref].id;
    if IdOf(st, target) == 0 {
      PushIsSteady(st, ref, [NoSuchNick(target)]);
    } else if IdOf(st, target) in st.clients && st.clients[IdOf(st, target)] in st.heap {
      var to := st.clients[IdOf(st, target)];
      var st1 := WithClient(st, to, SentTo(st.heap[to], Private(id, target, text)));
      SendToOneIsSteady(st.heap, ref, to, Private(id, target, text));
      if st.heap[to].away.Some? {
        var rs := [IsAway(st.heap[to].nickname, st.heap[to].away.value)];
        PushIsSteady(st1, ref, rs);
        SteadyTwice(st.heap, st1.heap, Push(st1, ref, rs).heap, ref);
      }
    }
  }

  lemma PartIsSteady(st: State, ref: Ref, name: string, text: Option<string>)
    requires ref in st.heap
    ensures Steady(st.heap, HandlePart(st, ref, name, text).heap, ref)
  {
    var n, id := Lower(name), st.heap[ref].id;
    if n !in st.channels {
      PushIsSteady(st, ref, [NoSuchChannel(n)]);
    } else if id !in st.channels[n].members {
      PushIsSteady(st, ref, [NotOnChannel(st.channels[n].name)]);
    } else {
      var ch := st.channels[n];
      SendEachIsSteady(st.heap, ref, Targets(ch.members, id), Parted(id, ch.name, text));
    }
  }

  lemma WhoisIsSteady(st: State, ref: Ref, mask: string)
    requires ref in st.heap
    ensures Steady(st.heap, HandleWhois(st, ref, mask).heap, ref)
  {
    if IdOf(st, mask) == 0 {
      PushIsSteady(st, ref, [NoSuchNick(mask)]);
    } else if IdOf(st, mask) in st.clients && st.clients[IdOf(st, mask)] in st.heap {
      var q := st.heap[st.clients[IdOf(st, mask)]].id;
      PushIsSteady(st, ref, [WhoisUser(q), WhoisServer(q), EndOfWhois(q)]);
    }
  }

  lemma TopicIsSteady(st: State, ref: Ref, name: string, topic: string)
    requires ref in st.heap
    ensures Steady(st.heap, HandleTopicQuery(st, ref, name).heap, ref)
    ensures HandleTopicSet(st, name, topic).heap == st.heap
  {
    var n := Lower(name);
    if n !in st.channels {
      PushIsSteady(st, ref, [NoSuchChannel(n)]);
    } else {
      var ch := st.channels[n];
      PushIsSteady(st, ref, [if ch.topic != "" then TopicIs(ch.name, ch.topic) else NoTopic(ch.name)]);
    }
  }

  lemma {:induction false} AnswerAllIsSteady(st: State, ref: Ref, q: Question, names: seq<string>)
    requires ref in st.heap
    ensures Steady(st.heap, AnswerAll(st, ref, q, names).heap, ref)
  {
    if names != [] {
      var n := |names| - 1;
      var st1 := AnswerAll(st, ref, q, names[..n]);
      AnswerAllIsSteady(st, ref, q, names[..n]);
      var key := Lower(names[n]);
      if !st1.crashed && key in st1.channels && !Freed(st1.channels[key]) {
        PushIsSteady(st1, ref, Answer(q, st1.channels[key]));
        SteadyTwice(st.heap, st1.heap, Push(st1, ref, Answer(q, st1.channels[key])).heap, ref);
      }
    }
  }

  lemma ListIsSteady(st: State, ref: Ref, names: seq<string>)
    requires ref in st.heap
    ensures Steady(st.heap, HandleList(st, ref, names).heap, ref)
  {
    var st0 := Push(st, ref, [ListStart]);
    var st1 := AnswerAll(st0, ref, Line, names);
    PushIsSteady(st, ref, [ListStart]);
    AnswerAllIsSteady(st0, ref, Line, names);
    SteadyTwice(st.heap, st0.heap, st1.heap, ref);
    PushIsSteady(st1, ref, [ListEnd]);
    SteadyTwice(st.heap, st1.heap, Push(st1, ref, [ListEnd]).heap, ref);
  }

  lemma ListAllIsSteady(st: State, ref: Ref)
    requires ref in st.heap
    ensures Steady(st.heap, HandleListAll(st, ref).heap, ref)
  {
    PushIsSteady(st, ref, [ListStart]);
    PushIsSteady(st, ref, [ListStart, ListLines(ChannelNames(st.channels)), ListEnd]);
  }

  lemma AwayIsSteady(st: State, ref: Ref, text: Option<string>)
    requires ref in st.heap
    ensures Steady(st.heap, HandleAway(st, ref, text).heap, ref)
  {
    var st1 := WithClient(st, ref, st.heap[ref].(away := text));
    OwnChangeIsSteady(st.heap, ref, st1.heap[ref]);
    PushIsSteady(st1, ref, [AwaySet(text.Some?)]);
    SteadyTwice(st.heap, st1.heap, Push(st1, ref, [AwaySet(text.Some?)]).heap, ref);
  }

  lemma ReplyIsSteady(st: State, ref: Ref, m: Message)
    requires ref in st.heap && !AboutClients(m) && !AboutChannels(m)
    ensures Steady(st.heap, Handle(st, ref, m).heap, ref)
  {
    match m
    case NickMissing => PushIsSteady(st, ref, [NoNickGiven]);
    case UserMissing => PushIsSteady(st, ref, [NeedMoreParams("USER")]);
    case PrivmsgNoTarget => PushIsSteady(st, ref, [NoRecipient]);
    case PrivmsgNoText => PushIsSteady(st, ref, [NoText]);
    case WhoisNothing =>
    case NamesNothing =>
    case JoinNothing => PushIsSteady(st, ref, [NeedMoreParams("JOIN")]);
    case TopicNothing => PushIsSteady(st, ref, [NeedMoreParams("TOPIC")]);
    case Answered(codes) => PushIsSteady(st, ref, Infos(codes));
    case UsesNull =>
  }

  lemma ClientMessageIsSteady(st: State, ref: Ref, m: Message)
    requires ref in st.heap && AboutClients(m)
    ensures Steady(st.heap, Handle(st, ref, m).heap, ref)
  {
    match m
    case Nick(nick) => NickIsSteady(st, ref, nick);
    case User(user, full) => UserIsSteady(st, ref, user, full);
    case Privmsg(target, text) => PrivmsgIsSteady(st, ref, target, text);
    case Whois(mask) => WhoisIsSteady(st, ref, mask);
    case Away(text) => AwayIsSteady(st, ref, text);
  }

  lemma JoinIsSteady(st: State, ref: Ref, list: string)
    requires ref in st.heap
    ensures Steady(st.heap, Handle(st, ref, Join(list)).heap, ref)
  {
    var names := NamesIn(list);
    assert Handle(st, ref, Join(list)) == JoinAll(st, ref, names);
    JoinAllIsSteady(st, ref, names);
  }

  lemma WholeListIsSteady(st: State, ref: Ref)
    requires ref in st.heap
    ensures Steady(st.heap, Handle(st, ref, ListAll).heap, ref)
  {
    ListAllIsSteady(st, ref);
  }

  lemma NamedListIsSteady(st: State, ref: Ref, list: string)
    requires ref in st.heap
    ensures Steady(st.heap, Handle(st, ref, ListSome(list)).heap, ref)
  {
    ListIsSteady(st, ref, NamesIn(list));
  }

  lemma NamesAreSteady(st: State, ref: Ref, list: string)
    requires ref in st.heap
    ensures Steady(st.heap, Handle(st, ref, NamesSome(list)).heap, ref)
  {
    AnswerAllIsSteady(st, ref, Members, NamesIn(list));
  }

  lemma TopicQueryIsSteady(st: State, ref: Ref, channel: string)
    requires ref in st.heap
    ensures Steady(st.heap, Handle(st, ref, TopicQuery(channel)).heap, ref)
  {
    TopicIsSteady(st, ref, channel, "");
  }

  lemma TopicSetIsSteady(st: State, ref: Ref, channel: string, topic: string)
    requires ref in st.heap
    ensures Steady(st.heap, Handle(st, ref, TopicSet(channel, topic)).heap, ref)
  {
    TopicIsSteady(st, ref, channel, topic);
  }

  lemma ChannelMessageIsSteady(st: State, ref: Ref, m: Message)
    requires ref in st.heap && AboutChannels(m)
    ensures Steady(st.heap, Handle(st, ref, m).heap, ref)
  {
    match m
    case Join(list) => JoinIsSteady(st, ref, list);
    case Part(name, text) => PartIsSteady(st, ref, name, text);
    case TopicQuery(channel) => TopicQueryIsSteady(st, ref, channel);
    case TopicSet(channel, topic) => TopicSetIsSteady(st, ref, channel, topic);
    case ListAll => WholeListIsSteady(st, ref);
    case ListSome(list) => NamedListIsSteady(st, ref, list);
    case NamesSome(list) => NamesAreSteady(st, ref, list);
  }

  lemma HandleIsSteady(st: State, ref: Ref, m: Message)
    requires ref in st.heap
    ensures Steady(st.heap, Handle(st, ref, m).heap, ref)
  {
    if AboutClients(m) {
      ClientMessageIsSteady(st, ref, m);
    } else if AboutChannels(m) {
      ChannelMessageIsSteady(st, ref, m);
    } else {
      ReplyIsSteady(st, ref, m);
    }
  }

  /** Receiving a message leaves the connections as they are, and every queue that was empty. */
  lemma ReceiveIsSteady(st: State, ref: Ref, m: Message)
    requires ref in st.heap
    ensures var heap' := DoReceive(st, ref, m).heap;
            Steady(st.heap, heap', ref) && (QueuesEmpty(st.heap) ==> QueuesEmpty(heap'))
  {
    HandleIsSteady(st, ref, m);
    var st1 := Handle(st, ref, m);
    OwnChangeIsSteady(st1.heap, ref, Emptied(st1.heap[ref]));
    SteadyTwice(st.heap, st1.heap, Flush(st1, ref).heap, ref);
  }

  // ---------------------------------------------------------------- one event

  ghost predicate CrashesAt(st: State, e: Event) {
    e.Receive? && Crashes(st, e.message)
  }

  lemma OpenAfterAccept(heap: map<Ref, Client>, ref: Ref, c: Client)
    requires ref !in heap && c.isOpen && !c.registered
    ensures |heap[ref := c]| == |heap| + 1
    ensures OpenOnes(heap[ref := c], true) == OpenOnes(heap, true)
    ensures |OpenOnes(heap[ref := c], false)| == |OpenOnes(heap, false)| + 1
  {
    assert heap[ref := c].Keys == heap.Keys + {ref};
    assert |heap[ref := c]| == |heap[ref := c].Keys|;
    assert OpenOnes(heap[ref := c], false) == OpenOnes(heap, false) + {ref};
  }

  lemma AcceptKeepsTables(st: State, ref: Ref)
    requires Consistent(st) && Possible(st, Accept(ref))
    ensures var st' := DoAccept(st, ref);
            && NicksOk(st'.heap, st'.clients, st'.nicks) && ChannelsOk(st'.heap, st'.channels)
  {
    ChannelsKeepIds(st.heap, DoAccept(st, ref).heap, st.channels);
    NewClientNicks(st.heap, st.clients, st.nicks, st.idCounter, ref);
  }

  lemma NewClientNicks(heap: map<Ref, Client>, clients: map<int, Ref>, nicks: map<string, int>, id: int, ref: Ref)
    requires IdsOk(heap, clients, id) && NicksOk(heap, clients, nicks) && ref !in heap
    ensures NicksOk(heap[ref := NewClient(id)], clients[id := ref], nicks)
  {
    assert id !in clients;
  }

  lemma AcceptKeepsIds(st: State, ref: Ref)
    requires Consistent(st) && Possible(st, Accept(ref))
    ensures var st' := DoAccept(st, ref);
            IdsOk(st'.heap, st'.clients, st'.idCounter) && ClientsOk(st'.heap)
  {
    OpenAfterAccept(st.heap, ref, NewClient(st.idCounter));
    NewId(st.heap, st.clients, st.idCounter, ref);
    NewClientOk(st.heap, st.idCounter, ref);
  }

  lemma NewId(heap: map<Ref, Client>, clients: map<int, Ref>, id: int, ref: Ref)
    requires IdsOk(heap, clients, id) && ref !in heap && |heap[ref := NewClient(id)]| == |heap| + 1
    ensures IdsOk(heap[ref := NewClient(id)], clients[id := ref], id + 1)
  {
    assert id !in clients;
  }

  lemma NewClientOk(heap: map<Ref, Client>, id: int, ref: Ref)
    requires ClientsOk(heap)
    ensures ClientsOk(heap[ref := NewClient(id)])
  {
  }

  lemma AcceptKeepsInv(st: State, ref: Ref)
    requires Settled(st) && Possible(st, Accept(ref))
    ensures Settled(DoAccept(st, ref))
  {
    OpenInv(st);
    OpenInv(DoAccept(st, ref));
    OpenAfterAccept(st.heap, ref, NewClient(st.idCounter));
    OpenOnesBounded(st.heap[ref := NewClient(st.idCounter)], false);
    Wrap32(st.nUnknown);
    AcceptKeepsTables(st, ref);
    AcceptKeepsIds(st, ref);
  }

  lemma OpenAfterClose(heap: map<Ref, Client>, ref: Ref)
    requires ref in heap && heap[ref].isOpen
    ensures var heap' := heap[ref := heap[ref].(isOpen := false)];
            && |heap'| == |heap|
            && OpenOnes(heap', heap[ref].registered) == OpenOnes(heap, heap[ref].registered) - {ref}
            && OpenOnes(heap', !heap[ref].registered) == OpenOnes(heap, !heap[ref].registered)
            && ref in OpenOnes(heap, heap[ref].registered)
  {
    var heap' := heap[ref := heap[ref].(isOpen := false)];
    assert heap'.Keys == heap.Keys;
    assert |heap'| == |heap'.Keys| == |heap.Keys|;
  }

  lemma CloseKeepsCounts(st: State, ref: Ref)
    requires CountsOk(st) && Possible(st, Close(ref))
    ensures CountsOk(DoClose(st, ref))
  {
    OpenAfterClose(st.heap, ref);
    OpenOnesBounded(st.heap, st.heap[ref].registered);
    Wrap32(st.nUsers);
    Wrap32(st.nUnknown);
  }

  lemma ClosedHeap(st: State, heap': map<Ref, Client>, ref: Ref)
    requires Consistent(st) && QueuesEmpty(st.heap) && ref in st.heap && st.heap[ref].isOpen
    requires heap' == st.heap[ref := st.heap[ref].(isOpen := false)]
    ensures heap'.Keys == st.heap.Keys && |heap'| == |st.heap|
    ensures ClientsOk(heap') && QueuesEmpty(heap')
  {
    OpenAfterClose(st.heap, ref);
    assert ClientOk(st.heap[ref]);
  }

  lemma DoCloseFields(st: State, ref: Ref)
    requires ref in st.heap
    ensures var st' := DoClose(st, ref);
            && st'.heap == st.heap[ref := st.heap[ref].(isOpen := false)]
            && st'.clients == st.clients && st'.idCounter == st.idCounter
            && st'.nicks == st.nicks && st'.channels == st.channels && st'.crashed == st.crashed
  {
  }

  lemma CloseKeepsInv(st: State, ref: Ref)
    requires Settled(st) && Possible(st, Close(ref))
    ensures Settled(DoClose(st, ref)) && DoClose(st, ref).crashed == st.crashed
  {
    OpenInv(st);
    var st' := DoClose(st, ref);
    DoCloseFields(st, ref);
    CloseKeepsCounts(st, ref);
    ClosedHeap(st, st'.heap, ref);
    ClosedTables(st, st'.heap, ref);
    OpenInv(st');
  }

  lemma ClosedTables(st: State, heap': map<Ref, Client>, ref: Ref)
    requires IdsOk(st.heap, st.clients, st.idCounter) && ChannelsOk(st.heap, st.channels)
    requires NicksOk(st.heap, st.clients, st.nicks)
    requires ref in st.heap && |heap'| == |st.heap| && heap'.Keys == st.heap.Keys
    requires heap' == st.heap[ref := st.heap[ref].(isOpen := false)]
    ensures IdsOk(heap', st.clients, st.idCounter) && ChannelsOk(heap', st.channels)
    ensures NicksOk(heap', st.clients, st.nicks)
  {
    ClosedSame(st.heap, heap', ref);
    SameIdsSameTables(st.heap, heap', st.clients, st.idCounter, st.channels);
    SameNicks(st.heap, heap', st.clients, st.nicks);
  }

  lemma ClosedSame(heap: map<Ref, Client>, heap': map<Ref, Client>, ref: Ref)
    requires ref in heap && heap' == heap[ref := heap[ref].(isOpen := false)]
    ensures forall r :: r in heap' ==>
              && r in heap && heap'[r].id == heap[r].id && heap'[r].nickname == heap[r].nickname
              && heap'[r].receivedNick == heap[r].receivedNick
  {
  }

  lemma ReceiveKeepsInv(st: State, ref: Ref, m: Message)
    requires Settled(st) && Possible(st, Receive(ref, m))
    ensures Settled(DoReceive(st, ref, m))
    ensures DoReceive(st, ref, m).crashed <==> Crashes(st, m)
  {
    HandleKeepsInv(st, ref, m);
    HandleIsSteady(st, ref, m);
    ReceiveIsSteady(st, ref, m);
    FlushKeepsInv(Handle(st, ref, m), ref);
  }

  lemma StepKeepsSettled(st: State, e: Event)
    requires Settled(st) && Possible(st, e)
    ensures Settled(Step(st, e))
    ensures Step(st, e).crashed <==> CrashesAt(st, e)
  {
    match e
    case Accept(ref) => AcceptKeepsInv(st, ref);
    case Receive(ref, m) => ReceiveKeepsInv(st, ref, m);
    case Close(ref) => CloseKeepsInv(st, ref);
  }

  // ---------------------------------------------------------------- every run

  ghost predicate Feasible(st: State, es: seq<Event>)
    decreases |es|
  {
    es == [] || (Possible(st, es[0]) && Feasible(Step(st, es[0]), es[1..]))
  }

  ghost function Run(st: State, es: seq<Event>): State
    requires Feasible(st, es)
    decreases |es|
  {
    if es == [] then st else Run(Step(st, es[0]), es[1..])
  }

  /** No message of the run is one on which the server crashes. */
  ghost predicate Harmless(st: State, es: seq<Event>)
    requires Feasible(st, es)
    decreases |es|
  {
    es == [] || (!CrashesAt(st, es[0]) && Harmless(Step(st, es[0]), es[1..]))
  }

  lemma StartIsSettled()
    ensures Settled(START)
  {
    OpenInv(START);
    assert OpenOnes(START.heap, true) == {} && OpenOnes(START.heap, false) == {};
  }

  lemma {:induction false} RunKeepsSettled(st: State, es: seq<Event>)
    requires Settled(st) && Feasible(st, es)
    ensures Settled(Run(st, es))
    ensures Run(st, es).crashed <==> st.crashed || !Harmless(st, es)
    decreases es
  {
    if es != [] {
      StepKeepsSettled(st, es[0]);
      RunKeepsSettled(Step(st, es[0]), es[1..]);
    }
  }

  /** The server crashes in a run exactly when some message of it, the last, is one on which it does. */
  lemma CrashesIff(es: seq<Event>)
    requires Feasible(START, es)
    ensures Run(START, es).crashed <==> !Harmless(START, es)
    ensures forall i :: 0 <= i < |es| ==> Feasible(START, es[..i]) && !Run(START, es[..i]).crashed
  {
    StartIsSettled();
    RunKeepsSettled(START, es);
    forall i | 0 <= i < |es|
      ensures Feasible(START, es[..i]) && !Run(START, es[..i]).crashed
    {
      RunsOn(START, es, i);
    }
  }

  /** A run that goes on after some events has not crashed in them. */
  lemma {:induction false} RunsOn(st: State, es: seq<Event>, i: nat)
    requires Feasible(st, es) && i < |es|
    ensures Feasible(st, es[..i]) && !Run(st, es[..i]).crashed
    decreases i
  {
    if i > 0 {
      RunsOn(Step(st, es[0]), es[1..], i - 1);
      assert es[..i][1..] == es[1..][..i - 1];
    }
  }

  // ---------------------------------------------------------------- in every reachable state

  ghost predicate Reachable(st: State) {
    exists es :: Feasible(START, es) && Run(START, es) == st
  }

  lemma {:induction false} OneMoreEvent(st: State, es: seq<Event>, e: Event)
    requires Feasible(st, es) && Possible(Run(st, es), e)
    ensures Feasible(st, es + [e]) && Run(st, es + [e]) == Step(Run(st, es), e)
    decreases es
  {
    if es == [] {
      assert [e][1..] == [] && es + [e] == [e];
    } else {
      OneMoreEvent(Step(st, es[0]), es[1..], e);
      assert (es + [e])[1..] == es[1..] + [e];
    }
  }

  lemma StepStaysReachable(st: State, e: Event)
    requires Reachable(st) && Possible(st, e)
    ensures Reachable(Step(st, e))
  {
    var es :| Feasible(START, es) && Run(START, es) == st;
    OneMoreEvent(START, es, e);
  }

  lemma ReachableIsSettled(st: State)
    requires Reachable(st)
    ensures Settled(st) && Consistent(st)
  {
    var es :| Feasible(START, es) && Run(START, es) == st;
    StartIsSettled();
    RunKeepsSettled(START, es);
    OpenInv(st);
  }

  /** The nick table is exactly the set of (nickname, id) of the clients that gave a nick. */
  lemma NickTableIsExact(st: State, nick: string, id: int)
    requires Reachable(st)
    ensures nick in st.nicks && st.nicks[nick] == id <==>
              exists r :: r in st.heap && st.heap[r].receivedNick && st.heap[r].nickname == nick && st.heap[r].id == id
  {
    ReachableIsSettled(st);
    if nick in st.nicks && st.nicks[nick] == id {
      assert st.clients[id] in st.heap;
    }
  }

  /** No two nicks lead to one client, no two clients share a nick or an id, and no id is 0. */
  lemma NicksAndIdsAreInjective(st: State, r: Ref, s: Ref)
    requires Reachable(st) && r in st.heap && s in st.heap && r != s
    ensures st.heap[r].id != st.heap[s].id && st.heap[r].id != 0
    ensures st.heap[r].receivedNick && st.heap[s].receivedNick ==> st.heap[r].nickname != st.heap[s].nickname
  {
    ReachableIsSettled(st);
  }

  /** The counters are the numbers of open registered and open unregistered connections. */
  lemma CountersAreCounts(st: State)
    requires Reachable(st)
    ensures st.nUsers == |set r | r in st.heap && st.heap[r].isOpen && st.heap[r].registered|
    ensures st.nUnknown == |set r | r in st.heap && st.heap[r].isOpen && !st.heap[r].registered|
  {
    ReachableIsSettled(st);
    assert OpenOnes(st.heap, true) == set r | r in st.heap && st.heap[r].isOpen && st.heap[r].registered;
    assert OpenOnes(st.heap, false) == set r | r in st.heap && st.heap[r].isOpen && !st.heap[r].registered;
  }

  /** A client has been welcomed once if both its NICK and its USER succeeded, and not at all otherwise. */
  lemma WelcomedExactlyOnce(st: State, r: Ref)
    requires Reachable(st) && r in st.heap
    ensures Welcomes(st.heap[r].written) == if st.heap[r].receivedNick && st.heap[r].receivedUser then 1 else 0
  {
    ReachableIsSettled(st);
    assert ClientOk(st.heap[r]) && st.heap[r].queue == [];
    assert st.heap[r].written + [] == st.heap[r].written;
  }

  /** Everything ever queued for a client has been written, in order. */
  lemma OutputIsEverythingQueued(st: State, r: Ref)
    requires Reachable(st) && r in st.heap
    ensures st.heap[r].queue == [] && st.heap[r].written == st.heap[r].queued
  {
    ReachableIsSettled(st);
    assert ClientOk(st.heap[r]);
    assert st.heap[r].written + [] == st.heap[r].written;
  }

  /**
   Channels are stored under lower-case keys and bear the first 50 bytes of them, so the whole
   key exactly when it fits; their members are the clients with those ids; and a channel that
   bears its whole key has a member.
   */
  lemma ChannelTableIsSound(st: State, key: string)
    requires Reachable(st) && key in st.channels
    ensures Lower(key) == key
    ensures st.channels[key].name == (if |key| <= 50 then key else key[..50])
    ensures |key| <= 50 ==> st.channels[key].members != map[]
    ensures forall i :: i in st.channels[key].members ==>
              i in st.clients && st.channels[key].members[i] == st.clients[i]
  {
    ReachableIsSettled(st);
    assert ChannelOk(st.heap, key, st.channels[key]);
  }

  /** Every nickname fits its field of nine bytes. */
  lemma NicknamesFit(st: State, r: Ref)
    requires Reachable(st) && r in st.heap
    ensures |st.heap[r].nickname| <= 9
  {
    ReachableIsSettled(st);
    assert ClientOk(st.heap[r]);
  }

  // ---------------------------------------------------------------- welcome, step by step

  /** A WELCOME is written in the step that completes NICK and USER, and in no other. */
  lemma WelcomeWhenComplete(st: State, e: Event, r: Ref)
    requires Settled(st) && Possible(st, e)
    requires r in st.heap && r in Step(st, e).heap
    ensures var c, d := st.heap[r], Step(st, e).heap[r];
            Welcomes(d.written) - Welcomes(c.written) ==
              (if d.receivedNick && d.receivedUser then 1 else 0) - (if c.receivedNick && c.receivedUser then 1 else 0)
  {
    StepKeepsSettled(st, e);
    WelcomesWritten(st, r);
    WelcomesWritten(Step(st, e), r);
  }

  lemma WelcomesWritten(st: State, r: Ref)
    requires Settled(st) && r in st.heap
    ensures Welcomes(st.heap[r].written) == if st.heap[r].receivedNick && st.heap[r].receivedUser then 1 else 0
  {
    OpenInv(st);
    assert ClientOk(st.heap[r]) && st.heap[r].queue == [];
    assert st.heap[r].written + [] == st.heap[r].written;
  }
}
