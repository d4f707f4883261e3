/**
 What every event keeps (src/client.c, src/handlers.c, src/channel.c, src/server.c): the
 tables agree with the clients, the counters count open connections, each client is
 welcomed exactly when it has registered, and every reply queued is written in order.
 */
module ServerInvariant {
  import opened Basics
  import opened ServerState

  // ---------------------------------------------------------------- clients

  ghost function Welcomes(rs: seq<Reply>): nat {
    if rs == [] then 0
    else Welcomes(rs[..|rs| - 1]) + if rs[|rs| - 1].Welcome? then 1 else 0
  }

  lemma {:induction false} WelcomesConcat(a: seq<Reply>, b: seq<Reply>)
    ensures Welcomes(a + b) == Welcomes(a) + Welcomes(b)
  {
    if b == [] {
      assert a + b == a;
    } else {
      var n := |b| - 1;
      assert (a + b)[..|a + b| - 1] == a + b[..n];
      WelcomesConcat(a, b[..n]);
    }
  }

  ghost predicate Quiet(rs: seq<Reply>) {
    forall i :: 0 <= i < |rs| ==> !rs[i].Welcome?
  }

  lemma {:induction false} QuietHasNoWelcomes(rs: seq<Reply>)
    requires Quiet(rs)
    ensures Welcomes(rs) == 0
  {
    if rs != [] {
      QuietHasNoWelcomes(rs[..|rs| - 1]);
    }
  }

  /** Registered once nick and user are known, welcomed exactly then; replies leave in order; the nick fits. */
  ghost predicate ClientOk(c: Client) {
    && |c.nickname| <= NICK_SIZE
    && (c.registered <==> c.receivedNick && c.receivedUser)
    && Welcomes(c.queued) == (if c.registered then 1 else 0)
    && c.written + c.queue == c.queued
  }

  /** The parts of a client that the tables and counters depend on. */
  ghost predicate SameCore(c: Client, d: Client) {
    && c.id == d.id && c.nickname == d.nickname && c.isOpen == d.isOpen
    && c.registered == d.registered && c.receivedNick == d.receivedNick && c.receivedUser == d.receivedUser
  }

  // ---------------------------------------------------------------- tables

  /** Ids are distinct, nonzero and below the counter, and lead back to their client. */
  ghost predicate IdsOk(heap: map<Ref, Client>, clients: map<int, Ref>, idCounter: int) {
    && (forall r :: r in heap ==> 1 <= heap[r].id < idCounter && heap[r].id in clients && clients[heap[r].id] == r)
    && (forall i :: i in clients ==> clients[i] in heap && heap[clients[i]].id == i)
    && |heap| == idCounter - 1
  }

  /** The nick table is exactly the pairs (nickname, id) of the clients with a nick. */
  ghost predicate NicksOk(heap: map<Ref, Client>, clients: map<int, Ref>, nicks: map<string, int>) {
    && (forall r :: r in heap && heap[r].receivedNick ==>
          heap[r].nickname in nicks && nicks[heap[r].nickname] == heap[r].id)
    && (forall n :: n in nicks ==>
          && nicks[n] in clients && clients[nicks[n]] in heap
          && heap[clients[nicks[n]]].receivedNick && heap[clients[nicks[n]]].nickname == n)
  }

  /** A channel bears as much of its key as fits its name field, and is freed only if that is not all. */
  ghost predicate ChannelOk(heap: map<Ref, Client>, key: string, ch: Channel) {
    && ch.name == Truncate(key, CHANNEL_NAME_MAX) && Lower(key) == key
    && (Freed(ch) ==> |key| > CHANNEL_NAME_MAX)
    && (forall i :: i in ch.members ==> ch.members[i] in heap && heap[ch.members[i]].id == i)
  }

  ghost predicate ChannelsOk(heap: map<Ref, Client>, channels: map<string, Channel>) {
    forall key :: key in channels ==> ChannelOk(heap, key, channels[key])
  }

  ghost function OpenOnes(heap: map<Ref, Client>, registered: bool): set<Ref> {
    set r | r in heap && heap[r].isOpen && heap[r].registered == registered
  }

  ghost predicate CountsOk(st: State) {
    && st.nUsers == |OpenOnes(st.heap, true)|
    && st.nUnknown == |OpenOnes(st.heap, false)|
    && |st.heap| < UINT32_LIMIT
  }

  ghost predicate ClientsOk(heap: map<Ref, Client>) {
    forall r :: r in heap ==> ClientOk(heap[r])
  }

  ghost predicate QueuesEmpty(heap: map<Ref, Client>) {
    forall r :: r in heap ==> heap[r].queue == []
  }

  /** The invariant while a message is handled; only queues may hold something. */
  ghost predicate Consistent(st: State) {
    && ClientsOk(st.heap)
    && IdsOk(st.heap, st.clients, st.idCounter)
    && NicksOk(st.heap, st.clients, st.nicks)
    && ChannelsOk(st.heap, st.channels)
    && CountsOk(st)
    && st.idCounter <= INT_MAX
  }

  /**
   The same, behind a recursion that keeps the verifier from unfolding it where it is only
   passed on; OpenInv unfolds it.
   */
  ghost predicate Inv(st: State) {
    ConsistentAt(|st.heap| + 2, st)
  }

  ghost predicate ConsistentAt(depth: nat, st: State) {
    if depth > 0 then ConsistentAt(depth - 1, st) else Consistent(st)
  }

  lemma {:induction false} ConsistentAtAnyDepth(depth: nat, st: State)
    ensures ConsistentAt(depth, st) == Consistent(st)
  {
    if depth > 0 {
      ConsistentAtAnyDepth(depth - 1, st);
    }
  }

  lemma OpenInv(st: State)
    ensures Inv(st) == Consistent(st)
  {
    ConsistentAtAnyDepth(|st.heap| + 2, st);
  }

  /** The invariant between events. */
  ghost predicate Settled(st: State) {
    Inv(st) && QueuesEmpty(st.heap)
  }

  // ---------------------------------------------------------------- changes of the heap only

  /** Only queues, texts and away messages differ, and no welcome was added. */
  ghost predicate SameButQueues(heap: map<Ref, Client>, heap': map<Ref, Client>) {
    && heap'.Keys == heap.Keys
    && forall r :: r in heap ==> SameCore(heap[r], heap'[r]) && (ClientOk(heap[r]) ==> ClientOk(heap'[r]))
  }

  lemma ChannelsKeepIds(heap: map<Ref, Client>, heap': map<Ref, Client>, channels: map<string, Channel>)
    requires ChannelsOk(heap, channels)
    requires forall r :: r in heap ==> r in heap' && heap'[r].id == heap[r].id
    ensures ChannelsOk(heap', channels)
  {
    forall key | key in channels
      ensures ChannelOk(heap', key, channels[key])
    {
      assert ChannelOk(heap, key, channels[key]);
    }
  }

  lemma SameFlagsSameCounts(st: State, heap': map<Ref, Client>)
    requires CountsOk(st) && heap'.Keys == st.heap.Keys
    requires forall r :: r in heap' ==>
               heap'[r].isOpen == st.heap[r].isOpen && heap'[r].registered == st.heap[r].registered
    ensures CountsOk(st.(heap := heap')) && |heap'| == |st.heap|
  {
    assert OpenOnes(heap', true) == OpenOnes(st.heap, true);
    assert OpenOnes(heap', false) == OpenOnes(st.heap, false);
    assert |heap'| == |heap'.Keys| == |st.heap.Keys|;
  }

  lemma SameIdsSameTables(heap: map<Ref, Client>, heap': map<Ref, Client>, clients: map<int, Ref>, idCounter: int,
                          channels: map<string, Channel>)
    requires heap'.Keys == heap.Keys && |heap'| == |heap|
    requires forall r :: r in heap' ==> heap'[r].id == heap[r].id
    requires IdsOk(heap, clients, idCounter) && ChannelsOk(heap, channels)
    ensures IdsOk(heap', clients, idCounter) && ChannelsOk(heap', channels)
  {
    ChannelsKeepIds(heap, heap', channels);
  }

  lemma SameNicks(heap: map<Ref, Client>, heap': map<Ref, Client>, clients: map<int, Ref>, nicks: map<string, int>)
    requires heap'.Keys == heap.Keys
    requires forall r :: r in heap' ==>
               && heap'[r].id == heap[r].id && heap'[r].nickname == heap[r].nickname
               && heap'[r].receivedNick == heap[r].receivedNick
    requires NicksOk(heap, clients, nicks)
    ensures NicksOk(heap', clients, nicks)
  {
  }

  lemma QuietChangeKeepsInv(st: State, heap': map<Ref, Client>)
    requires Inv(st) && SameButQueues(st.heap, heap')
    ensures Inv(st.(heap := heap'))
  {
    OpenInv(st);
    SameFlagsSameCounts(st, heap');
    SameIdsSameTables(st.heap, heap', st.clients, st.idCounter, st.channels);
    SameNicks(st.heap, heap', st.clients, st.nicks);
    OpenInv(st.(heap := heap'));
  }

  lemma PushQuietly(c: Client, rs: seq<Reply>)
    requires Quiet(rs)
    ensures SameCore(c, Pushed(c, rs)) && (ClientOk(c) ==> ClientOk(Pushed(c, rs)))
  {
    WelcomesConcat(c.queued, rs);
    QuietHasNoWelcomes(rs);
    assert c.written + (c.queue + rs) == (c.written + c.queue) + rs;
  }

  lemma EmptyQuietly(c: Client)
    ensures SameCore(c, Emptied(c)) && (ClientOk(c) ==> ClientOk(Emptied(c)))
  {
    assert (c.written + c.queue) + [] == c.written + c.queue;
  }

  lemma SendQuietly(c: Client, r: Reply)
    requires !r.Welcome?
    ensures SameCore(c, SentTo(c, r)) && (ClientOk(c) ==> ClientOk(SentTo(c, r)))
  {
    PushQuietly(c, [r]);
    EmptyQuietly(Pushed(c, [r]));
  }

  lemma PushKeepsInv(st: State, ref: Ref, rs: seq<Reply>)
    requires Inv(st) && ref in st.heap && Quiet(rs)
    ensures Inv(Push(st, ref, rs))
  {
    PushQuietly(st.heap[ref], rs);
    QuietChangeKeepsInv(st, Push(st, ref, rs).heap);
  }

  lemma FlushKeepsInv(st: State, ref: Ref)
    requires Inv(st) && ref in st.heap
    ensures Inv(Flush(st, ref))
  {
    EmptyQuietly(st.heap[ref]);
    QuietChangeKeepsInv(st, Flush(st, ref).heap);
  }

  lemma SendEachQuietly(heap: map<Ref, Client>, targets: set<Ref>, r: Reply)
    requires !r.Welcome?
    ensures SameButQueues(heap, SendEach(heap, targets, r))
  {
    forall ref | ref in heap
      ensures SameCore(heap[ref], SendEach(heap, targets, r)[ref])
      ensures ClientOk(heap[ref]) ==> ClientOk(SendEach(heap, targets, r)[ref])
    {
      SendQuietly(heap[ref], r);
    }
  }

  lemma SendAllKeepsInv(st: State, members: map<int, Ref>, source: int, r: Reply)
    requires Inv(st) && !r.Welcome?
    ensures Inv(SendAll(st, members, source, r))
  {
    SendEachQuietly(st.heap, Targets(members, source), r);
    QuietChangeKeepsInv(st, SendAll(st, members, source, r).heap);
  }

  // ---------------------------------------------------------------- nicks and registration

  /** Between TakeNick or the USER fields and TryRegister, one client may be due for registration. */
  ghost predicate Due(c: Client) {
    && !c.registered && Welcomes(c.queued) == 0 && c.written + c.queue == c.queued
    && |c.nickname| <= NICK_SIZE
  }

  ghost predicate InvBut(st: State, ref: Ref) {
    && ref in st.heap && (ClientOk(st.heap[ref]) || Due(st.heap[ref]))
    && (forall r :: r in st.heap && r != ref ==> ClientOk(st.heap[r]))
    && IdsOk(st.heap, st.clients, st.idCounter)
    && NicksOk(st.heap, st.clients, st.nicks)
    && ChannelsOk(st.heap, st.channels)
    && CountsOk(st)
    && st.idCounter <= INT_MAX
    && st.heap[ref].isOpen
  }

  lemma TakeNickNicks(st: State, ref: Ref, nick: string)
    requires IdsOk(st.heap, st.clients, st.idCounter) && NicksOk(st.heap, st.clients, st.nicks)
    requires ref in st.heap && nick !in st.nicks
    ensures var st' := TakeNick(st, ref, nick); NicksOk(st'.heap, st'.clients, st'.nicks)
  {
    var st' := TakeNick(st, ref, nick);
    forall r | r in st'.heap && st'.heap[r].receivedNick
      ensures st'.heap[r].nickname in st'.nicks && st'.nicks[st'.heap[r].nickname] == st'.heap[r].id
    {
      if r != ref && st.heap[ref].receivedNick {
        assert st.heap[r].nickname != st.heap[ref].nickname;
      }
    }
    forall n | n in st'.nicks
      ensures st'.nicks[n] in st'.clients && st'.clients[st'.nicks[n]] in st'.heap
      ensures var c := st'.heap[st'.clients[st'.nicks[n]]]; c.receivedNick && c.nickname == n
    {
      if n != nick {
        assert n in st.nicks;
        assert st.clients[st.nicks[n]] != ref;
      }
    }
  }

  /** One client changes, but not its id, nor whether it is open or registered. */
  lemma OneClientChanges(st: State, ref: Ref, c: Client, nicks: map<string, int>)
    requires Inv(st) && ref in st.heap && st.heap[ref].isOpen
    requires c.id == st.heap[ref].id && c.isOpen && c.registered == st.heap[ref].registered
    requires ClientOk(c) || Due(c)
    requires NicksOk(st.heap[ref := c], st.clients, nicks)
    ensures InvBut(WithClient(st, ref, c).(nicks := nicks), ref)
  {
    OpenInv(st);
    var heap' := st.heap[ref := c];
    assert heap'.Keys == st.heap.Keys;
    SameFlagsSameCounts(st, heap');
    SameIdsSameTables(st.heap, heap', st.clients, st.idCounter, st.channels);
  }

  lemma TakeNickKeeps(st: State, ref: Ref, nick: string)
    requires Inv(st) && ref in st.heap && nick !in st.nicks && |nick| <= NICK_SIZE && st.heap[ref].isOpen
    ensures InvBut(TakeNick(st, ref, nick), ref)
  {
    OpenInv(st);
    var st' := TakeNick(st, ref, nick);
    TakeNickNicks(st, ref, nick);
    assert ClientOk(st.heap[ref]);
    OneClientChanges(st, ref, st'.heap[ref], st'.nicks);
  }

  function WithUser(c: Client, user: string, full: string): Client {
    c.(username := user, fullname := full, receivedUser := true)
  }

  lemma UserKeeps(st: State, ref: Ref, user: string, full: string)
    requires Inv(st) && ref in st.heap && !st.heap[ref].registered && st.heap[ref].isOpen
    ensures InvBut(WithClient(st, ref, WithUser(st.heap[ref], user, full)), ref)
  {
    OpenInv(st);
    var c := WithUser(st.heap[ref], user, full);
    assert ClientOk(st.heap[ref]);
    assert st.heap[ref := c].Keys == st.heap.Keys;
    SameNicks(st.heap, st.heap[ref := c], st.clients, st.nicks);
    OneClientChanges(st, ref, c, st.nicks);
  }

  lemma WelcomeMakesOk(c: Client, w: Reply)
    requires Due(c) && c.receivedNick && c.receivedUser && w.Welcome?
    ensures ClientOk(Pushed(c.(registered := true), [w]))
  {
    WelcomesConcat(c.queued, [w]);
    assert [w][..0] == [];
    assert c.written + (c.queue + [w]) == (c.written + c.queue) + [w];
  }

  lemma Wrap32(x: nat)
    ensures x + 1 < UINT32_LIMIT ==> Inc32(x) == x + 1
    ensures 1 <= x < UINT32_LIMIT ==> Dec32(x) == x - 1
  {
  }

  lemma OpenOnesBounded(heap: map<Ref, Client>, registered: bool)
    ensures |OpenOnes(heap, registered)| <= |heap|
  {
    SubsetIsSmaller(OpenOnes(heap, registered), heap.Keys);
    assert |heap| == |heap.Keys|;
  }

  /** Registration moves one open client from the unknown to the users. */
  lemma RegisterMovesOne(heap: map<Ref, Client>, ref: Ref, c: Client)
    requires ref in heap && heap[ref].isOpen && !heap[ref].registered && c.isOpen && c.registered
    ensures var heap' := heap[ref := c];
            && |OpenOnes(heap', true)| == |OpenOnes(heap, true)| + 1
            && |OpenOnes(heap', false)| == |OpenOnes(heap, false)| - 1
            && |heap'| == |heap|
  {
    var heap' := heap[ref := c];
    assert heap'.Keys == heap.Keys;
    assert |heap'| == |heap'.Keys| == |heap.Keys|;
    assert OpenOnes(heap', true) == OpenOnes(heap, true) + {ref};
    assert OpenOnes(heap', false) == OpenOnes(heap, false) - {ref};
  }

  lemma RegisterCounts(st: State, ref: Ref, c: Client)
    requires CountsOk(st) && ref in st.heap && st.heap[ref].isOpen && !st.heap[ref].registered
    requires c.isOpen && c.registered
    ensures CountsOk(st.(heap := st.heap[ref := c], nUnknown := Dec32(st.nUnknown), nUsers := Inc32(st.nUsers)))
  {
    RegisterMovesOne(st.heap, ref, c);
    OpenOnesBounded(st.heap[ref := c], true);
    OpenOnesBounded(st.heap, false);
    Wrap32(st.nUsers);
    Wrap32(st.nUnknown);
  }

  ghost function Welcomed(c: Client): Client {
    Pushed(c.(registered := true), [Welcome(c.nickname, c.username)])
  }

  lemma RegisteredState(st: State, ref: Ref)
    requires IdsOk(st.heap, st.clients, st.idCounter) && ref in st.heap
    requires !st.heap[ref].registered && st.heap[ref].receivedUser && st.heap[ref].receivedNick
    ensures TryRegister(st, ref)
         == st.(heap := st.heap[ref := Welcomed(st.heap[ref])], nUnknown := Dec32(st.nUnknown), nUsers := Inc32(st.nUsers))
  {
    assert st.clients[st.heap[ref].id := ref] == st.clients;
  }

  lemma RegisterKeepsInv(st: State, ref: Ref)
    requires InvBut(st, ref) && Due(st.heap[ref]) && st.heap[ref].receivedUser && st.heap[ref].receivedNick
    ensures Inv(TryRegister(st, ref))
  {
    var c := st.heap[ref];
    var d := Welcomed(c);
    RegisteredState(st, ref);
    WelcomeMakesOk(c, Welcome(c.nickname, c.username));
    RegisterMovesOne(st.heap, ref, d);
    RegisterCounts(st, ref, d);
    RegisteredTables(st, ref, d);
    OpenInv(TryRegister(st, ref));
  }

  lemma RegisteredTables(st: State, ref: Ref, d: Client)
    requires InvBut(st, ref) && ClientOk(d) && |st.heap[ref := d]| == |st.heap|
    requires d.id == st.heap[ref].id && d.nickname == st.heap[ref].nickname
    requires d.receivedNick == st.heap[ref].receivedNick
    ensures var heap' := st.heap[ref := d];
            && ClientsOk(heap') && IdsOk(heap', st.clients, st.idCounter)
            && ChannelsOk(heap', st.channels) && NicksOk(heap', st.clients, st.nicks)
  {
    OneOkMore(st.heap, ref, d);
    RegisteredSame(st.heap, st.heap[ref := d], st.clients, st.idCounter, st.channels, st.nicks, ref);
  }

  lemma OneOkMore(heap: map<Ref, Client>, ref: Ref, d: Client)
    requires ClientOk(d) && forall r :: r in heap && r != ref ==> ClientOk(heap[r])
    ensures ClientsOk(heap[ref := d])
  {
  }

  lemma RegisteredSame(heap: map<Ref, Client>, heap': map<Ref, Client>, clients: map<int, Ref>, idCounter: int,
                       channels: map<string, Channel>, nicks: map<string, int>, ref: Ref)
    requires IdsOk(heap, clients, idCounter) && ChannelsOk(heap, channels) && NicksOk(heap, clients, nicks)
    requires ref in heap && ref in heap' && |heap'| == |heap| && heap' == heap[ref := heap'[ref]]
    requires heap'[ref].id == heap[ref].id && heap'[ref].nickname == heap[ref].nickname
    requires heap'[ref].receivedNick == heap[ref].receivedNick
    ensures IdsOk(heap', clients, idCounter) && ChannelsOk(heap', channels) && NicksOk(heap', clients, nicks)
  {
    assert heap'.Keys == heap.Keys;
    SameIdsSameTables(heap, heap', clients, idCounter, channels);
    SameNicks(heap, heap', clients, nicks);
  }

  lemma TryRegisterKeepsInv(st: State, ref: Ref)
    requires InvBut(st, ref)
    ensures Inv(TryRegister(st, ref))
  {
    var c := st.heap[ref];
    if !c.registered && c.receivedUser && c.receivedNick {
      RegisterKeepsInv(st, ref);
    }
    OpenInv(TryRegister(st, ref));
  }

  lemma HandleNickKeepsInv(st: State, ref: Ref, nick: string)
    requires Inv(st) && ref in st.heap && st.heap[ref].isOpen
    ensures Inv(HandleNick(st, ref, nick))
    ensures HandleNick(st, ref, nick).crashed <==> st.crashed || (nick !in st.nicks && |nick| > NICK_SIZE)
  {
    if nick in st.nicks {
      PushKeepsInv(st, ref, [NickInUse(nick)]);
    } else if |nick| > NICK_SIZE {
      CrashKeepsInv(st);
    } else {
      TakeNickKeeps(st, ref, nick);
      TryRegisterKeepsInv(TakeNick(st, ref, nick), ref);
    }
  }

  lemma HandleUserKeepsInv(st: State, ref: Ref, user: string, full: string)
    requires Inv(st) && ref in st.heap && st.heap[ref].isOpen
    ensures Inv(HandleUser(st, ref, user, full)) && HandleUser(st, ref, user, full).crashed == st.crashed
  {
    if st.heap[ref].registered {
      PushKeepsInv(st, ref, [AlreadyRegistered]);
    } else {
      UserKeeps(st, ref, user, full);
      TryRegisterKeepsInv(WithClient(st, ref, WithUser(st.heap[ref], user, full)), ref);
    }
  }

  // ---------------------------------------------------------------- messages between clients

  /** Under the invariant the nick table's 0 means "absent", and a nick leads to a client. */
  lemma LookupNeverFails(st: State, nick: string)
    requires Inv(st)
    ensures IdOf(st, nick) == 0 <==> nick !in st.nicks
    ensures nick in st.nicks ==>
              && IdOf(st, nick) in st.clients && st.clients[IdOf(st, nick)] in st.heap
              && st.heap[st.clients[IdOf(st, nick)]].nickname == nick
  {
    OpenInv(st);
  }

  lemma HandlePrivmsgKeepsInv(st: State, ref: Ref, target: string, text: string)
    requires Inv(st) && ref in st.heap
    ensures Inv(HandlePrivmsg(st, ref, target, text))
    ensures HandlePrivmsg(st, ref, target, text).crashed <==>
              st.crashed || (IsChannelName(target) && LeadsToFreed(st, target))
  {
    var id := st.heap[ref].id;
    if IsChannelName(target) {
      if LeadsToFreed(st, target) {
        CrashKeepsInv(st);
      } else if target in st.channels {
        SendAllKeepsInv(st, st.channels[target].members, id, Private(id, st.channels[target].name, text));
      }
    } else {
      LookupNeverFails(st, target);
      if target !in st.nicks {
        PushKeepsInv(st, ref, [NoSuchNick(target)]);
      } else {
        var to := st.clients[IdOf(st, target)];
        var r := Private(id, target, text);
        SendToOneKeepsInv(st, to, r);
        if st.heap[to].away.Some? {
          PushKeepsInv(WithClient(st, to, SentTo(st.heap[to], r)), ref,
                       [IsAway(st.heap[to].nickname, st.heap[to].away.value)]);
        }
      }
    }
  }

  lemma SendToOneKeepsInv(st: State, to: Ref, r: Reply)
    requires Inv(st) && to in st.heap && !r.Welcome?
    ensures Inv(WithClient(st, to, SentTo(st.heap[to], r)))
  {
    SendQuietly(st.heap[to], r);
    QuietChangeKeepsInv(st, st.heap[to := SentTo(st.heap[to], r)]);
  }

  lemma HandleWhoisKeepsInv(st: State, ref: Ref, mask: string)
    requires Inv(st) && ref in st.heap
    ensures Inv(HandleWhois(st, ref, mask)) && HandleWhois(st, ref, mask).crashed == st.crashed
  {
    LookupNeverFails(st, mask);
    if mask !in st.nicks {
      PushKeepsInv(st, ref, [NoSuchNick(mask)]);
    } else {
      var q := st.heap[st.clients[IdOf(st, mask)]].id;
      PushKeepsInv(st, ref, [WhoisUser(q), WhoisServer(q), EndOfWhois(q)]);
    }
  }

  // ---------------------------------------------------------------- channels

  lemma LowerIsLower(s: string)
    ensures Lower(Lower(s)) == Lower(s)
  {
    assert forall i :: 0 <= i < |s| ==> ToLower(ToLower(s[i])) == ToLower(s[i]);
  }

  lemma SetChannelKeepsInv(st: State, key: string, ch: Channel)
    requires Inv(st) && ChannelOk(st.heap, key, ch)
    ensures Inv(st.(channels := st.channels[key := ch]))
  {
    OpenInv(st);
    OpenInv(st.(channels := st.channels[key := ch]));
  }

  lemma DropChannelKeepsInv(st: State, channels: map<string, Channel>)
    requires Inv(st)
    requires forall key :: key in channels ==> key in st.channels && channels[key] == st.channels[key]
    ensures Inv(st.(channels := channels))
  {
    OpenInv(st);
    OpenInv(st.(channels := channels));
  }

  lemma EnterKeepsInv(st: State, ref: Ref, name: string)
    requires Inv(st) && ref in st.heap && !LeadsToFreed(st, Lower(name))
    ensures Inv(Enter(st, ref, name)) && Enter(st, ref, name).crashed == st.crashed
  {
    var n, id := Lower(name), st.heap[ref].id;
    if n in st.channels {
      if id !in st.channels[n].members {
        AddMemberKeepsInv(st, ref, n);
      }
    } else {
      LowerIsLower(name);
      NewChannelOk(st.heap, n, id, ref);
      SetChannelKeepsInv(st, n, NewChannel(n, id, ref));
    }
  }

  lemma AddMemberKeepsInv(st: State, ref: Ref, n: string)
    requires Inv(st) && ref in st.heap && n in st.channels
    ensures var ch, id := st.channels[n], st.heap[ref].id;
            var members := ch.members[id := ref];
            Inv(SendAll(st, members, id, Joined(id, ch.name)).(channels := st.channels[n := ch.(members := members)]))
  {
    var ch, id := st.channels[n], st.heap[ref].id;
    var members := ch.members[id := ref];
    var st1 := SendAll(st, members, id, Joined(id, ch.name));
    SendAllKeepsInv(st, members, id, Joined(id, ch.name));
    OpenInv(st);
    assert ChannelOk(st.heap, n, ch);
    MemberAdded(st.heap, st1.heap, n, ch, id, ref);
    SetChannelKeepsInv(st1, n, ch.(members := members));
  }

  lemma NewChannelOk(heap: map<Ref, Client>, n: string, id: int, ref: Ref)
    requires ref in heap && heap[ref].id == id && Lower(n) == n
    ensures ChannelOk(heap, n, NewChannel(n, id, ref)) && !Freed(NewChannel(n, id, ref))
  {
    assert id in NewChannel(n, id, ref).members;
  }

  lemma MemberAdded(heap: map<Ref, Client>, heap': map<Ref, Client>, n: string, ch: Channel, id: int, ref: Ref)
    requires ChannelOk(heap, n, ch) && ref in heap && heap[ref].id == id
    requires forall r :: r in heap ==> r in heap' && heap'[r].id == heap[r].id
    ensures ChannelOk(heap', n, ch.(members := ch.members[id := ref]))
  {
    assert id in ch.members[id := ref];
  }

  /** Entering a channel frees none and revives none. */
  lemma EnterKeepsFreed(st: State, ref: Ref, name: string, key: string)
    requires ref in st.heap && !LeadsToFreed(st, Lower(name))
    ensures LeadsToFreed(Enter(st, ref, name), key) <==> LeadsToFreed(st, key)
  {
    var n, id := Lower(name), st.heap[ref].id;
    if key == n {
      if n in st.channels {
        assert id in st.channels[n].members[id := ref];
      } else {
        assert id in NewChannel(n, id, ref).members;
      }
    }
  }

  lemma JoinOneKeepsInv(st: State, ref: Ref, name: string)
    requires Inv(st) && ref in st.heap
    ensures Inv(JoinOne(st, ref, name))
    ensures JoinOne(st, ref, name).crashed <==> st.crashed || LeadsToFreed(st, Lower(name))
  {
    if LeadsToFreed(st, Lower(name)) {
      CrashKeepsInv(st);
    } else {
      EnterKeepsInv(st, ref, name);
      EnterKeepsRefs(st, ref, name);
      var st1 := Enter(st, ref, name);
      PushKeepsInv(st1, ref, JoinReplies(st1.channels[Lower(name)], st.heap[ref].id));
    }
  }

  lemma {:induction false} JoinAllKeepsInv(st: State, ref: Ref, names: seq<string>)
    requires Inv(st) && ref in st.heap
    ensures Inv(JoinAll(st, ref, names))
  {
    if names != [] {
      var n := |names| - 1;
      JoinAllKeepsInv(st, ref, names[..n]);
      if !JoinAll(st, ref, names[..n]).crashed {
        JoinOneKeepsInv(JoinAll(st, ref, names[..n]), ref, names[n]);
      }
    }
  }

  lemma JoinOneKeepsFreed(st: State, ref: Ref, name: string, key: string)
    requires ref in st.heap
    ensures LeadsToFreed(JoinOne(st, ref, name), key) <==> LeadsToFreed(st, key)
  {
    if !LeadsToFreed(st, Lower(name)) {
      EnterKeepsFreed(st, ref, name, key);
      EnterKeepsRefs(st, ref, name);
    }
  }

  lemma {:induction false} JoinAllKeepsFreed(st: State, ref: Ref, names: seq<string>, key: string)
    requires ref in st.heap
    ensures LeadsToFreed(JoinAll(st, ref, names), key) <==> LeadsToFreed(st, key)
  {
    if names != [] {
      var n := |names| - 1;
      JoinAllKeepsFreed(st, ref, names[..n], key);
      JoinOneKeepsFreed(JoinAll(st, ref, names[..n]), ref, names[n], key);
    }
  }

  /** JOIN uses a freed channel exactly when one of its names led to one before the message. */
  lemma {:induction false} JoinAllCrashesIff(st: State, ref: Ref, names: seq<string>)
    requires ref in st.heap
    ensures JoinAll(st, ref, names).crashed <==> st.crashed || ListsFreed(st, names)
  {
    if names != [] {
      var n := |names| - 1;
      JoinAllCrashesIff(st, ref, names[..n]);
      JoinAllKeepsFreed(st, ref, names[..n], Lower(names[n]));
      ListsFreedSnoc(st, names, n);
    }
  }

  lemma ListsFreedSnoc(st: State, names: seq<string>, n: nat)
    requires n + 1 == |names|
    ensures ListsFreed(st, names) <==> ListsFreed(st, names[..n]) || LeadsToFreed(st, Lower(names[n]))
  {
    if ListsFreed(st, names[..n]) {
      var i :| 0 <= i < n && LeadsToFreed(st, Lower(names[..n][i]));
      assert LeadsToFreed(st, Lower(names[i]));
    }
    if ListsFreed(st, names) && !LeadsToFreed(st, Lower(names[n])) {
      var i :| 0 <= i < |names| && LeadsToFreed(st, Lower(names[i]));
      assert LeadsToFreed(st, Lower(names[..n][i]));
    }
  }

  lemma HandlePartKeepsInv(st: State, ref: Ref, name: string, text: Option<string>)
    requires Inv(st) && ref in st.heap
    ensures Inv(HandlePart(st, ref, name, text))
    ensures HandlePart(st, ref, name, text).crashed <==> st.crashed || LeadsToFreed(st, Lower(name))
  {
    OpenInv(st);
    var n, id := Lower(name), st.heap[ref].id;
    if n !in st.channels {
      PushKeepsInv(st, ref, [NoSuchChannel(n)]);
    } else if Freed(st.channels[n]) {
      CrashKeepsInv(st);
    } else if id !in st.channels[n].members {
      PushKeepsInv(st, ref, [NotOnChannel(st.channels[n].name)]);
    } else {
      var ch := st.channels[n];
      LeaveKeepsInv(st, n, ch, id, Parted(id, ch.name, text));
    }
  }

  lemma LeaveKeepsInv(st: State, n: string, ch: Channel, id: int, r: Reply)
    requires Inv(st) && n in st.channels && st.channels[n] == ch && !r.Welcome?
    ensures var left := ch.(members := ch.members - {id});
            var st1 := SendAll(st, ch.members, id, r).(channels := st.channels[n := left]);
            Inv(if left.members == map[] then st1.(channels := st1.channels - {ch.name}) else st1)
  {
    var sent := SendAll(st, ch.members, id, r);
    SendAllKeepsInv(st, ch.members, id, r);
    OpenInv(sent);
    assert ChannelOk(sent.heap, n, sent.channels[n]);
    RemoveMemberKeepsInv(sent, n, ch, id);
  }

  lemma RemoveMemberKeepsInv(st: State, n: string, ch: Channel, id: int)
    requires Inv(st) && n in st.channels && ChannelOk(st.heap, n, ch)
    ensures var left := ch.(members := ch.members - {id});
            var st1 := st.(channels := st.channels[n := left]);
            Inv(if left.members == map[] then st1.(channels := st1.channels - {ch.name}) else st1)
  {
    var left := ch.(members := ch.members - {id});
    var channels := st.channels[n := left];
    MemberRemoved(st.heap, st.heap, n, ch, id);
    if left.members == map[] && |n| <= CHANNEL_NAME_MAX {
      DropChannelKeepsInv(st, channels - {n});
    } else {
      SetChannelKeepsInv(st, n, left);
      DropChannelKeepsInv(st.(channels := channels), channels - {ch.name});
    }
  }

  /** A channel that loses a member is sound, unless it loses its last one and bears its whole key. */
  lemma MemberRemoved(heap: map<Ref, Client>, heap': map<Ref, Client>, n: string, ch: Channel, id: int)
    requires ChannelOk(heap, n, ch)
    requires forall r :: r in heap ==> r in heap' && heap'[r].id == heap[r].id
    ensures var left := ch.(members := ch.members - {id});
            ChannelOk(heap', n, left) <==> (left.members != map[] || |n| > CHANNEL_NAME_MAX)
  {
  }

  lemma CrashKeepsInv(st: State)
    requires Inv(st)
    ensures Inv(Crash(st))
  {
    OpenInv(st);
    OpenInv(Crash(st));
  }

  lemma TopicKeepsInv(st: State, name: string, topic: string)
    requires Inv(st)
    ensures Inv(HandleTopicSet(st, name, topic))
    ensures HandleTopicSet(st, name, topic).crashed <==>
              st.crashed || Lower(name) !in st.channels || LeadsToFreed(st, Lower(name))
  {
    var n := Lower(name);
    if n in st.channels && !Freed(st.channels[n]) {
      OpenInv(st);
      assert ChannelOk(st.heap, n, st.channels[n]);
      SetChannelKeepsInv(st, n, st.channels[n].(topic := Truncate(topic, CHANNEL_TOPIC_MAX)));
    } else {
      CrashKeepsInv(st);
    }
  }

  lemma AwayKeepsInv(st: State, ref: Ref, text: Option<string>)
    requires Inv(st) && ref in st.heap
    ensures Inv(HandleAway(st, ref, text)) && HandleAway(st, ref, text).crashed == st.crashed
  {
    var heap' := st.heap[ref := st.heap[ref].(away := text)];
    QuietChangeKeepsInv(st, heap');
    PushKeepsInv(st.(heap := heap'), ref, [AwaySet(text.Some?)]);
  }

  // ---------------------------------------------------------------- one message

  /**
   The messages on which the program does what C leaves undefined: it uses a NULL pointer or
   a freed channel, or copies a nick past its field.
   */
  predicate Crashes(st: State, m: Message) {
    match m
    case Nick(nick) => nick !in st.nicks && |nick| > NICK_SIZE
    case Privmsg(target, _) => IsChannelName(target) && LeadsToFreed(st, target)
    case Join(list) => ListsFreed(st, NamesIn(list))
    case Part(name, _) => LeadsToFreed(st, Lower(name))
    case TopicQuery(channel) => LeadsToFreed(st, Lower(channel))
    case TopicSet(channel, _) => Lower(channel) !in st.channels || LeadsToFreed(st, Lower(channel))
    case ListAll => AnyFreed(st)
    case ListSome(list) => ListsFreed(st, NamesIn(list))
    case NamesSome(list) => ListsFreed(st, NamesIn(list))
    case UsesNull => true
    case _ => false
  }

  lemma TopicQueryKeepsInv(st: State, ref: Ref, name: string)
    requires Inv(st) && ref in st.heap
    ensures Inv(HandleTopicQuery(st, ref, name))
    ensures HandleTopicQuery(st, ref, name).crashed <==> st.crashed || LeadsToFreed(st, Lower(name))
  {
    var n := Lower(name);
    if n !in st.channels {
      PushKeepsInv(st, ref, [NoSuchChannel(n)]);
    } else if Freed(st.channels[n]) {
      CrashKeepsInv(st);
    } else {
      var ch := st.channels[n];
      PushKeepsInv(st, ref, [if ch.topic != "" then TopicIs(ch.name, ch.topic) else NoTopic(ch.name)]);
    }
  }

  lemma AnswerOneKeepsInv(st: State, ref: Ref, q: Question, name: string)
    requires Inv(st) && ref in st.heap
    ensures Inv(AnswerOne(st, ref, q, name))
    ensures AnswerOne(st, ref, q, name).channels == st.channels
    ensures AnswerOne(st, ref, q, name).crashed <==> st.crashed || LeadsToFreed(st, Lower(name))
  {
    var n := Lower(name);
    CrashKeepsInv(st);
    if n in st.channels {
      PushKeepsInv(st, ref, Answer(q, st.channels[n]));
    }
  }

  /** The loops of LIST and NAMES change no table and use a freed channel exactly when a name leads to one. */
  lemma {:induction false} AnswerAllKeepsInv(st: State, ref: Ref, q: Question, names: seq<string>)
    requires Inv(st) && ref in st.heap
    ensures Inv(AnswerAll(st, ref, q, names)) && AnswerAll(st, ref, q, names).channels == st.channels
    ensures AnswerAll(st, ref, q, names).crashed <==> st.crashed || ListsFreed(st, names)
  {
    if names != [] {
      var n := |names| - 1;
      AnswerAllKeepsInv(st, ref, q, names[..n]);
      AnswerOneKeepsInv(AnswerAll(st, ref, q, names[..n]), ref, q, names[n]);
      ListsFreedSnoc(st, names, n);
    }
  }

  lemma ListKeepsInv(st: State, ref: Ref, names: seq<string>)
    requires Inv(st) && ref in st.heap
    ensures Inv(HandleList(st, ref, names))
    ensures HandleList(st, ref, names).crashed <==> st.crashed || ListsFreed(st, names)
  {
    var st0 := Push(st, ref, [ListStart]);
    PushKeepsInv(st, ref, [ListStart]);
    AnswerAllKeepsInv(st0, ref, Line, names);
    assert ListsFreed(st0, names) <==> ListsFreed(st, names);
    PushKeepsInv(AnswerAll(st0, ref, Line, names), ref, [ListEnd]);
  }

  lemma ListAllKeepsInv(st: State, ref: Ref)
    requires Inv(st) && ref in st.heap
    ensures Inv(HandleListAll(st, ref)) && (HandleListAll(st, ref).crashed <==> st.crashed || AnyFreed(st))
  {
    PushKeepsInv(st, ref, [ListStart]);
    CrashKeepsInv(Push(st, ref, [ListStart]));
    PushKeepsInv(st, ref, [ListStart, ListLines(ChannelNames(st.channels)), ListEnd]);
  }

  ghost predicate AboutClients(m: Message) {
    m.Nick? || m.User? || m.Privmsg? || m.Whois? || m.Away?
  }

  ghost predicate AboutChannels(m: Message) {
    m.Join? || m.Part? || m.TopicQuery? || m.TopicSet? || m.ListAll? || m.ListSome? || m.NamesSome?
  }

  lemma BareMessageKeepsInv(st: State, ref: Ref, m: Message)
    requires Inv(st) && ref in st.heap && !AboutClients(m) && !AboutChannels(m)
    ensures Inv(Handle(st, ref, m))
    ensures Handle(st, ref, m).crashed <==> st.crashed || Crashes(st, m)
  {
    match m
    case NickMissing => PushKeepsInv(st, ref, [NoNickGiven]);
    case UserMissing => PushKeepsInv(st, ref, [NeedMoreParams("USER")]);
    case PrivmsgNoTarget => PushKeepsInv(st, ref, [NoRecipient]);
    case PrivmsgNoText => PushKeepsInv(st, ref, [NoText]);
    case WhoisNothing =>
    case NamesNothing =>
    case JoinNothing => PushKeepsInv(st, ref, [NeedMoreParams("JOIN")]);
    case TopicNothing => PushKeepsInv(st, ref, [NeedMoreParams("TOPIC")]);
    case Answered(codes) => PushKeepsInv(st, ref, Infos(codes));
    case UsesNull => CrashKeepsInv(st);
  }

  lemma ClientMessageKeepsInv(st: State, ref: Ref, m: Message)
    requires Inv(st) && ref in st.heap && st.heap[ref].isOpen && AboutClients(m)
    ensures Inv(Handle(st, ref, m))
    ensures Handle(st, ref, m).crashed <==> st.crashed || Crashes(st, m)
  {
    match m
    case Nick(nick) => HandleNickKeepsInv(st, ref, nick);
    case User(user, full) => HandleUserKeepsInv(st, ref, user, full);
    case Privmsg(target, text) => HandlePrivmsgKeepsInv(st, ref, target, text);
    case Whois(mask) => HandleWhoisKeepsInv(st, ref, mask);
    case Away(text) => AwayKeepsInv(st, ref, text);
  }

  lemma JoinKeepsInv(st: State, ref: Ref, list: string)
    requires Inv(st) && ref in st.heap
    ensures Inv(Handle(st, ref, Join(list)))
    ensures Handle(st, ref, Join(list)).crashed <==> st.crashed || Crashes(st, Join(list))
  {
    JoinAllKeepsInv(st, ref, NamesIn(list));
    JoinAllCrashesIff(st, ref, NamesIn(list));
  }

  lemma WholeListKeepsInv(st: State, ref: Ref)
    requires Inv(st) && ref in st.heap
    ensures Inv(Handle(st, ref, ListAll))
    ensures Handle(st, ref, ListAll).crashed <==> st.crashed || Crashes(st, ListAll)
  {
    ListAllKeepsInv(st, ref);
  }

  lemma NamedListKeepsInv(st: State, ref: Ref, list: string)
    requires Inv(st) && ref in st.heap
    ensures Inv(Handle(st, ref, ListSome(list)))
    ensures Handle(st, ref, ListSome(list)).crashed <==> st.crashed || Crashes(st, ListSome(list))
  {
    ListKeepsInv(st, ref, NamesIn(list));
  }

  lemma NamesKeepInv(st: State, ref: Ref, list: string)
    requires Inv(st) && ref in st.heap
    ensures Inv(Handle(st, ref, NamesSome(list)))
    ensures Handle(st, ref, NamesSome(list)).crashed <==> st.crashed || Crashes(st, NamesSome(list))
  {
    AnswerAllKeepsInv(st, ref, Members, NamesIn(list));
  }

  lemma ListingKeepsInv(st: State, ref: Ref, m: Message)
    requires Inv(st) && ref in st.heap && (m.ListAll? || m.ListSome? || m.NamesSome?)
    ensures Inv(Handle(st, ref, m))
    ensures Handle(st, ref, m).crashed <==> st.crashed || Crashes(st, m)
  {
    match m
    case ListAll => WholeListKeepsInv(st, ref);
    case ListSome(list) => NamedListKeepsInv(st, ref, list);
    case NamesSome(list) => NamesKeepInv(st, ref, list);
  }

  lemma ChannelMessageKeepsInv(st: State, ref: Ref, m: Message)
    requires Inv(st) && ref in st.heap && AboutChannels(m)
    ensures Inv(Handle(st, ref, m))
    ensures Handle(st, ref, m).crashed <==> st.crashed || Crashes(st, m)
  {
    match m
    case Join(list) => JoinKeepsInv(st, ref, list);
    case Part(name, text) => HandlePartKeepsInv(st, ref, name, text);
    case TopicQuery(channel) => TopicQueryKeepsInv(st, ref, channel);
    case TopicSet(channel, topic) => TopicKeepsInv(st, channel, topic);
    case _ => ListingKeepsInv(st, ref, m);
  }

  /** A handler keeps the invariant, whatever the message, and crashes on exactly those messages. */
  lemma HandleKeepsInv(st: State, ref: Ref, m: Message)
    requires Inv(st) && ref in st.heap && st.heap[ref].isOpen
    ensures Inv(Handle(st, ref, m))
    ensures Handle(st, ref, m).crashed <==> st.crashed || Crashes(st, m)
  {
    if AboutClients(m) {
      ClientMessageKeepsInv(st, ref, m);
    } else if AboutChannels(m) {
      ChannelMessageKeepsInv(st, ref, m);
    } else {
      BareMessageKeepsInv(st, ref, m);
    }
  }
}
