/**
 Laws that relate several messages (src/client.c:16-80, src/handlers.c:87-183 and 380-494,
 src/channel.c:72-168): the orders of NICK and USER, lists of channels, joining twice,
 joining and parting, and when a channel goes away.
 */
module ServerLaws {
  import opened Basics
  import opened ServerState
  import opened ServerInvariant
  import opened ServerRuns

  // ---------------------------------------------------------------- NICK and USER

  lemma SetTwice(heap: map<Ref, Client>, ref: Ref, a: Client, b: Client)
    ensures heap[ref := a][ref := b] == heap[ref := b]
  {
  }

  lemma NickRefused(st: State, ref: Ref, nick: string)
    requires ref in st.heap && nick in st.nicks
    ensures DoReceive(st, ref, Nick(nick)) ==
              WithClient(st, ref, Emptied(Pushed(st.heap[ref], [NickInUse(nick)])))
  {
    var c := Pushed(st.heap[ref], [NickInUse(nick)]);
    SetTwice(st.heap, ref, c, Emptied(c));
  }

  lemma NickTooLong(st: State, ref: Ref, nick: string)
    requires ref in st.heap && nick !in st.nicks && |nick| > NICK_SIZE && st.heap[ref].queue == []
    ensures DoReceive(st, ref, Nick(nick)) == Crash(st)
  {
    NothingToFlush(Crash(st), ref);
  }

  function WithNick(c: Client, nick: string): Client {
    c.(nickname := nick, receivedNick := true)
  }

  lemma FirstNick(st: State, ref: Ref, nick: string)
    requires ref in st.heap && nick !in st.nicks && |nick| <= NICK_SIZE
    requires !st.heap[ref].receivedNick && !st.heap[ref].receivedUser
    ensures DoReceive(st, ref, Nick(nick)) ==
              WithClient(st, ref, Emptied(WithNick(st.heap[ref], nick))).(nicks := st.nicks[nick := st.heap[ref].id])
  {
    var c := WithNick(st.heap[ref], nick);
    assert TryRegister(TakeNick(st, ref, nick), ref) == TakeNick(st, ref, nick);
    SetTwice(st.heap, ref, c, Emptied(c));
  }

  lemma UserWithoutNick(st: State, ref: Ref, user: string, full: string)
    requires ref in st.heap && !st.heap[ref].registered && !st.heap[ref].receivedNick
    ensures DoReceive(st, ref, User(user, full)) ==
              WithClient(st, ref, Emptied(WithUser(st.heap[ref], user, full)))
  {
    var c := WithUser(st.heap[ref], user, full);
    assert TryRegister(WithClient(st, ref, c), ref) == WithClient(st, ref, c);
    SetTwice(st.heap, ref, c, Emptied(c));
  }

  /** The client after registration, its welcome written. */
  function Registered(c: Client): Client {
    Emptied(Pushed(c.(registered := true), [Welcome(c.nickname, c.username)]))
  }

  lemma Registration(st: State, ref: Ref, c: Client)
    requires ref in st.heap && !c.registered && c.receivedNick && c.receivedUser
    ensures ref in TryRegister(WithClient(st, ref, c), ref).heap
    ensures Flush(TryRegister(WithClient(st, ref, c), ref), ref) ==
              WithClient(st, ref, Registered(c))
                .(clients := st.clients[c.id := ref], nUnknown := Dec32(st.nUnknown), nUsers := Inc32(st.nUsers))
  {
    var d := c.(registered := true);
    var e := Pushed(d, [Welcome(c.nickname, c.username)]);
    SetTwice(st.heap, ref, c, d);
    SetTwice(st.heap, ref, d, e);
    SetTwice(st.heap, ref, e, Emptied(e));
  }

  lemma UserCompletes(st: State, ref: Ref, user: string, full: string)
    requires ref in st.heap && !st.heap[ref].registered && st.heap[ref].receivedNick
    ensures DoReceive(st, ref, User(user, full)) ==
              WithClient(st, ref, Registered(WithUser(st.heap[ref], user, full)))
                .(clients := st.clients[st.heap[ref].id := ref], nUnknown := Dec32(st.nUnknown), nUsers := Inc32(st.nUsers))
  {
    Registration(st, ref, WithUser(st.heap[ref], user, full));
  }

  lemma NickCompletes(st: State, ref: Ref, nick: string)
    requires ref in st.heap && nick !in st.nicks && |nick| <= NICK_SIZE
    requires !st.heap[ref].registered && !st.heap[ref].receivedNick && st.heap[ref].receivedUser
    ensures DoReceive(st, ref, Nick(nick)) ==
              WithClient(st, ref, Registered(WithNick(st.heap[ref], nick)))
                .(nicks := st.nicks[nick := st.heap[ref].id],
                  clients := st.clients[st.heap[ref].id := ref], nUnknown := Dec32(st.nUnknown), nUsers := Inc32(st.nUsers))
  {
    Registration(st.(nicks := st.nicks[nick := st.heap[ref].id]), ref, WithNick(st.heap[ref], nick));
  }

  /** For a new client, NICK then USER and USER then NICK reach the same state, whatever the nick. */
  lemma OrdersAgree(st: State, ref: Ref, nick: string, user: string, full: string)
    requires ref in st.heap && st.heap[ref].queue == []
    requires !st.heap[ref].registered && !st.heap[ref].receivedNick && !st.heap[ref].receivedUser
    ensures ref in DoReceive(st, ref, Nick(nick)).heap && ref in DoReceive(st, ref, User(user, full)).heap
    ensures DoReceive(DoReceive(st, ref, Nick(nick)), ref, User(user, full))
         == DoReceive(DoReceive(st, ref, User(user, full)), ref, Nick(nick))
  {
    var c := st.heap[ref];
    UserWithoutNick(st, ref, user, full);
    var userFirst := WithClient(st, ref, Emptied(WithUser(c, user, full)));
    if nick in st.nicks {
      NickRefused(st, ref, nick);
      var nickFirst := WithClient(st, ref, Emptied(Pushed(c, [NickInUse(nick)])));
      UserWithoutNick(nickFirst, ref, user, full);
      NickRefused(userFirst, ref, nick);
      RefusedEitherWay(c, nick, user, full);
      SetTwice(st.heap, ref, nickFirst.heap[ref], Emptied(WithUser(nickFirst.heap[ref], user, full)));
      SetTwice(st.heap, ref, userFirst.heap[ref], Emptied(WithUser(nickFirst.heap[ref], user, full)));
    } else if |nick| > NICK_SIZE {
      NickTooLong(st, ref, nick);
      NickTooLong(userFirst, ref, nick);
      UserWithoutNick(Crash(st), ref, user, full);
    } else {
      FirstNick(st, ref, nick);
      var nickFirst := WithClient(st, ref, Emptied(WithNick(c, nick))).(nicks := st.nicks[nick := c.id]);
      UserCompletes(nickFirst, ref, user, full);
      NickCompletes(userFirst, ref, nick);
      var d := Registered(WithUser(Emptied(WithNick(c, nick)), user, full));
      assert d == Registered(WithNick(Emptied(WithUser(c, user, full)), nick));
      SetTwice(st.heap, ref, nickFirst.heap[ref], d);
      SetTwice(st.heap, ref, userFirst.heap[ref], d);
    }
  }

  lemma RefusedEitherWay(c: Client, nick: string, user: string, full: string)
    requires c.queue == []
    ensures Emptied(WithUser(Emptied(Pushed(c, [NickInUse(nick)])), user, full))
         == Emptied(Pushed(Emptied(WithUser(c, user, full)), [NickInUse(nick)]))
  {
    assert c.written + [] == c.written;
    assert (c.written + ([] + [NickInUse(nick)])) + [] == c.written + ([] + [NickInUse(nick)]);
  }

  // ---------------------------------------------------------------- channel messages

  /**
   A channel message is written once to every member but the source, after what was already
   queued for it, and leaves every other client as it was.
   */
  lemma SendReachesMembersOnce(st: State, key: string, source: int, r: Reply, ref: Ref)
    requires Settled(st) && key in st.channels && ref in st.heap
    ensures var members := st.channels[key].members;
            var c, d := st.heap[ref], SendAll(st, members, source, r).heap[ref];
            if c.id in members && c.id != source
            then d == c.(written := c.written + [r], queued := c.queued + [r])
            else d == c
  {
    OpenInv(st);
    TargetsAreMembers(st, key, source, ref);
    SentToIdle(st.heap[ref], r);
  }

  lemma SentToIdle(c: Client, r: Reply)
    requires c.queue == []
    ensures SentTo(c, r) == c.(written := c.written + [r], queued := c.queued + [r])
  {
    assert [] + [r] == [r];
  }

  lemma TargetsAreMembers(st: State, key: string, source: int, ref: Ref)
    requires Consistent(st) && key in st.channels && ref in st.heap
    ensures var members := st.channels[key].members;
            ref in Targets(members, source) <==> st.heap[ref].id in members && st.heap[ref].id != source
  {
    assert ChannelOk(st.heap, key, st.channels[key]);
    var members, id := st.channels[key].members, st.heap[ref].id;
    if id in members && id != source {
      assert members[id] == ref;
    }
  }

  // ---------------------------------------------------------------- private messages

  lemma NickLeadsToOne(st: State, nick: string, r: Ref)
    requires Inv(st) && r in st.heap
    ensures nick in st.nicks ==>
              (st.heap[r].receivedNick && st.heap[r].nickname == nick <==>
                 st.nicks[nick] in st.clients && st.clients[st.nicks[nick]] == r)
    ensures nick !in st.nicks ==> !(st.heap[r].receivedNick && st.heap[r].nickname == nick)
  {
    OpenInv(st);
  }

  /** What the sender of a private message is told. */
  function AnswerToSender(st: State, target: string): seq<Reply> {
    if target !in st.nicks then [NoSuchNick(target)]
    else if st.nicks[target] in st.clients && st.clients[st.nicks[target]] in st.heap then
      match st.heap[st.clients[st.nicks[target]]].away
      case None => []
      case Some(t) => [IsAway(target, t)]
    else []
  }

  lemma WrittenAfterFlush(c: Client, sent: seq<Reply>, rs: seq<Reply>)
    requires c.queue == []
    ensures Emptied(Pushed(c.(written := c.written + sent, queued := c.queued + sent), rs))
         == c.(written := c.written + (sent + rs), queued := c.queued + (sent + rs))
  {
    assert [] + rs == rs;
    Associative(c.written, sent, rs);
    Associative(c.queued, sent, rs);
  }

  lemma PrivateMessageSent(st: State, ref: Ref, target: string, text: string)
    requires Settled(st) && ref in st.heap && !IsChannelName(target) && target in st.nicks
    ensures st.nicks[target] in st.clients && st.clients[st.nicks[target]] in st.heap
    ensures var to := st.clients[st.nicks[target]];
            var c, r := st.heap[to], Private(st.heap[ref].id, target, text);
            var sent := st.heap[to := c.(written := c.written + [r], queued := c.queued + [r])];
            HandlePrivmsg(st, ref, target, text).heap == sent[ref := Pushed(sent[ref], AnswerToSender(st, target))]
  {
    LookupNeverFails(st, target);
    var to := st.clients[st.nicks[target]];
    SentToIdle(st.heap[to], Private(st.heap[ref].id, target, text));
    var sent := SentTo(st.heap[to], Private(st.heap[ref].id, target, text));
    var heap := st.heap[to := sent];
    assert heap[ref].queue + [] == heap[ref].queue && heap[ref].queued + [] == heap[ref].queued;
    assert heap[ref := heap[ref]] == heap;
  }

  lemma ReceivePrivmsg(st: State, ref: Ref, target: string, text: string)
    requires ref in st.heap && ref in HandlePrivmsg(st, ref, target, text).heap
    ensures DoReceive(st, ref, Privmsg(target, text)) == Flush(HandlePrivmsg(st, ref, target, text), ref)
  {
  }

  lemma PrivateToNobody(st: State, ref: Ref, target: string, text: string, r: Ref)
    requires Settled(st) && ref in st.heap && r in st.heap && !IsChannelName(target) && target !in st.nicks
    ensures var c, st' := st.heap[r], DoReceive(st, ref, Privmsg(target, text));
            var rs := if r == ref then [NoSuchNick(target)] else [];
            && r in st'.heap && st' == st.(heap := st'.heap)
            && st'.heap[r] == c.(written := c.written + rs, queued := c.queued + rs)
  {
    IdleClient(st.heap[r]);
    LookupNeverFails(st, target);
    ReceivePrivmsg(st, ref, target, text);
    WrittenAfterFlush(st.heap[ref], [], [NoSuchNick(target)]);
    IdleClient(st.heap[ref]);
  }

  lemma PrivateKeepsTables(st: State, ref: Ref, target: string, text: string)
    requires Inv(st) && ref in st.heap && !IsChannelName(target)
    ensures HandlePrivmsg(st, ref, target, text) == st.(heap := HandlePrivmsg(st, ref, target, text).heap)
  {
    LookupNeverFails(st, target);
  }

  lemma PrivateToOne(st: State, ref: Ref, target: string, text: string, r: Ref)
    requires Settled(st) && ref in st.heap && r in st.heap && !IsChannelName(target) && target in st.nicks
    ensures st.nicks[target] in st.clients
    ensures var c, st' := st.heap[r], DoReceive(st, ref, Privmsg(target, text));
            var rs := (if r == st.clients[st.nicks[target]] then [Private(st.heap[ref].id, target, text)] else [])
                      + (if r == ref then AnswerToSender(st, target) else []);
            && r in st'.heap && st' == st.(heap := st'.heap)
            && st'.heap[r] == c.(written := c.written + rs, queued := c.queued + rs)
  {
    LookupNeverFails(st, target);
    PrivateMessageSent(st, ref, target, text);
    PrivateKeepsTables(st, ref, target, text);
    ReceivePrivmsg(st, ref, target, text);
    var sent := if r == st.clients[st.nicks[target]] then [Private(st.heap[ref].id, target, text)] else [];
    IdleClient(st.heap[r]);
    WrittenAfterFlush(st.heap[r], sent, AnswerToSender(st, target));
  }

  /**
   A private message is written once, to the one client that has the nick and to no other;
   beyond that only the sender hears something, that there is no such nick or that the
   target is away; and nothing else changes.
   */
  lemma PrivateReachesOne(st: State, ref: Ref, target: string, text: string, r: Ref)
    requires Settled(st) && ref in st.heap && r in st.heap
    requires target == "" || (target[0] != '#' && target[0] != '+' && target[0] != '!' && target[0] != '&')
    ensures r in DoReceive(st, ref, Privmsg(target, text)).heap
    ensures var c, st' := st.heap[r], DoReceive(st, ref, Privmsg(target, text));
            var rs := (if c.receivedNick && c.nickname == target then [Private(st.heap[ref].id, target, text)] else [])
                      + (if r == ref then AnswerToSender(st, target) else []);
            && st' == st.(heap := st'.heap)
            && st'.heap[r] == c.(written := c.written + rs, queued := c.queued + rs)
  {
    assert !IsChannelName(target);
    NickLeadsToOne(st, target, r);
    IdleClient(st.heap[r]);
    if target in st.nicks {
      PrivateToOne(st, ref, target, text, r);
    } else {
      PrivateToNobody(st, ref, target, text, r);
    }
  }

  lemma IdleClient(c: Client)
    ensures c.(written := c.written + [], queued := c.queued + []) == c
    ensures forall s: seq<Reply> :: s + [] == s && [] + s == s
  {
    assert c.written + [] == c.written && c.queued + [] == c.queued;
  }

  // ---------------------------------------------------------------- joining

  lemma SourceIsNoTarget(st: State, members: map<int, Ref>, ref: Ref)
    requires ref in st.heap
    requires forall i :: i in members ==> members[i] in st.heap && st.heap[members[i]].id == i
    ensures ref !in Targets(members, st.heap[ref].id)
  {
  }

  /** Entering a channel that the client is in changes nothing. */
  lemma EnterTwice(st: State, ref: Ref, name: string)
    requires ref in st.heap
    ensures ref in Enter(st, ref, name).heap
    ensures Inv(st) ==> Enter(Enter(st, ref, name), ref, name) == Enter(st, ref, name)
  {
    if Inv(st) {
      var n, id := Lower(name), st.heap[ref].id;
      OpenInv(st);
      if n in st.channels {
        assert ChannelOk(st.heap, n, st.channels[n]);
        var ch := st.channels[n];
        if id !in ch.members {
          SourceIsNoTarget(st, ch.members[id := ref], ref);
        }
      }
    }
  }

  lemma MemberJoins(st: State, ref: Ref, name: string)
    requires ref in st.heap && Lower(name) in st.channels && st.heap[ref].id in st.channels[Lower(name)].members
    ensures JoinOne(st, ref, name) == Push(st, ref, JoinReplies(st.channels[Lower(name)], st.heap[ref].id))
  {
  }

  lemma MemberAfterJoin(st: State, ref: Ref, name: string)
    requires ref in st.heap && !LeadsToFreed(st, Lower(name))
    ensures var once := JoinOne(st, ref, name);
            && once.heap[ref].id == st.heap[ref].id
            && Lower(name) in once.channels && st.heap[ref].id in once.channels[Lower(name)].members
  {
    JoinOneIsSteady(st, ref, name);
  }

  /** A second JOIN of the same name adds only its replies to the client itself. */
  lemma JoinIsIdempotent(st: State, ref: Ref, name: string)
    requires ref in st.heap && !LeadsToFreed(st, Lower(name))
    ensures var once := JoinOne(st, ref, name);
            && Lower(name) in once.channels
            && JoinOne(once, ref, name) == Push(once, ref, JoinReplies(once.channels[Lower(name)], st.heap[ref].id))
  {
    MemberAfterJoin(st, ref, name);
    MemberJoins(JoinOne(st, ref, name), ref, name);
  }

  // ---------------------------------------------------------------- lists of channels

  const UPPER: string := "ABCDEFGHIJKLMNOPQRSTUVWXYZ"
  const LOWER: string := "abcdefghijklmnopqrstuvwxyz"

  lemma LettersInOrder(i: nat)
    requires i < 26
    ensures |UPPER| == |LOWER| == 26 && UPPER[i] as int == 65 + i && LOWER[i] as int == 97 + i
  {
  }

  /** Each letter of the alphabet is put in lower case, and nothing else is changed. */
  lemma LettersAreLowered(c: char)
    ensures c !in UPPER ==> ToLower(c) == c
    ensures forall i :: 0 <= i < |UPPER| && c == UPPER[i] ==> i < |LOWER| && ToLower(c) == LOWER[i]
  {
    LettersInOrder(0);
    if 65 <= c as int < 91 {
      LettersInOrder(c as int - 65);
    }
    forall i | 0 <= i < |UPPER| && c == UPPER[i]
      ensures i < |LOWER| && ToLower(c) == LOWER[i]
    {
      LettersInOrder(i);
    }
  }

  ghost predicate Name(s: string) {
    s != "" && ',' !in s
  }

  lemma NameIsItsOwnList(s: string)
    requires Name(s)
    ensures NamesIn(s) == [s]
  {
    assert s[0] != ',';
    assert CommaFrom(s, 0) == |s|;
    assert s[0..|s|] == s;
    assert NamesFrom(s, |s|) == [];
  }

  lemma {:induction false} NamesOfList(s: string, i: nat)
    requires i <= |s|
    ensures forall k :: 0 <= k < |NamesFrom(s, i)| ==> Name(NamesFrom(s, i)[k])
    decreases |s| - i
  {
    if i < |s| {
      if s[i] == ',' {
        NamesOfList(s, i + 1);
      } else {
        NamesOfList(s, CommaFrom(s, i));
      }
    }
  }

  /** Each name sent in a JOIN of its own, as far as the program goes. */
  ghost function JoinEach(st: State, ref: Ref, names: seq<string>): (st': State)
    requires ref in st.heap
    ensures st'.heap.Keys == st.heap.Keys
  {
    if names == [] then st
    else
      var n := |names| - 1;
      var st1 := JoinEach(st, ref, names[..n]);
      JoinReceiveKeys(st1, ref, names[n]);
      if st1.crashed then st1 else DoReceive(st1, ref, Join(names[n]))
  }

  lemma JoinReceiveKeys(st: State, ref: Ref, list: string)
    requires ref in st.heap
    ensures DoReceive(st, ref, Join(list)).heap.Keys == st.heap.Keys
  {
    assert JoinAll(st, ref, NamesIn(list)).heap.Keys == st.heap.Keys;
  }

  /** Draining the client's queue first makes no difference to entering a channel. */
  lemma EnterAfterFlush(st: State, ref: Ref, name: string)
    requires Inv(st) && ref in st.heap
    ensures ref in Enter(st, ref, name).heap
    ensures Enter(Flush(st, ref), ref, name) == Flush(Enter(st, ref, name), ref)
  {
    var n, id := Lower(name), st.heap[ref].id;
    OpenInv(st);
    if n in st.channels && id !in st.channels[n].members {
      assert ChannelOk(st.heap, n, st.channels[n]);
      var members := st.channels[n].members[id := ref];
      SourceIsNoTarget(st, members, ref);
      SendEachAfterFlush(st.heap, ref, Targets(members, id), Joined(id, st.channels[n].name));
    }
  }

  lemma SendEachAfterFlush(heap: map<Ref, Client>, ref: Ref, targets: set<Ref>, r: Reply)
    requires ref in heap && ref !in targets
    ensures SendEach(heap[ref := Emptied(heap[ref])], targets, r)
         == SendEach(heap, targets, r)[ref := Emptied(heap[ref])]
  {
  }

  lemma FlushAfterPush(c: Client, rs: seq<Reply>)
    ensures Emptied(Pushed(Emptied(c), rs)) == Emptied(Pushed(c, rs))
  {
    assert (c.written + c.queue) + ([] + rs) == c.written + (c.queue + rs);
  }

  lemma JoinOneAfterFlush(st: State, ref: Ref, name: string)
    requires Inv(st) && ref in st.heap
    ensures Flush(JoinOne(Flush(st, ref), ref, name), ref) == Flush(JoinOne(st, ref, name), ref)
  {
    if LeadsToFreed(st, Lower(name)) {
      NothingToFlush(Flush(Crash(st), ref), ref);
    } else {
      EnterAfterFlush(st, ref, name);
      EnterKeepsRefs(st, ref, name);
      var st1 := Enter(st, ref, name);
      var rs := JoinReplies(st1.channels[Lower(name)], st.heap[ref].id);
      FlushAfterPush(st1.heap[ref], rs);
      SetTwice(st1.heap, ref, Emptied(st1.heap[ref]), Pushed(Emptied(st1.heap[ref]), rs));
    }
  }

  lemma SingleJoin(st: State, ref: Ref, name: string)
    requires ref in st.heap && Name(name) && !st.crashed
    ensures DoReceive(st, ref, Join(name)) == Flush(JoinOne(st, ref, name), ref)
  {
    NameIsItsOwnList(name);
    assert [name][..0] == [];
    assert JoinAll(st, ref, [name]) == JoinOne(JoinAll(st, ref, []), ref, name);
  }

  lemma OneMoreJoin(before: State, ref: Ref, name: string)
    requires Inv(before) && ref in before.heap && Name(name) && !before.crashed
    ensures DoReceive(Flush(before, ref), ref, Join(name)) == Flush(JoinOne(before, ref, name), ref)
  {
    JoinOneAfterFlush(before, ref, name);
    SingleJoin(Flush(before, ref), ref, name);
  }

  lemma NothingToFlush(st: State, ref: Ref)
    requires ref in st.heap && st.heap[ref].queue == []
    ensures Flush(st, ref) == st
  {
    assert st.heap[ref].written + [] == st.heap[ref].written;
    assert st.heap[ref := st.heap[ref]] == st.heap;
  }

  lemma {:induction false} JoinAllIsEach(st: State, ref: Ref, names: seq<string>)
    requires Inv(st) && ref in st.heap && st.heap[ref].queue == []
    requires forall i :: 0 <= i < |names| ==> Name(names[i])
    ensures Flush(JoinAll(st, ref, names), ref) == JoinEach(st, ref, names)
  {
    if names == [] {
      NothingToFlush(st, ref);
    } else {
      var n := |names| - 1;
      JoinAllIsEach(st, ref, names[..n]);
      JoinAllKeepsInv(st, ref, names[..n]);
      if !JoinAll(st, ref, names[..n]).crashed {
        OneMoreJoin(JoinAll(st, ref, names[..n]), ref, names[n]);
      }
    }
  }

  lemma ReceiveJoin(st: State, ref: Ref, list: string, names: seq<string>)
    requires ref in st.heap && names == NamesIn(list)
    ensures DoReceive(st, ref, Join(list)) == Flush(JoinAll(st, ref, names), ref)
  {
  }

  /** A JOIN with a list of channels is the same as a JOIN for each of its names in turn. */
  lemma JoinListIsEach(st: State, ref: Ref, list: string)
    requires Settled(st) && ref in st.heap
    ensures DoReceive(st, ref, Join(list)) == JoinEach(st, ref, NamesIn(list))
  {
    var names := NamesIn(list);
    NamesOfList(list, 0);
    OpenInv(st);
    ReceiveJoin(st, ref, list, names);
    JoinAllIsEach(st, ref, names);
  }

  // ---------------------------------------------------------------- lists in two parts

  lemma {:induction false} CommaShifted(p: string, b: string, i: nat)
    requires i <= |b|
    ensures CommaFrom(p + b, |p| + i) == |p| + CommaFrom(b, i)
    decreases |b| - i
  {
    if i < |b| && b[i] != ',' {
      CommaShifted(p, b, i + 1);
    }
  }

  lemma OneMoreName(s: string, i: nat, k: nat)
    requires i < |s| && s[i] != ',' && k == CommaFrom(s, i)
    ensures NamesFrom(s, i) == [s[i..k]] + NamesFrom(s, k)
  {
  }

  lemma {:induction false} NamesShifted(p: string, b: string, i: nat)
    requires i <= |b|
    ensures NamesFrom(p + b, |p| + i) == NamesFrom(b, i)
    decreases |b| - i
  {
    if i < |b| {
      if b[i] == ',' {
        NamesShifted(p, b, i + 1);
      } else {
        var k := CommaFrom(b, i);
        CommaShifted(p, b, i);
        OneMoreName(b, i, k);
        OneMoreName(p + b, |p| + i, |p| + k);
        NamesShifted(p, b, k);
        assert (p + b)[|p| + i..|p| + k] == b[i..k];
      }
    }
  }

  lemma {:induction false} CommaBefore(a: string, rest: string, i: nat)
    requires i <= |a| && rest != "" && rest[0] == ','
    ensures CommaFrom(a + rest, i) == CommaFrom(a, i)
    decreases |a| - i
  {
    if i < |a| && a[i] != ',' {
      CommaBefore(a, rest, i + 1);
    }
  }

  lemma {:induction false} NamesBefore(a: string, rest: string, i: nat)
    requires i <= |a| && rest != "" && rest[0] == ','
    ensures NamesFrom(a + rest, i) == NamesFrom(a, i) + NamesFrom(a + rest, |a|)
    decreases |a| - i
  {
    if i < |a| {
      if a[i] == ',' {
        NamesBefore(a, rest, i + 1);
      } else {
        var k := CommaFrom(a, i);
        CommaBefore(a, rest, i);
        NamesBefore(a, rest, k);
        assert (a + rest)[i..k] == a[i..k];
        Associative([a[i..k]], NamesFrom(a, k), NamesFrom(a + rest, |a|));
      }
    }
  }

  /**
   The names of two lists with a comma between them are those of the one and then those of the
   other. With the lists of one name and of none, this says what the names of every list are.
   */
  lemma NamesOfTwoLists(a: string, b: string)
    ensures NamesIn("") == [] && NamesIn(a + "," + b) == NamesIn(a) + NamesIn(b)
  {
    assert a + "," + b == a + ("," + b);
    NamesBefore(a, "," + b, 0);
    assert (a + "," + b)[|a|] == ',';
    NamesShifted(a + ",", b, 0);
    assert |a + ","| == |a| + 1;
  }

  lemma JoinEachSnoc(st: State, ref: Ref, names: seq<string>, name: string)
    requires ref in st.heap
    ensures ref in JoinEach(st, ref, names).heap
    ensures JoinEach(st, ref, names + [name])
         == if JoinEach(st, ref, names).crashed then JoinEach(st, ref, names)
            else DoReceive(JoinEach(st, ref, names), ref, Join(name))
  {
    assert (names + [name])[..|names|] == names;
  }

  lemma {:induction false} JoinEachOfTwo(st: State, ref: Ref, a: seq<string>, b: seq<string>, first: State)
    requires ref in st.heap && first == JoinEach(st, ref, a)
    ensures JoinEach(st, ref, a + b) == if first.crashed then first else JoinEach(first, ref, b)
    decreases |b|
  {
    if b == [] {
      assert a + b == a;
    } else {
      var n := |b| - 1;
      JoinEachOfTwo(st, ref, a, b[..n], first);
      FrontAndLast(b);
      Associative(a, b[..n], [b[n]]);
      JoinEachSnoc(st, ref, a + b[..n], b[n]);
      JoinEachSnoc(first, ref, b[..n], b[n]);
    }
  }

  lemma JoinStaysSettled(st: State, ref: Ref, list: string, after: State)
    requires Settled(st) && ref in st.heap && after == DoReceive(st, ref, Join(list))
    ensures Settled(after)
  {
    ReceiveJoin(st, ref, list, NamesIn(list));
    JoinAllKeepsInv(st, ref, NamesIn(list));
    FlushKeepsInv(JoinAll(st, ref, NamesIn(list)), ref);
    ReceiveIsSteady(st, ref, Join(list));
  }

  /** A JOIN of two lists with a comma between them is a JOIN of the one and then one of the other. */
  lemma JoinListIsFold(st: State, ref: Ref, a: string, b: string)
    requires Settled(st) && ref in st.heap
    ensures ref in DoReceive(st, ref, Join(a)).heap
    ensures var first := DoReceive(st, ref, Join(a));
            DoReceive(st, ref, Join(a + "," + b)) == if first.crashed then first else DoReceive(first, ref, Join(b))
  {
    NamesOfTwoLists(a, b);
    JoinListIsEach(st, ref, a);
    JoinEachOfTwo(st, ref, NamesIn(a), NamesIn(b), DoReceive(st, ref, Join(a)));
    JoinListIsEach(st, ref, a + "," + b);
    JoinStaysSettled(st, ref, a, DoReceive(st, ref, Join(a)));
    JoinReceiveKeys(st, ref, a);
    JoinListIsEach(DoReceive(st, ref, Join(a)), ref, b);
  }

  // ---------------------------------------------------------------- joining and parting

  /**
   A client that is not a member joins and parts: the channel table is as it was exactly when
   the channel existed or its name fits the 50 bytes of the channel's name field.
   */
  lemma JoinThenPartRestoresIff(st: State, ref: Ref, name: string, text: Option<string>)
    requires ref in st.heap
    requires Lower(name) in st.channels ==> st.heap[ref].id !in st.channels[Lower(name)].members
    ensures HandlePart(JoinOne(st, ref, name), ref, name, text).channels == st.channels <==>
              Lower(name) in st.channels || |name| <= CHANNEL_NAME_MAX
  {
    var n, id := Lower(name), st.heap[ref].id;
    if !LeadsToFreed(st, n) {
      MemberAfterJoin(st, ref, name);
      PartOfMember(JoinOne(st, ref, name), ref, name, text);
      if n in st.channels {
        JoinThenPartOld(st.channels, n, id, ref);
      } else {
        JoinThenPartNew(st.channels, n, id, ref);
      }
    }
  }

  lemma PartOfMember(st: State, ref: Ref, name: string, text: Option<string>)
    requires ref in st.heap && Lower(name) in st.channels && st.heap[ref].id in st.channels[Lower(name)].members
    ensures var n, id := Lower(name), st.heap[ref].id;
            var left := st.channels[n].(members := st.channels[n].members - {id});
            HandlePart(st, ref, name, text).channels ==
              if left.members == map[] then st.channels[n := left] - {left.name} else st.channels[n := left]
  {
  }

  lemma JoinThenPartOld(channels: map<string, Channel>, n: string, id: int, ref: Ref)
    requires n in channels && id !in channels[n].members && channels[n].members != map[]
    ensures channels[n].members[id := ref] - {id} == channels[n].members
    ensures channels[n := channels[n].(members := channels[n].members[id := ref])]
              [n := channels[n].(members := channels[n].members[id := ref] - {id})] == channels
  {
  }

  lemma JoinThenPartNew(channels: map<string, Channel>, n: string, id: int, ref: Ref)
    requires n !in channels
    ensures var ch := NewChannel(n, id, ref);
            && ch.members - {id} == map[]
            && (channels[n := ch][n := ch.(members := map[])] - {ch.name} == channels <==> |n| <= CHANNEL_NAME_MAX)
  {
    var ch := NewChannel(n, id, ref);
    var after := channels[n := ch][n := ch.(members := map[])] - {ch.name};
    if |n| > CHANNEL_NAME_MAX {
      assert n in after;
    } else {
      assert after == channels;
    }
  }

  // ---------------------------------------------------------------- channels that go away

  lemma {:induction false} JoinAllKeepsKeys(st: State, ref: Ref, names: seq<string>, key: string)
    requires ref in st.heap && key in st.channels
    ensures key in JoinAll(st, ref, names).channels
  {
    if names != [] {
      JoinAllKeepsKeys(st, ref, names[..|names| - 1], key);
    }
  }

  lemma RegistrationKeepsChannels(st: State, ref: Ref)
    requires ref in st.heap
    ensures TryRegister(st, ref).channels == st.channels
  {
  }

  lemma {:induction false} AnswersKeepChannels(st: State, ref: Ref, q: Question, names: seq<string>)
    requires ref in st.heap
    ensures AnswerAll(st, ref, q, names).channels == st.channels
  {
    if names != [] {
      AnswersKeepChannels(st, ref, q, names[..|names| - 1]);
    }
  }

  lemma ListingKeepsChannels(st: State, ref: Ref, m: Message)
    requires ref in st.heap && (m.ListAll? || m.ListSome? || m.NamesSome?)
    ensures Handle(st, ref, m).channels == st.channels
  {
    if m.ListSome? {
      AnswersKeepChannels(Push(st, ref, [ListStart]), ref, Line, NamesIn(m.list));
    } else if m.NamesSome? {
      AnswersKeepChannels(st, ref, Members, NamesIn(m.list));
    }
  }

  lemma RegisteringKeepsChannels(st: State, ref: Ref, m: Message)
    requires ref in st.heap && (m.Nick? || m.User?)
    ensures Handle(st, ref, m).channels == st.channels
  {
    if m.Nick? {
      if m.nick !in st.nicks && |m.nick| <= NICK_SIZE {
        RegistrationKeepsChannels(TakeNick(st, ref, m.nick), ref);
      }
    } else if !st.heap[ref].registered {
      RegistrationKeepsChannels(WithClient(st, ref, WithUser(st.heap[ref], m.user, m.full)), ref);
    }
  }

  /** No message but PART frees a channel or takes one from the table. */
  lemma OtherMessagesKeepKeys(st: State, ref: Ref, m: Message, key: string)
    requires ref in st.heap && key in st.channels && !m.Part?
    ensures key in Handle(st, ref, m).channels
    ensures Freed(Handle(st, ref, m).channels[key]) <==> Freed(st.channels[key])
  {
    if m.Join? {
      JoinAllKeepsKeys(st, ref, NamesIn(m.list), key);
      JoinAllKeepsFreed(st, ref, NamesIn(m.list), key);
    } else if m.Nick? || m.User? {
      RegisteringKeepsChannels(st, ref, m);
    } else if m.ListAll? || m.ListSome? || m.NamesSome? {
      ListingKeepsChannels(st, ref, m);
    }
  }

  lemma ReceiveKeepsChannels(st: State, ref: Ref, m: Message)
    requires ref in st.heap
    ensures DoReceive(st, ref, m).channels == Handle(st, ref, m).channels
  {
  }

  lemma OnlyMember(members: map<int, Ref>, id: int)
    requires id in members
    ensures members - {id} == map[] <==> members.Keys == {id}
  {
    if members - {id} == map[] {
      forall i | i in members
        ensures i == id
      {
        assert i != id ==> i in members - {id};
      }
    } else {
      assert members - {id} != map[];
    }
  }

  /** What PART does to a channel: drops it, frees it in the table, or neither. */
  lemma PartDropsIff(st: State, ref: Ref, name: string, text: Option<string>, key: string)
    requires Inv(st) && ref in st.heap && key in st.channels
    ensures var n, id := Lower(name), st.heap[ref].id;
            var channels := HandlePart(st, ref, name, text).channels;
            var last := n in st.channels && st.channels[n].members.Keys == {id};
            && (key !in channels <==> last && Truncate(n, CHANNEL_NAME_MAX) == key)
            && (key in channels && !Freed(st.channels[key]) ==>
                  (Freed(channels[key]) <==> last && n == key && |key| > CHANNEL_NAME_MAX))
  {
    OpenInv(st);
    var n, id := Lower(name), st.heap[ref].id;
    if n in st.channels && id in st.channels[n].members {
      assert ChannelOk(st.heap, n, st.channels[n]);
      OnlyMember(st.channels[n].members, id);
      PartOfMember(st, ref, name, text);
    }
  }

  /**
   A channel goes out of the table in a step exactly when someone parts from a channel as its
   only member, and the first 50 bytes of that channel's name are this one's.
   */
  lemma ChannelGoesAwayIff(st: State, e: Event, key: string)
    requires Settled(st) && Possible(st, e) && key in st.channels
    ensures key !in Step(st, e).channels <==>
              && e.Receive? && e.message.Part?
              && LastMemberOf(st, e.ref, Lower(e.message.name))
              && Truncate(Lower(e.message.name), CHANNEL_NAME_MAX) == key
  {
    match e
    case Receive(ref, m) =>
      ReceiveKeepsChannels(st, ref, m);
      if m.Part? {
        PartDropsIff(st, ref, m.name, m.partText, key);
      } else {
        OtherMessagesKeepKeys(st, ref, m, key);
      }
    case Accept(_) =>
    case Close(ref) => DoCloseFields(st, ref);
  }

  predicate LastMemberOf(st: State, ref: Ref, key: string) {
    ref in st.heap && key in st.channels && st.channels[key].members.Keys == {st.heap[ref].id}
  }

  /** A channel is freed but stays in the table exactly when its only member parts and its name is too long. */
  lemma ChannelFreedInTableIff(st: State, e: Event, key: string)
    requires Settled(st) && Possible(st, e) && key in st.channels && !Freed(st.channels[key])
    ensures LeadsToFreed(Step(st, e), key) <==>
              && e.Receive? && e.message.Part? && Lower(e.message.name) == key
              && LastMemberOf(st, e.ref, key) && |key| > CHANNEL_NAME_MAX
  {
    match e
    case Receive(ref, m) =>
      ReceiveKeepsChannels(st, ref, m);
      if m.Part? {
        PartDropsIff(st, ref, m.name, m.partText, key);
      } else {
        OtherMessagesKeepKeys(st, ref, m, key);
      }
    case Accept(_) =>
    case Close(ref) => DoCloseFields(st, ref);
  }
}
