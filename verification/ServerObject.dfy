/**
 The server object: the methods of src/client.c, src/channel.c, src/server.c and
 src/handlers.c that update its tables, counters and queues step by step. Each does what the
 function of the same name in ServerState says. Where C leaves undefined what happens, the
 method sets `crashed` and returns.
 */
module ServerObject {
  import opened Basics
  import opened ServerState
  import opened ServerInvariant
  import opened ServerRuns

  /** for (c = name; *c; c++) *c = tolower(*c), up to the end of the buffer. */
  method LowerInPlace(buf: array<char>, start: nat)
    modifies buf
    ensures buf[..] == LoweredAt(old(buf[..]), start)
  {
    ghost var s := buf[..];
    ghost var end := start + |TextAt(s, start)|;
    if start <= |s| {
      TextAtHasNoNul(s, start);
    }
    var c := start;
    while c < buf.Length && buf[c] != NUL
      invariant start <= c <= end
      invariant forall i :: 0 <= i < buf.Length ==> buf[i] == if start <= i < c then ToLower(s[i]) else s[i]
      decreases end - c
    {
      buf[c] := ToLower(buf[c]);
      c := c + 1;
    }
    LoweredBytes(s, start, buf[..], end);
  }

  lemma LoweredBytes(s: string, start: nat, r: string, end: nat)
    requires |r| == |s| && end == start + |TextAt(s, start)|
    requires forall i :: 0 <= i < |s| ==> r[i] == if start <= i < end then ToLower(s[i]) else s[i]
    ensures r == LoweredAt(s, start)
  {
    if start <= |s| {
      TextAtHasNoNul(s, start);
      InThreeParts(s, r, start, Lower(TextAt(s, start)), end);
    } else {
      assert r == s;
    }
  }

  lemma InThreeParts(s: string, r: string, start: nat, middle: string, end: nat)
    requires start + |middle| == end <= |s| == |r|
    requires forall i :: 0 <= i < |s| ==> r[i] == if start <= i < end then middle[i - start] else s[i]
    ensures r == s[..start] + middle + s[end..]
  {
  }

  lemma TextAtHasNoNul(s: string, p: nat)
    requires p <= |s|
    ensures p + |TextAt(s, p)| <= |s| && TextAt(s, p) == s[p..p + |TextAt(s, p)|]
    ensures p + |TextAt(s, p)| < |s| ==> s[p + |TextAt(s, p)|] == NUL
    ensures forall i :: p <= i < p + |TextAt(s, p)| ==> s[i] != NUL
  {
    TextAtFits(s, p);
    assert forall i :: p <= i < p + |TextAt(s, p)| ==> s[i] == TextAt(s, p)[i - p];
  }

  /** The end of the name at `i`, as strtok_r finds it. */
  method FindComma(list: string, i: nat) returns (k: nat)
    requires i <= |list|
    ensures k == CommaFrom(list, i)
  {
    k := i;
    while k < |list| && list[k] != ','
      invariant i <= k <= |list| && CommaFrom(list, k) == CommaFrom(list, i)
    {
      k := k + 1;
    }
  }

  lemma OneMoreName(st: State, ref: Ref, done: seq<string>, name: string)
    requires ref in st.heap && !JoinAll(st, ref, done).crashed
    ensures JoinAll(st, ref, done + [name]) == JoinOne(JoinAll(st, ref, done), ref, name)
  {
    assert (done + [name])[..|done|] == done;
  }

  /** The next key of a GLib table, which may come in any order. */
  method NextKey<K(==)>(s: set<K>) returns (x: K)
    requires s != {}
    ensures x in s
  {
    assert (forall y :: y !in s) ==> s == {};
    x :| x in s;
  }

  // ---------------------------------------------------------------- sending to members

  ghost function TargetsAmong(members: map<int, Ref>, ids: set<int>, source: int): set<Ref> {
    set id | id in ids && id in members && id != source :: members[id]
  }

  lemma TargetsStep(heap: map<Ref, Client>, members: map<int, Ref>, ids: set<int>, source: int, key: int)
    requires forall i :: i in members ==> members[i] in heap && heap[members[i]].id == i
    requires ids <= members.Keys && key in members && key !in ids
    ensures members[key] !in TargetsAmong(members, ids, source)
    ensures TargetsAmong(members, ids + {key}, source) ==
              TargetsAmong(members, ids, source) + (if key != source then {members[key]} else {})
  {
  }

  lemma NothingSent(heap: map<Ref, Client>, r: Reply)
    ensures SendEach(heap, {}, r) == heap
  {
  }

  lemma SendEachStep(heap: map<Ref, Client>, sent: set<Ref>, ref: Ref, r: Reply)
    requires ref in heap && ref !in sent
    ensures ref in SendEach(heap, sent, r)
    ensures SendEach(heap, sent, r)[ref := SentTo(SendEach(heap, sent, r)[ref], r)] == SendEach(heap, sent + {ref}, r)
  {
  }

  class Server {
    var heap: map<Ref, Client>
    var idCounter: int
    var nicks: map<string, int>
    var clients: map<int, Ref>
    var channels: map<string, Channel>
    var nUsers: nat
    var nUnknown: nat
    var crashed: bool

    function View(): State
      reads this
    {
      State(heap, idCounter, nicks, clients, channels, nUsers, nUnknown, crashed)
    }

    constructor ()
      ensures View() == START && Settled(View())
    {
      heap, idCounter, nicks, clients, channels := map[], 1, map[], map[], map[];
      nUsers, nUnknown, crashed := 0, 0, false;
      StartIsSettled();
    }

    /** server_generate_id */
    method GenerateId() returns (id: int)
      modifies this`idCounter
      ensures id == old(idCounter) && idCounter == id + 1
    {
      id := idCounter;
      idCounter := id + 1;
    }

    /** Server_HandleReadEvent, for an accepted connection. */
    method Accept(ref: Ref)
      requires Settled(View()) && Possible(View(), Event.Accept(ref))
      modifies this
      ensures View() == DoAccept(old(View()), ref) && Settled(View())
    {
      AcceptKeepsInv(View(), ref);
      var id := GenerateId();
      heap := heap[ref := NewClient(id)];
      nUnknown := Inc32(nUnknown);
      clients := clients[id := ref];
    }

    // ------------------------------------------------------------ queues

    /** Client_TryEmptyBuffer: pops and writes each response in turn. */
    method TryEmptyBuffer(ref: Ref)
      requires ref in heap
      modifies this`heap
      ensures View() == Flush(old(View()), ref)
    {
      ghost var c0 := heap[ref];
      while heap[ref].queue != []
        invariant heap.Keys == old(heap).Keys
        invariant heap[ref] == c0.(queue := heap[ref].queue, written := heap[ref].written)
        invariant heap[ref].written + heap[ref].queue == c0.written + c0.queue
        invariant forall r :: r in heap && r != ref ==> heap[r] == old(heap)[r]
        decreases |heap[ref].queue|
      {
        var c := heap[ref];
        var response := c.queue[0];
        heap := heap[ref := c.(queue := c.queue[1..], written := c.written + [response])];
        assert (c.written + [response]) + c.queue[1..] == c.written + c.queue;
      }
      assert heap[ref].written + [] == heap[ref].written;
      assert heap == old(heap)[ref := Emptied(c0)];
    }

    /** g_queue_push_tail */
    method PushReply(ref: Ref, r: Reply)
      requires ref in heap
      modifies this`heap
      ensures View() == Push(old(View()), ref, [r])
    {
      heap := heap[ref := Pushed(heap[ref], [r])];
    }

    /** Client_Send */
    method Send(ref: Ref, r: Reply)
      requires ref in heap
      modifies this`heap
      ensures View() == WithClient(old(View()), ref, SentTo(old(heap)[ref], r))
    {
      PushReply(ref, r);
      TryEmptyBuffer(ref);
      assert heap == old(heap)[ref := SentTo(old(heap)[ref], r)];
    }

    /** channel_send_message: iterates over the members in any order. */
    method SendMessage(members: map<int, Ref>, source: int, r: Reply)
      requires forall i :: i in members ==> members[i] in heap && heap[members[i]].id == i
      modifies this`heap
      ensures View() == SendAll(old(View()), members, source, r)
    {
      ghost var heap0 := heap;
      ghost var sent: set<Ref> := {};
      var todo := members.Keys;
      NothingSent(heap0, r);
      while todo != {}
        invariant todo <= members.Keys && heap == SendEach(heap0, sent, r)
        invariant sent == TargetsAmong(members, members.Keys - todo, source)
        decreases todo
      {
        var key := NextKey(todo);
        TargetsStep(heap0, members, members.Keys - todo, source, key);
        if key != source {
          SendEachStep(heap0, sent, members[key], r);
          Send(members[key], r);
          sent := sent + {members[key]};
        }
        assert members.Keys - (todo - {key}) == (members.Keys - todo) + {key};
        todo := todo - {key};
      }
      assert members.Keys - {} == members.Keys;
      assert Targets(members, source) == TargetsAmong(members, members.Keys, source);
    }

    // ------------------------------------------------------------ registration

    /** Client_TryRegister, and the push of its response. */
    method TryRegisterClient(ref: Ref)
      requires ref in heap
      modifies this
      ensures View() == TryRegister(old(View()), ref)
    {
      var c := heap[ref];
      if !c.registered && c.receivedUser && c.receivedNick {
        clients := clients[c.id := ref];
        heap := heap[ref := c.(registered := true)];
        nUnknown := Dec32(nUnknown);
        nUsers := Inc32(nUsers);
        PushReply(ref, Welcome(c.nickname, c.username));
      }
    }

    /** Client_TryChangeNick, for a nick that is taken or fits its field. */
    method TryChangeNick(ref: Ref, nick: string) returns (ok: bool)
      requires ref in heap && (nick in nicks || |nick| <= NICK_SIZE)
      modifies this
      ensures ok <==> nick !in old(nicks)
      ensures View() == if ok then TakeNick(old(View()), ref, nick) else Push(old(View()), ref, [NickInUse(nick)])
    {
      if nick in nicks {
        PushReply(ref, NickInUse(nick));
        return false;
      }
      var c := heap[ref];
      if c.receivedNick {
        nicks := nicks - {c.nickname};
      }
      nicks := nicks[nick := c.id];
      heap := heap[ref := c.(nickname := nick, receivedNick := true)];
      return true;
    }

    /** Handler_Nick, for a nick that was given. */
    method Nick(ref: Ref, nick: string)
      requires ref in heap
      modifies this
      ensures View() == HandleNick(old(View()), ref, nick)
    {
      if nick !in nicks && |nick| > NICK_SIZE {
        crashed := true;
        return;
      }
      var ok := TryChangeNick(ref, nick);
      if ok {
        TryRegisterClient(ref);
      }
    }

    /** Handler_User, for complete parameters. */
    method User(ref: Ref, user: string, full: string)
      requires ref in heap
      modifies this
      ensures View() == HandleUser(old(View()), ref, user, full)
    {
      if heap[ref].registered {
        PushReply(ref, AlreadyRegistered);
        return;
      }
      heap := heap[ref := heap[ref].(username := user, fullname := full, receivedUser := true)];
      TryRegisterClient(ref);
    }

    /** Handler_Privmsg, for a target and a text. */
    method Privmsg(ref: Ref, target: string, text: string)
      requires Inv(View()) && ref in heap
      modifies this
      ensures View() == HandlePrivmsg(old(View()), ref, target, text)
    {
      OpenInv(View());
      var id := heap[ref].id;
      if IsChannelName(target) {
        if target in channels {
          if Freed(channels[target]) {
            crashed := true;
            return;
          }
          ChannelMembersAreClients(View(), target);
          SendMessage(channels[target].members, id, Private(id, channels[target].name, text));
        }
        return;
      }
      LookupNeverFails(View(), target);
      var targetId := IdOf(View(), target);
      if targetId == 0 {
        PushReply(ref, NoSuchNick(target));
        return;
      }
      var to := clients[targetId];
      Send(to, Private(id, target, text));
      if heap[to].away.Some? {
        PushReply(ref, IsAway(heap[to].nickname, heap[to].away.value));
      }
    }

    // ------------------------------------------------------------ channels

    /** One round of handler_join: server_get_channel, then channel_join or server_create_channel. */
    method JoinChannel(ref: Ref, name: string)
      requires Inv(View()) && ref in heap
      modifies this
      ensures View() == JoinOne(old(View()), ref, name)
    {
      var n, id := Lower(name), heap[ref].id;
      if n in channels {
        var ch := channels[n];
        if Freed(ch) {
          crashed := true;
          return;
        }
        if id !in ch.members {
          ch := ch.(members := ch.members[id := ref]);
          channels := channels[n := ch];
          NewMemberIsClient(old(View()), n, ref);
          SendMessage(ch.members, id, Joined(id, ch.name));
        }
      } else {
        channels := channels[n := NewChannel(n, id, ref)];
      }
      assert View() == Enter(old(View()), ref, name);
      var ch := channels[n];
      heap := heap[ref := Pushed(heap[ref], JoinReplies(ch, id))];
    }

    /** handler_join, for a list of names: the loop over strtok_r. */
    method JoinChannels(ref: Ref, list: string)
      requires Inv(View()) && ref in heap && !crashed
      modifies this
      ensures View() == JoinAll(old(View()), ref, NamesIn(list))
    {
      ghost var names := NamesIn(list);
      ghost var done := [];
      var i := 0;
      while i < |list|
        invariant 0 <= i <= |list| && done + NamesFrom(list, i) == names
        invariant View() == JoinAll(old(View()), ref, done) && ref in heap && Inv(View()) && !crashed
        decreases |list| - i
      {
        if list[i] == ',' {
          i := i + 1;
        } else {
          var k := FindComma(list, i);
          ghost var name := list[i..k];
          OneMoreName(old(View()), ref, done, name);
          Associative(done, [name], NamesFrom(list, k));
          JoinOneKeepsInv(View(), ref, name);
          JoinChannel(ref, list[i..k]);
          done := done + [name];
          i := k;
          if crashed {
            CrashEndsJoin(old(View()), ref, done, NamesFrom(list, k));
            return;
          }
        }
      }
      assert done == names;
    }

    /** handler_part */
    method Part(ref: Ref, name: string, text: Option<string>)
      requires Inv(View()) && ref in heap
      modifies this
      ensures View() == HandlePart(old(View()), ref, name, text)
    {
      var n, id := Lower(name), heap[ref].id;
      if n !in channels {
        PushReply(ref, NoSuchChannel(n));
        return;
      }
      var ch := channels[n];
      if Freed(ch) {
        crashed := true;
        return;
      }
      if id !in ch.members {
        PushReply(ref, NotOnChannel(ch.name));
        return;
      }
      ChannelMembersAreClients(View(), n);
      SendMessage(ch.members, id, Parted(id, ch.name, text));
      ch := ch.(members := ch.members - {id});
      channels := channels[n := ch];
      if ch.members == map[] {
        channels := channels - {ch.name};
      }
    }

    // ------------------------------------------------------------ other messages

    /** Handler_WhoIs, for a mask. */
    method Whois(ref: Ref, mask: string)
      requires Inv(View()) && ref in heap
      modifies this
      ensures View() == HandleWhois(old(View()), ref, mask)
    {
      LookupNeverFails(View(), mask);
      var queriedId := IdOf(View(), mask);
      if queriedId == 0 {
        PushReply(ref, NoSuchNick(mask));
        return;
      }
      var q := heap[clients[queriedId]].id;
      heap := heap[ref := Pushed(heap[ref], [WhoisUser(q), WhoisServer(q), EndOfWhois(q)])];
    }

    /** handler_topic, for a channel and perhaps a topic. */
    method Topic(ref: Ref, name: string, topic: Option<string>)
      requires ref in heap
      modifies this
      ensures View() == if topic.None? then HandleTopicQuery(old(View()), ref, name)
                        else HandleTopicSet(old(View()), name, topic.value)
    {
      var n := Lower(name);
      if topic.None? {
        if n !in channels {
          PushReply(ref, NoSuchChannel(n));
        } else if Freed(channels[n]) {
          crashed := true;
        } else if channels[n].topic != "" {
          PushReply(ref, TopicIs(channels[n].name, channels[n].topic));
        } else {
          PushReply(ref, NoTopic(channels[n].name));
        }
      } else if n !in channels || Freed(channels[n]) {
        crashed := true;
      } else {
        channels := channels[n := channels[n].(topic := Truncate(topic.value, CHANNEL_TOPIC_MAX))];
      }
    }

    /** handler_away */
    method Away(ref: Ref, text: Option<string>)
      requires ref in heap
      modifies this
      ensures View() == HandleAway(old(View()), ref, text)
    {
      heap := heap[ref := heap[ref].(away := text)];
      PushReply(ref, AwaySet(text.Some?));
    }

    /** One round of the loops in handler_list and handler_names. */
    method AnswerChannel(ref: Ref, q: Question, name: string)
      requires ref in heap
      modifies this
      ensures View() == AnswerOne(old(View()), ref, q, name)
    {
      var n := Lower(name);
      if n in channels {
        if Freed(channels[n]) {
          crashed := true;
        } else {
          heap := heap[ref := Pushed(heap[ref], Answer(q, channels[n]))];
        }
      }
    }

    /** The loop over strtok_r in handler_list and in handler_names. */
    method AnswerChannels(ref: Ref, q: Question, list: string)
      requires ref in heap && !crashed
      modifies this
      ensures View() == AnswerAll(old(View()), ref, q, NamesIn(list))
    {
      ghost var names := NamesIn(list);
      ghost var done := [];
      var i := 0;
      while i < |list|
        invariant 0 <= i <= |list| && done + NamesFrom(list, i) == names
        invariant View() == AnswerAll(old(View()), ref, q, done) && ref in heap && !crashed
        decreases |list| - i
      {
        if list[i] == ',' {
          i := i + 1;
        } else {
          var k := FindComma(list, i);
          ghost var name := list[i..k];
          OneMoreAnswer(old(View()), ref, q, done, name);
          Associative(done, [name], NamesFrom(list, k));
          AnswerChannel(ref, q, list[i..k]);
          done := done + [name];
          i := k;
          if crashed {
            CrashEndsAnswers(old(View()), ref, q, done, NamesFrom(list, k));
            return;
          }
        }
      }
      assert done == names;
    }

    /** handler_list without names: the loop over the table, in any order. */
    method ListChannels() returns (lines: map<string, string>, bad: bool)
      ensures bad <==> AnyFreed(View())
      ensures !bad ==> lines == ChannelNames(channels)
    {
      var todo := channels.Keys;
      lines, bad := map[], false;
      while todo != {}
        invariant todo <= channels.Keys && !bad
        invariant lines.Keys == channels.Keys - todo
        invariant forall key :: key in lines ==> lines[key] == channels[key].name && !Freed(channels[key])
        decreases todo
      {
        var key := NextKey(todo);
        if Freed(channels[key]) {
          return lines, true;
        }
        lines := lines[key := channels[key].name];
        todo := todo - {key};
      }
    }

    /** handler_list */
    method List(ref: Ref, names: Option<string>)
      requires ref in heap && !crashed
      modifies this
      ensures View() == match names
                        case None => HandleListAll(old(View()), ref)
                        case Some(list) => HandleList(old(View()), ref, NamesIn(list))
    {
      PushReply(ref, ListStart);
      if names.None? {
        var lines, bad := ListChannels();
        if bad {
          crashed := true;
        } else {
          heap := heap[ref := Pushed(heap[ref], [ListLines(lines), ListEnd])];
          PushedTogether(old(heap)[ref], [ListStart], [ListLines(lines), ListEnd]);
          assert [ListStart] + [ListLines(lines), ListEnd] == [ListStart, ListLines(lines), ListEnd];
          assert heap == old(heap)[ref := Pushed(old(heap)[ref], [ListStart, ListLines(lines), ListEnd])];
        }
      } else {
        AnswerChannels(ref, Line, names.value);
        if !crashed {
          PushReply(ref, ListEnd);
        }
      }
    }

    /** What the handlers do with a message that lacks its parameters, or needs none. */
    method HandleBare(ref: Ref, m: Message)
      requires ref in heap && !AboutClients(m) && !AboutChannels(m)
      modifies this
      ensures View() == Handle(old(View()), ref, m)
    {
      match m
      case NickMissing => PushReply(ref, NoNickGiven);
      case UserMissing => PushReply(ref, NeedMoreParams("USER"));
      case PrivmsgNoTarget => PushReply(ref, NoRecipient);
      case PrivmsgNoText => PushReply(ref, NoText);
      case WhoisNothing =>
      case NamesNothing =>
      case JoinNothing => PushReply(ref, NeedMoreParams("JOIN"));
      case TopicNothing => PushReply(ref, NeedMoreParams("TOPIC"));
      case Answered(codes) => heap := heap[ref := Pushed(heap[ref], Infos(codes))];
      case UsesNull => crashed := true;
    }

    method HandleChannels(ref: Ref, m: Message)
      requires Inv(View()) && ref in heap && !crashed && AboutChannels(m)
      modifies this
      ensures View() == Handle(old(View()), ref, m)
    {
      match m
      case Join(list) => JoinChannels(ref, list);
      case Part(name, text) => Part(ref, name, text);
      case TopicQuery(channel) => Topic(ref, channel, None);
      case TopicSet(channel, topic) => Topic(ref, channel, Some(topic));
      case ListAll => HandleListing(ref, m);
      case ListSome(_) => HandleListing(ref, m);
      case NamesSome(_) => HandleListing(ref, m);
    }

    method HandleListing(ref: Ref, m: Message)
      requires Inv(View()) && ref in heap && !crashed && (m.ListAll? || m.ListSome? || m.NamesSome?)
      modifies this
      ensures View() == Handle(old(View()), ref, m)
    {
      ghost var st := View();
      match m
      case ListAll =>
        assert Handle(st, ref, ListAll) == HandleListAll(st, ref);
        List(ref, None);
      case ListSome(list) =>
        assert Handle(st, ref, ListSome(list)) == HandleList(st, ref, NamesIn(list));
        List(ref, Some(list));
      case NamesSome(list) =>
        assert Handle(st, ref, NamesSome(list)) == AnswerAll(st, ref, Members, NamesIn(list));
        AnswerChannels(ref, Members, list);
    }

    /** Handler_HandleMessage */
    method HandleMessage(ref: Ref, m: Message)
      requires Inv(View()) && ref in heap && !crashed
      modifies this
      ensures View() == Handle(old(View()), ref, m)
    {
      match m
      case Nick(nick) => Nick(ref, nick);
      case User(user, full) => User(ref, user, full);
      case Privmsg(target, text) => Privmsg(ref, target, text);
      case Whois(mask) => Whois(ref, mask);
      case Away(text) => Away(ref, text);
      case Join(_) => HandleChannels(ref, m);
      case Part(_, _) => HandleChannels(ref, m);
      case TopicQuery(_) => HandleChannels(ref, m);
      case TopicSet(_, _) => HandleChannels(ref, m);
      case ListAll => HandleChannels(ref, m);
      case ListSome(_) => HandleChannels(ref, m);
      case NamesSome(_) => HandleChannels(ref, m);
      case _ => HandleBare(ref, m);
    }

    /** One round of the loop in Client_HandleRead: a message, then the client's queue is drained. */
    method Receive(ref: Ref, m: Message)
      requires Settled(View()) && Possible(View(), Event.Receive(ref, m))
      modifies this
      ensures View() == DoReceive(old(View()), ref, m) && Settled(View())
    {
      ReceiveKeepsInv(View(), ref, m);
      HandleIsSteady(View(), ref, m);
      HandleMessage(ref, m);
      TryEmptyBuffer(ref);
    }

    /** The end of Client_HandleRead when the connection was closed. */
    method Close(ref: Ref)
      requires Settled(View()) && Possible(View(), Event.Close(ref))
      modifies this
      ensures View() == DoClose(old(View()), ref) && Settled(View())
    {
      CloseKeepsInv(View(), ref);
      var c := heap[ref];
      heap := heap[ref := c.(isOpen := false)];
      if c.registered {
        nUsers := Dec32(nUsers);
      } else {
        nUnknown := Dec32(nUnknown);
      }
    }
  }

  /** Once JOIN has crashed, the names still to come make no difference. */
  lemma {:induction false} CrashEndsJoin(st: State, ref: Ref, done: seq<string>, rest: seq<string>)
    requires ref in st.heap && JoinAll(st, ref, done).crashed
    ensures JoinAll(st, ref, done + rest) == JoinAll(st, ref, done)
  {
    if rest == [] {
      assert done + rest == done;
    } else {
      var n := |rest| - 1;
      CrashEndsJoin(st, ref, done, rest[..n]);
      assert (done + rest)[..|done + rest| - 1] == done + rest[..n];
    }
  }

  lemma OneMoreAnswer(st: State, ref: Ref, q: Question, done: seq<string>, name: string)
    requires ref in st.heap && !AnswerAll(st, ref, q, done).crashed
    ensures AnswerAll(st, ref, q, done + [name]) == AnswerOne(AnswerAll(st, ref, q, done), ref, q, name)
  {
    assert (done + [name])[..|done|] == done;
  }

  /** Once LIST or NAMES has crashed, the names still to come make no difference. */
  lemma {:induction false} CrashEndsAnswers(st: State, ref: Ref, q: Question, done: seq<string>, rest: seq<string>)
    requires ref in st.heap && AnswerAll(st, ref, q, done).crashed
    ensures AnswerAll(st, ref, q, done + rest) == AnswerAll(st, ref, q, done)
  {
    if rest == [] {
      assert done + rest == done;
    } else {
      var n := |rest| - 1;
      CrashEndsAnswers(st, ref, q, done, rest[..n]);
      assert (done + rest)[..|done + rest| - 1] == done + rest[..n];
    }
  }

  lemma ChannelMembersAreClients(st: State, key: string)
    requires Inv(st) && key in st.channels
    ensures forall i :: i in st.channels[key].members ==>
              st.channels[key].members[i] in st.heap && st.heap[st.channels[key].members[i]].id == i
  {
    OpenInv(st);
    assert ChannelOk(st.heap, key, st.channels[key]);
  }

  lemma NewMemberIsClient(st: State, key: string, ref: Ref)
    requires Inv(st) && key in st.channels && ref in st.heap
    ensures var members := st.channels[key].members[st.heap[ref].id := ref];
            forall i :: i in members ==> members[i] in st.heap && st.heap[members[i]].id == i
  {
    ChannelMembersAreClients(st, key);
  }
}
