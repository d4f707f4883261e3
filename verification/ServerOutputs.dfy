/**
 What each message does, seen from the clients' side: what is written to whom, and which
 entries of the tables change, and that nothing else does. Here no handler is named; the
 states compared are those before and after the message.
 */
module ServerOutputs {
  import opened Basics
  import opened ServerState
  import opened ServerInvariant
  import opened ServerRuns
  import opened ServerLaws

  /** A client to which these replies have been written. */
  function Hears(c: Client, rs: seq<Reply>): Client {
    c.(written := c.written + rs, queued := c.queued + rs)
  }

  /** The state in which one client has become another, and nothing else has changed. */
  function With(st: State, ref: Ref, c: Client): State {
    st.(heap := st.heap[ref := c])
  }

  lemma PushedIsHeard(c: Client, rs: seq<Reply>)
    requires c.queue == []
    ensures Emptied(Pushed(c, rs)) == Hears(c, rs)
  {
    assert [] + rs == rs;
  }

  lemma PushIsHeard(st: State, ref: Ref, rs: seq<Reply>)
    requires ref in st.heap && st.heap[ref].queue == []
    ensures Flush(Push(st, ref, rs), ref) == With(st, ref, Hears(st.heap[ref], rs))
  {
    PushedIsHeard(st.heap[ref], rs);
    SetTwice(st.heap, ref, Pushed(st.heap[ref], rs), Hears(st.heap[ref], rs));
  }

  lemma HearsNothing(c: Client)
    ensures Hears(c, []) == c
  {
    assert c.written + [] == c.written && c.queued + [] == c.queued;
  }

  lemma SelfMapped(st: State, ref: Ref)
    requires Settled(st) && ref in st.heap
    ensures st.clients[st.heap[ref].id := ref] == st.clients && st.heap[ref].queue == []
    ensures st.heap[ref].registered <==> st.heap[ref].receivedNick && st.heap[ref].receivedUser
  {
    OpenInv(st);
    assert ClientOk(st.heap[ref]);
  }

  // ---------------------------------------------------------------- NICK and USER

  /** A nick that is taken is refused, and nothing else happens. */
  lemma TakenNickIsRefused(st: State, ref: Ref, nick: string)
    requires Settled(st) && ref in st.heap && nick in st.nicks
    ensures DoReceive(st, ref, Nick(nick)) == With(st, ref, Hears(st.heap[ref], [NickInUse(nick)]))
  {
    PushIsHeard(st, ref, [NickInUse(nick)]);
  }

  /** The changes to the tables when a client is known under a nick, and perhaps registered. */
  ghost predicate OnlyNicks(st: State, st': State, nicks: map<string, int>) {
    st' == st.(heap := st'.heap, nicks := nicks, nUsers := st'.nUsers, nUnknown := st'.nUnknown)
  }

  lemma NickWithoutWelcome(st: State, ref: Ref, nick: string)
    requires Settled(st) && ref in st.heap && nick !in st.nicks && |nick| <= NICK_SIZE
    requires st.heap[ref].registered || !st.heap[ref].receivedUser
    ensures DoReceive(st, ref, Nick(nick)).heap
         == st.heap[ref := st.heap[ref].(nickname := nick, receivedNick := true)]
    ensures DoReceive(st, ref, Nick(nick)) == TakeNick(st, ref, nick)
  {
    var c := WithNick(st.heap[ref], nick);
    SelfMapped(st, ref);
    assert TryRegister(TakeNick(st, ref, nick), ref) == TakeNick(st, ref, nick);
    NothingToFlush(TakeNick(st, ref, nick), ref);
  }

  /**
   A free nick of at most nine bytes is the client's from now on, and no longer the one before;
   if USER has come, the client is welcomed under it; nobody else hears anything.
   */
  lemma NickIsTakenOver(st: State, ref: Ref, nick: string)
    requires Settled(st) && ref in st.heap && nick !in st.nicks && |nick| <= 9
    ensures var c, st' := st.heap[ref], DoReceive(st, ref, Nick(nick));
            && st'.heap == st.heap[ref := Hears(c.(nickname := nick, receivedNick := true, registered := c.receivedUser),
                                                if c.receivedUser && !c.receivedNick then [Welcome(nick, c.username)] else [])]
            && OnlyNicks(st, st', (if c.receivedNick then st.nicks - {c.nickname} else st.nicks)[nick := c.id])
  {
    var c := st.heap[ref];
    var d := c.(nickname := nick, receivedNick := true, registered := c.receivedUser);
    SelfMapped(st, ref);
    if c.receivedUser && !c.receivedNick {
      NickCompletes(st, ref, nick);
      PushedIsHeard(d, [Welcome(nick, c.username)]);
    } else {
      NickWithoutWelcome(st, ref, nick);
      HearsNothing(d);
    }
  }

  lemma RegisteredUserIsRefused(st: State, ref: Ref, user: string, full: string)
    requires Settled(st) && ref in st.heap && st.heap[ref].registered
    ensures DoReceive(st, ref, User(user, full)) == With(st, ref, Hears(st.heap[ref], [AlreadyRegistered]))
  {
    SelfMapped(st, ref);
    PushIsHeard(st, ref, [AlreadyRegistered]);
  }

  /** USER stores both names; if NICK has come, the client is welcomed with them; nobody else hears anything. */
  lemma UserIsStored(st: State, ref: Ref, user: string, full: string)
    requires Settled(st) && ref in st.heap && !st.heap[ref].registered
    ensures var c, st' := st.heap[ref], DoReceive(st, ref, User(user, full));
            && st'.heap == st.heap[ref := Hears(c.(username := user, fullname := full, receivedUser := true,
                                                   registered := c.receivedNick),
                                                if c.receivedNick then [Welcome(c.nickname, user)] else [])]
            && OnlyNicks(st, st', st.nicks)
  {
    var c := st.heap[ref];
    var d := c.(username := user, fullname := full, receivedUser := true, registered := c.receivedNick);
    SelfMapped(st, ref);
    if c.receivedNick {
      UserCompletes(st, ref, user, full);
      PushedIsHeard(d, [Welcome(c.nickname, user)]);
    } else {
      UserWithoutNick(st, ref, user, full);
      assert c.written + [] == c.written;
      HearsNothing(d);
    }
  }

  // ---------------------------------------------------------------- answers to the sender alone

  /** WHOIS is answered with the id of the client that has the nick, or with its absence. */
  lemma WhoisIsAnswered(st: State, ref: Ref, mask: string)
    requires Settled(st) && ref in st.heap
    ensures DoReceive(st, ref, Whois(mask))
         == With(st, ref, Hears(st.heap[ref],
                                if mask in st.nicks
                                then [WhoisUser(st.nicks[mask]), WhoisServer(st.nicks[mask]), EndOfWhois(st.nicks[mask])]
                                else [NoSuchNick(mask)]))
  {
    SelfMapped(st, ref);
    LookupNeverFails(st, mask);
    if mask in st.nicks {
      var q := st.nicks[mask];
      OpenInv(st);
      assert IdOf(st, mask) == q && st.heap[st.clients[q]].id == q;
      PushIsHeard(st, ref, [WhoisUser(q), WhoisServer(q), EndOfWhois(q)]);
    } else {
      PushIsHeard(st, ref, [NoSuchNick(mask)]);
    }
  }

  /** AWAY stores or clears the text, and says so to the client itself. */
  lemma AwayIsStored(st: State, ref: Ref, text: Option<string>)
    requires Settled(st) && ref in st.heap
    ensures DoReceive(st, ref, Away(text))
         == With(st, ref, Hears(st.heap[ref].(away := text), [AwaySet(text.Some?)]))
  {
    SelfMapped(st, ref);
    var c := st.heap[ref].(away := text);
    PushIsHeard(WithClient(st, ref, c), ref, [AwaySet(text.Some?)]);
    SetTwice(st.heap, ref, c, Hears(c, [AwaySet(text.Some?)]));
  }

  lemma PushIsTold(st: State, ref: Ref, m: Message, r: Reply)
    requires Settled(st) && ref in st.heap && Handle(st, ref, m) == Push(st, ref, [r])
    ensures DoReceive(st, ref, m) == With(st, ref, Hears(st.heap[ref], [r]))
  {
    PushIsHeard(st, ref, [r]);
  }

  /** What is missing in a message is told to the client itself. */
  lemma MissingIsTold(st: State, ref: Ref)
    requires Settled(st) && ref in st.heap
    ensures DoReceive(st, ref, NickMissing) == With(st, ref, Hears(st.heap[ref], [NoNickGiven]))
    ensures DoReceive(st, ref, UserMissing) == With(st, ref, Hears(st.heap[ref], [NeedMoreParams("USER")]))
    ensures DoReceive(st, ref, PrivmsgNoTarget) == With(st, ref, Hears(st.heap[ref], [NoRecipient]))
    ensures DoReceive(st, ref, PrivmsgNoText) == With(st, ref, Hears(st.heap[ref], [NoText]))
    ensures DoReceive(st, ref, JoinNothing) == With(st, ref, Hears(st.heap[ref], [NeedMoreParams("JOIN")]))
    ensures DoReceive(st, ref, TopicNothing) == With(st, ref, Hears(st.heap[ref], [NeedMoreParams("TOPIC")]))
  {
    TwoMissing(st, ref);
    NoMessage(st, ref);
    NoChannel(st, ref);
  }

  lemma TwoMissing(st: State, ref: Ref)
    requires Settled(st) && ref in st.heap
    ensures DoReceive(st, ref, NickMissing) == With(st, ref, Hears(st.heap[ref], [NoNickGiven]))
    ensures DoReceive(st, ref, UserMissing) == With(st, ref, Hears(st.heap[ref], [NeedMoreParams("USER")]))
  {
    PushIsTold(st, ref, NickMissing, NoNickGiven);
    PushIsTold(st, ref, UserMissing, NeedMoreParams("USER"));
  }

  lemma NoMessage(st: State, ref: Ref)
    requires Settled(st) && ref in st.heap
    ensures DoReceive(st, ref, PrivmsgNoTarget) == With(st, ref, Hears(st.heap[ref], [NoRecipient]))
    ensures DoReceive(st, ref, PrivmsgNoText) == With(st, ref, Hears(st.heap[ref], [NoText]))
  {
    PushIsTold(st, ref, PrivmsgNoTarget, NoRecipient);
    PushIsTold(st, ref, PrivmsgNoText, NoText);
  }

  lemma NoChannel(st: State, ref: Ref)
    requires Settled(st) && ref in st.heap
    ensures DoReceive(st, ref, JoinNothing) == With(st, ref, Hears(st.heap[ref], [NeedMoreParams("JOIN")]))
    ensures DoReceive(st, ref, TopicNothing) == With(st, ref, Hears(st.heap[ref], [NeedMoreParams("TOPIC")]))
  {
    PushIsTold(st, ref, JoinNothing, NeedMoreParams("JOIN"));
    PushIsTold(st, ref, TopicNothing, NeedMoreParams("TOPIC"));
  }

  /** WHOIS and NAMES without a name change nothing and are not answered. */
  lemma NothingIsSaid(st: State, ref: Ref)
    requires Settled(st) && ref in st.heap
    ensures DoReceive(st, ref, WhoisNothing) == st && DoReceive(st, ref, NamesNothing) == st
  {
    SelfMapped(st, ref);
    NothingToFlush(st, ref);
  }

  /** The question for a topic is answered by the topic, its absence, or the absence of the channel. */
  lemma TopicIsAnswered(st: State, ref: Ref, channel: string)
    requires Settled(st) && ref in st.heap && !LeadsToFreed(st, Lower(channel))
    ensures var n := Lower(channel);
            var answer := if n !in st.channels then NoSuchChannel(n)
                          else if st.channels[n].topic == "" then NoTopic(st.channels[n].name)
                          else TopicIs(st.channels[n].name, st.channels[n].topic);
            DoReceive(st, ref, TopicQuery(channel)) == With(st, ref, Hears(st.heap[ref], [answer]))
  {
    var n := Lower(channel);
    SelfMapped(st, ref);
    if n !in st.channels {
      PushIsHeard(st, ref, [NoSuchChannel(n)]);
    } else if st.channels[n].topic == "" {
      PushIsHeard(st, ref, [NoTopic(st.channels[n].name)]);
    } else {
      PushIsHeard(st, ref, [TopicIs(st.channels[n].name, st.channels[n].topic)]);
    }
  }

  /** A topic set is the channel's, cut after 255 bytes; nobody hears of it. */
  lemma TopicIsStored(st: State, ref: Ref, channel: string, topic: string)
    requires Settled(st) && ref in st.heap && Lower(channel) in st.channels && !LeadsToFreed(st, Lower(channel))
    ensures var n := Lower(channel);
            var ch := st.channels[n].(topic := if |topic| <= 255 then topic else topic[..255]);
            DoReceive(st, ref, TopicSet(channel, topic)) == st.(channels := st.channels[n := ch])
  {
    SelfMapped(st, ref);
    NothingToFlush(HandleTopicSet(st, channel, topic), ref);
  }

  // ---------------------------------------------------------------- messages to channels

  lemma NotItself(st: State, ref: Ref, r: Ref)
    requires Settled(st) && ref in st.heap && r in st.heap
    ensures st.heap[r].id == st.heap[ref].id <==> r == ref
  {
    OpenInv(st);
  }

  /** The other clients among the members of a channel. */
  predicate OtherMember(st: State, ref: Ref, key: string, r: Ref)
    requires r in st.heap
  {
    r != ref && key in st.channels && st.heap[r].id in st.channels[key].members
  }

  lemma SentToMembers(st: State, ref: Ref, key: string, reply: Reply, r: Ref)
    requires Settled(st) && ref in st.heap && r in st.heap && key in st.channels
    ensures SendAll(st, st.channels[key].members, st.heap[ref].id, reply).heap[r]
         == Hears(st.heap[r], if OtherMember(st, ref, key, r) then [reply] else [])
  {
    SendReachesMembersOnce(st, key, st.heap[ref].id, reply, r);
    NotItself(st, ref, r);
    HearsNothing(st.heap[r]);
  }

  /**
   A message to a channel is written once to each other member of the channel, from the sender,
   under the channel's name; nobody else hears anything, and nothing else changes.
   */
  lemma ChannelMessageReachesMembers(st: State, ref: Ref, target: string, text: string, r: Ref)
    requires Settled(st) && ref in st.heap && r in st.heap && !LeadsToFreed(st, target)
    requires target != "" && (target[0] == '#' || target[0] == '+' || target[0] == '!' || target[0] == '&')
    ensures r in DoReceive(st, ref, Privmsg(target, text)).heap
    ensures var st' := DoReceive(st, ref, Privmsg(target, text));
            && st' == st.(heap := st'.heap) && st'.heap.Keys == st.heap.Keys
            && st'.heap[r] == Hears(st.heap[r], if OtherMember(st, ref, target, r)
                                                then [Private(st.heap[ref].id, st.channels[target].name, text)] else [])
  {
    SelfMapped(st, ref);
    HearsNothing(st.heap[r]);
    if target in st.channels {
      var reply := Private(st.heap[ref].id, st.channels[target].name, text);
      SentToMembers(st, ref, target, reply, r);
      SentToMembers(st, ref, target, reply, ref);
      HearsNothing(st.heap[ref]);
      NothingToFlush(SendAll(st, st.channels[target].members, st.heap[ref].id, reply), ref);
    } else {
      NothingToFlush(st, ref);
    }
  }

  // ---------------------------------------------------------------- PART

  /** What the sender of a PART is told: nothing, if it is a member. */
  function PartAnswer(st: State, ref: Ref, key: string): seq<Reply>
    requires ref in st.heap
  {
    if key !in st.channels then [NoSuchChannel(key)]
    else if st.heap[ref].id !in st.channels[key].members then [NotOnChannel(st.channels[key].name)]
    else []
  }

  lemma PartRefused(st: State, ref: Ref, name: string, text: Option<string>)
    requires Settled(st) && ref in st.heap && !LeadsToFreed(st, Lower(name)) && PartAnswer(st, ref, Lower(name)) != []
    ensures DoReceive(st, ref, Part(name, text)) == With(st, ref, Hears(st.heap[ref], PartAnswer(st, ref, Lower(name))))
  {
    SelfMapped(st, ref);
    PushIsHeard(st, ref, PartAnswer(st, ref, Lower(name)));
  }

  lemma PartSends(st: State, ref: Ref, name: string, text: Option<string>)
    requires ref in st.heap && Lower(name) in st.channels && st.heap[ref].id in st.channels[Lower(name)].members
    ensures var n, id, st' := Lower(name), st.heap[ref].id, HandlePart(st, ref, name, text);
            && st' == st.(heap := st'.heap, channels := st'.channels)
            && st'.heap == SendAll(st, st.channels[n].members, id, Parted(id, st.channels[n].name, text)).heap
  {
  }

  lemma PartAccepted(st: State, ref: Ref, name: string, text: Option<string>, r: Ref)
    requires Settled(st) && ref in st.heap && r in st.heap
    requires Lower(name) in st.channels && st.heap[ref].id in st.channels[Lower(name)].members
    ensures r in DoReceive(st, ref, Part(name, text)).heap
    ensures var n, st' := Lower(name), DoReceive(st, ref, Part(name, text));
            && st' == st.(heap := st'.heap, channels := st'.channels)
            && st'.heap[r] == Hears(st.heap[r], if OtherMember(st, ref, n, r)
                                                then [Parted(st.heap[ref].id, st.channels[n].name, text)] else [])
  {
    var n := Lower(name);
    var reply := Parted(st.heap[ref].id, st.channels[n].name, text);
    SelfMapped(st, ref);
    SentToMembers(st, ref, n, reply, r);
    SentToMembers(st, ref, n, reply, ref);
    HearsNothing(st.heap[ref]);
    PartSends(st, ref, name, text);
    NothingToFlush(HandlePart(st, ref, name, text), ref);
  }

  /**
   A PART is written once to each other member of the channel. The sender hears that there is no
   such channel or that it is not on it, exactly then, and otherwise nothing. Nobody else hears
   anything, and nothing changes but the channels.
   */
  lemma PartIsHeard(st: State, ref: Ref, name: string, text: Option<string>, r: Ref)
    requires Settled(st) && ref in st.heap && r in st.heap && !LeadsToFreed(st, Lower(name))
    ensures r in DoReceive(st, ref, Part(name, text)).heap
    ensures var n, id, st' := Lower(name), st.heap[ref].id, DoReceive(st, ref, Part(name, text));
            && st' == st.(heap := st'.heap, channels := st'.channels)
            && st'.heap[r] == Hears(st.heap[r],
                                    if r == ref then
                                      if n !in st.channels then [NoSuchChannel(n)]
                                      else if id !in st.channels[n].members then [NotOnChannel(st.channels[n].name)]
                                      else []
                                    else if n in st.channels && id in st.channels[n].members
                                            && st.heap[r].id in st.channels[n].members
                                    then [Parted(id, st.channels[n].name, text)]
                                    else [])
  {
    HearsNothing(st.heap[r]);
    if PartAnswer(st, ref, Lower(name)) == [] {
      PartAccepted(st, ref, name, text, r);
    } else {
      PartRefused(st, ref, name, text);
    }
  }

  /** The sender leaves the channel; the last one out takes the channel of its name from the table. */
  lemma PartLeavesChannel(st: State, ref: Ref, name: string, text: Option<string>)
    requires Settled(st) && ref in st.heap && !LeadsToFreed(st, Lower(name))
    ensures var n, id, channels := Lower(name), st.heap[ref].id, DoReceive(st, ref, Part(name, text)).channels;
            if !(n in st.channels && id in st.channels[n].members) then channels == st.channels
            else
              var left := st.channels[n := st.channels[n].(members := st.channels[n].members - {id})];
              channels == if st.channels[n].members.Keys == {id} then left - {st.channels[n].name} else left
  {
    var n, id := Lower(name), st.heap[ref].id;
    ReceiveKeepsChannels(st, ref, Part(name, text));
    if n in st.channels && id in st.channels[n].members {
      OnlyMember(st.channels[n].members, id);
      PartOfMember(st, ref, name, text);
    }
  }

  // ---------------------------------------------------------------- JOIN

  /** A channel after a client has joined it, by the key it is or will be stored under. */
  function JoinedChannel(st: State, ref: Ref, key: string): Channel
    requires ref in st.heap
  {
    var id := st.heap[ref].id;
    if key in st.channels then st.channels[key].(members := st.channels[key].members[id := ref])
    else Channel(if |key| <= 50 then key else key[..50], "", map[id := ref])
  }

  lemma MemberIsItself(st: State, ref: Ref, key: string)
    requires Settled(st) && ref in st.heap && key in st.channels && st.heap[ref].id in st.channels[key].members
    ensures JoinedChannel(st, ref, key) == st.channels[key] && st.channels[key := st.channels[key]] == st.channels
  {
    OpenInv(st);
    assert ChannelOk(st.heap, key, st.channels[key]);
  }

  lemma NewMemberIsNoTarget(members: map<int, Ref>, id: int, ref: Ref)
    requires id !in members
    ensures Targets(members[id := ref], id) == Targets(members, id)
  {
    forall r
      ensures r in Targets(members[id := ref], id) <==> r in Targets(members, id)
    {
      if r in Targets(members, id) {
        var i :| i in members && i != id && members[i] == r;
        assert members[id := ref][i] == r;
      }
    }
  }

  /** Entering a channel, before the replies to the client itself. */
  lemma EntryIsHeard(st: State, ref: Ref, name: string, r: Ref)
    requires Settled(st) && ref in st.heap && r in st.heap
    ensures var n, id, st' := Lower(name), st.heap[ref].id, Enter(st, ref, name);
            && st' == st.(heap := st'.heap, channels := st.channels[n := JoinedChannel(st, ref, n)])
            && st'.heap.Keys == st.heap.Keys
            && st'.heap[r] == Hears(st.heap[r], if OtherMember(st, ref, n, r) && id !in st.channels[n].members
                                                then [Joined(id, st.channels[n].name)] else [])
  {
    var n, id := Lower(name), st.heap[ref].id;
    HearsNothing(st.heap[r]);
    if n in st.channels {
      if id in st.channels[n].members {
        MemberIsItself(st, ref, n);
      } else {
        NewMemberIsNoTarget(st.channels[n].members, id, ref);
        SentToMembers(st, ref, n, Joined(id, st.channels[n].name), r);
      }
    }
  }

  /**
   A JOIN of one channel: the client is in the channel, which is a new one if there was none.
   It hears its own JOIN, the topic if there is one, and the members, itself among them; the
   members that were there before hear of the JOIN, unless it was one of them; nobody else does.
   */
  lemma JoinIsHeard(st: State, ref: Ref, name: string, r: Ref)
    requires Settled(st) && ref in st.heap && r in st.heap && !st.crashed
    requires Name(name) && !LeadsToFreed(st, Lower(name))
    ensures r in DoReceive(st, ref, Join(name)).heap
    ensures var n, id, st' := Lower(name), st.heap[ref].id, DoReceive(st, ref, Join(name));
            var ch := JoinedChannel(st, ref, n);
            && st' == st.(heap := st'.heap, channels := st.channels[n := ch])
            && st'.heap[r] == Hears(st.heap[r],
                                    if r == ref then
                                      [Joined(id, ch.name)] + (if ch.topic == "" then [] else [TopicIs(ch.name, ch.topic)])
                                      + [NamesOf(ch.name, ch.members.Keys), EndOfNames(ch.name)]
                                    else if OtherMember(st, ref, n, r) && id !in st.channels[n].members
                                    then [Joined(id, st.channels[n].name)]
                                    else [])
  {
    var n, id, st1 := Lower(name), st.heap[ref].id, Enter(st, ref, name);
    SingleJoin(st, ref, name);
    EntryIsHeard(st, ref, name, r);
    EntryIsHeard(st, ref, name, ref);
    HearsNothing(st.heap[ref]);
    SelfMapped(st, ref);
    PushIsHeard(st1, ref, JoinReplies(JoinedChannel(st, ref, n), id));
  }

  // ---------------------------------------------------------------- LIST and NAMES

  /** The answer to one name: a line or the members of the channel, if there is one. */
  function AnswerTo(channels: map<string, Channel>, q: Question, name: string): seq<Reply> {
    var n := Lower(name);
    if n !in channels then []
    else if q == Line then [ListLine(channels[n].name)]
    else [NamesOf(channels[n].name, channels[n].members.Keys), EndOfNames(channels[n].name)]
  }

  /** The answers to a list of names. */
  function AnswersTo(channels: map<string, Channel>, q: Question, names: seq<string>): seq<Reply> {
    if names == [] then []
    else AnswersTo(channels, q, names[..|names| - 1]) + AnswerTo(channels, q, names[|names| - 1])
  }

  lemma PushedTwice(st: State, ref: Ref, a: seq<Reply>, b: seq<Reply>)
    requires ref in st.heap
    ensures ref in Push(st, ref, a).heap && Push(Push(st, ref, a), ref, b) == Push(st, ref, a + b)
  {
    PushedTogether(st.heap[ref], a, b);
    SetTwice(st.heap, ref, Pushed(st.heap[ref], a), Pushed(st.heap[ref], a + b));
  }

  lemma PushedNothing(st: State, ref: Ref)
    requires ref in st.heap
    ensures Push(st, ref, []) == st
  {
    assert st.heap[ref].queue + [] == st.heap[ref].queue && st.heap[ref].queued + [] == st.heap[ref].queued;
    assert st.heap[ref := st.heap[ref]] == st.heap;
  }

  lemma {:induction false} AnswersArePushed(st: State, ref: Ref, q: Question, names: seq<string>)
    requires ref in st.heap && !st.crashed && !ListsFreed(st, names)
    ensures AnswerAll(st, ref, q, names) == Push(st, ref, AnswersTo(st.channels, q, names))
  {
    if names == [] {
      PushedNothing(st, ref);
    } else {
      var n := |names| - 1;
      assert forall i :: 0 <= i < n ==> names[..n][i] == names[i];
      assert !LeadsToFreed(st, Lower(names[n]));
      AnswersArePushed(st, ref, q, names[..n]);
      OneMoreAnswerPushed(st, ref, q, names[n], AnswersTo(st.channels, q, names[..n]));
    }
  }

  lemma OneMoreAnswerPushed(st: State, ref: Ref, q: Question, name: string, rs: seq<Reply>)
    requires ref in st.heap && !LeadsToFreed(st, Lower(name))
    ensures ref in Push(st, ref, rs).heap
    ensures AnswerOne(Push(st, ref, rs), ref, q, name) == Push(st, ref, rs + AnswerTo(st.channels, q, name))
  {
    if Lower(name) in st.channels {
      assert Answer(q, st.channels[Lower(name)]) == AnswerTo(st.channels, q, name);
      PushedTwice(st, ref, rs, AnswerTo(st.channels, q, name));
    } else {
      assert rs + [] == rs;
    }
  }

  /** NAMES is answered by the members of each channel named that there is, in order. */
  lemma NamesAreAnswered(st: State, ref: Ref, list: string)
    requires Settled(st) && ref in st.heap && !st.crashed && !ListsFreed(st, NamesIn(list))
    ensures DoReceive(st, ref, NamesSome(list))
         == With(st, ref, Hears(st.heap[ref], AnswersTo(st.channels, Members, NamesIn(list))))
  {
    SelfMapped(st, ref);
    AnswersArePushed(st, ref, Members, NamesIn(list));
    PushIsHeard(st, ref, AnswersTo(st.channels, Members, NamesIn(list)));
  }

  /** LIST with names is answered by a line for each of them that there is, in order, between a start and an end. */
  lemma ListIsAnswered(st: State, ref: Ref, list: string)
    requires Settled(st) && ref in st.heap && !st.crashed && !ListsFreed(st, NamesIn(list))
    ensures DoReceive(st, ref, ListSome(list))
         == With(st, ref, Hears(st.heap[ref], [ListStart] + AnswersTo(st.channels, Line, NamesIn(list)) + [ListEnd]))
  {
    var lines := AnswersTo(st.channels, Line, NamesIn(list));
    SelfMapped(st, ref);
    AnswersArePushed(Push(st, ref, [ListStart]), ref, Line, NamesIn(list));
    PushedTwice(st, ref, [ListStart], lines);
    PushedTwice(st, ref, [ListStart] + lines, [ListEnd]);
    PushIsHeard(st, ref, [ListStart] + lines + [ListEnd]);
  }

  /** LIST without names is answered by a line for each channel in the table. */
  lemma WholeListIsAnswered(st: State, ref: Ref)
    requires Settled(st) && ref in st.heap && !AnyFreed(st)
    ensures exists lines: map<string, string> ::
              && lines.Keys == st.channels.Keys && (forall key :: key in lines ==> lines[key] == st.channels[key].name)
              && DoReceive(st, ref, ListAll) == With(st, ref, Hears(st.heap[ref], [ListStart, ListLines(lines), ListEnd]))
  {
    var lines := map key | key in st.channels :: st.channels[key].name;
    SelfMapped(st, ref);
    PushIsHeard(st, ref, [ListStart, ListLines(lines), ListEnd]);
    assert lines.Keys == st.channels.Keys;
  }

  /** The answers to two lists with a comma between them are those to the one and then those to the other. */
  lemma {:induction false} AnswersToTwo(channels: map<string, Channel>, q: Question, a: seq<string>, b: seq<string>)
    ensures AnswersTo(channels, q, a + b) == AnswersTo(channels, q, a) + AnswersTo(channels, q, b)
    decreases |b|
  {
    if b == [] {
      assert a + b == a;
    } else {
      var n := |b| - 1;
      assert (a + b)[..|a| + n] == a + b[..n] && (a + b)[|a| + n] == b[n];
      AnswersToTwo(channels, q, a, b[..n]);
      Associative(AnswersTo(channels, q, a), AnswersTo(channels, q, b[..n]), AnswerTo(channels, q, b[n]));
    }
  }

  lemma AnswersToTwoLists(channels: map<string, Channel>, q: Question, a: string, b: string)
    ensures AnswersTo(channels, q, NamesIn(a + "," + b))
         == AnswersTo(channels, q, NamesIn(a)) + AnswersTo(channels, q, NamesIn(b))
  {
    NamesOfTwoLists(a, b);
    AnswersToTwo(channels, q, NamesIn(a), NamesIn(b));
  }

  // ---------------------------------------------------------------- connections

  /** A new connection is a client that has said and heard nothing, under the next id; the others are as they were. */
  lemma ConnectionBegins(st: State, ref: Ref)
    requires Settled(st) && Possible(st, Accept(ref))
    ensures var st', c := Step(st, Accept(ref)), Client(st.idCounter, false, false, false, "", "", "", None, true, [], [], []);
            && st' == st.(heap := st.heap[ref := c], clients := st.clients[st.idCounter := ref],
                          idCounter := st.idCounter + 1, nUnknown := st.nUnknown + 1)
  {
    OpenInv(st);
    OpenOnesBounded(st.heap, false);
    Wrap32(st.nUnknown);
  }

  /** When a connection ends, its client stays in every table and is counted no longer. */
  lemma ConnectionEnds(st: State, ref: Ref)
    requires Settled(st) && Possible(st, Close(ref))
    ensures var c, st' := st.heap[ref], Step(st, Close(ref));
            && st'.heap == st.heap[ref := c.(isOpen := false)]
            && st' == st.(heap := st'.heap, nUsers := st'.nUsers, nUnknown := st'.nUnknown)
            && st'.nUsers == st.nUsers - (if c.registered then 1 else 0)
            && st'.nUnknown == st.nUnknown - (if c.registered then 0 else 1)
  {
    OpenInv(st);
    var c := st.heap[ref];
    assert ref in OpenOnes(st.heap, c.registered);
    OpenOnesBounded(st.heap, c.registered);
    Wrap32(st.nUsers);
    Wrap32(st.nUnknown);
  }

  /** The codes of a message that is answered by codes alone are told to the client itself, in order. */
  lemma CodesAreTold(st: State, ref: Ref, codes: seq<int>)
    requires Settled(st) && ref in st.heap
    ensures DoReceive(st, ref, Answered(codes))
         == With(st, ref, Hears(st.heap[ref], seq(|codes|, i requires 0 <= i < |codes| => Info(codes[i]))))
  {
    SelfMapped(st, ref);
    var rs := seq(|codes|, i requires 0 <= i < |codes| => Info(codes[i]));
    assert Infos(codes) == rs;
    PushIsHeard(st, ref, rs);
  }
}
