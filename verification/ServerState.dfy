/**
 The server's tables and what each message does to them (src/client.c, src/handlers.c,
 src/channel.c, src/server.c), as values. Clients are records in a heap, addressed by
 pointers; the GLib tables are maps and the reply queues are sequences. Replies are tagged
 values instead of formatted text. `crashed` is set when the program does what C leaves
 undefined: it uses a NULL pointer or a channel that was freed, or writes past the field for
 a nickname.
 */
module ServerState {
  import opened Basics

  type Ref = nat

  const NICK_SIZE: nat := 9
  const CHANNEL_NAME_MAX: nat := 50
  const CHANNEL_TOPIC_MAX: nat := 255
  const UINT32_LIMIT: nat := 0x1_0000_0000
  const INT_MAX: int := 0x7fff_ffff

  datatype Reply =
    | Welcome(nick: string, user: string)
    | NickInUse(nick: string)
    | NoNickGiven
    | NeedMoreParams(command: string)
    | AlreadyRegistered
    | NoRecipient
    | NoText
    | NoSuchNick(nick: string)
    | NoSuchChannel(channel: string)
    | NotOnChannel(channel: string)
    | Private(from: int, target: string, text: string)
    | IsAway(nick: string, text: string)
    | Joined(from: int, channel: string)
    | Parted(from: int, channel: string, partText: Option<string>)
    | TopicIs(channel: string, topic: string)
    | NoTopic(channel: string)
    | NamesOf(channel: string, ids: set<int>)
    | EndOfNames(channel: string)
    | ListStart
    | ListLine(channel: string)
    | ListLines(channels: map<string, string>)
    | ListEnd
    | WhoisUser(id: int)
    | WhoisServer(id: int)
    | EndOfWhois(id: int)
    | AwaySet(away: bool)
    | Info(code: int)

  /**
   A client. `queue` is its queue of responses and `written` what has been written to its
   socket; `queued` records everything ever put in the queue. `isOpen` says whether the
   server still reads from the connection.
   */
  datatype Client = Client(
    id: int, registered: bool, receivedNick: bool, receivedUser: bool,
    nickname: string, username: string, fullname: string,
    away: Option<string>, isOpen: bool,
    queue: seq<Reply>, written: seq<Reply>, queued: seq<Reply>)

  datatype Channel = Channel(name: string, topic: string, members: map<int, Ref>)

  datatype State = State(
    heap: map<Ref, Client>, idCounter: int,
    nicks: map<string, int>, clients: map<int, Ref>, channels: map<string, Channel>,
    nUsers: nat, nUnknown: nat, crashed: bool)

  const START: State := State(map[], 1, map[], map[], map[], 0, 0, false)

  function Inc32(x: nat): nat { (x + 1) % UINT32_LIMIT }

  function Dec32(x: nat): nat { (x + UINT32_LIMIT - 1) % UINT32_LIMIT }

  function Crash(st: State): State { st.(crashed := true) }

  // ---------------------------------------------------------------- queues

  /** g_queue_push_tail on a client's queue. */
  function Pushed(c: Client, rs: seq<Reply>): Client {
    c.(queue := c.queue + rs, queued := c.queued + rs)
  }

  lemma PushedTogether(c: Client, a: seq<Reply>, b: seq<Reply>)
    ensures Pushed(Pushed(c, a), b) == Pushed(c, a + b)
  {
    assert (c.queue + a) + b == c.queue + (a + b) && (c.queued + a) + b == c.queued + (a + b);
  }

  /** Client_TryEmptyBuffer: everything in the queue is written. */
  function Emptied(c: Client): Client {
    c.(queue := [], written := c.written + c.queue)
  }

  /** Client_Send. */
  function SentTo(c: Client, r: Reply): Client {
    Emptied(Pushed(c, [r]))
  }

  function WithClient(st: State, ref: Ref, c: Client): State {
    st.(heap := st.heap[ref := c])
  }

  function Push(st: State, ref: Ref, rs: seq<Reply>): State
    requires ref in st.heap
  {
    WithClient(st, ref, Pushed(st.heap[ref], rs))
  }

  function Flush(st: State, ref: Ref): State
    requires ref in st.heap
  {
    WithClient(st, ref, Emptied(st.heap[ref]))
  }

  /** The clients a channel message goes to: every member but the source. */
  function Targets(members: map<int, Ref>, source: int): set<Ref> {
    set id | id in members && id != source :: members[id]
  }

  function SendEach(heap: map<Ref, Client>, targets: set<Ref>, r: Reply): map<Ref, Client> {
    map ref | ref in heap :: if ref in targets then SentTo(heap[ref], r) else heap[ref]
  }

  /** channel_send_message. */
  function SendAll(st: State, members: map<int, Ref>, source: int, r: Reply): State {
    st.(heap := SendEach(st.heap, Targets(members, source), r))
  }

  // ---------------------------------------------------------------- names

  /** tolower in the C locale. */
  function ToLower(c: char): char {
    if 'A' <= c <= 'Z' then (c as int + 32) as char else c
  }

  function Lower(s: string): (r: string)
    ensures |r| == |s| && forall i :: 0 <= i < |s| ==> r[i] == ToLower(s[i])
  {
    seq(|s|, i requires 0 <= i < |s| => ToLower(s[i]))
  }

  /** A buffer after the C string at an index has been put in lower case. */
  function LoweredAt(buf: string, p: nat): (r: string)
    ensures |r| == |buf|
  {
    if p <= |buf| then
      TextAtFits(buf, p);
      buf[..p] + Lower(TextAt(buf, p)) + buf[p + |TextAt(buf, p)|..]
    else buf
  }

  lemma {:induction false} TextAtFits(buf: string, p: nat)
    requires p <= |buf|
    ensures p + |TextAt(buf, p)| <= |buf| && TextAt(buf, p) == buf[p..p + |TextAt(buf, p)|]
    ensures p + |TextAt(buf, p)| < |buf| ==> buf[p + |TextAt(buf, p)|] == NUL
    decreases |buf| - p
  {
    if p < |buf| && buf[p] != NUL {
      TextAtFits(buf, p + 1);
    }
  }

  function Truncate(s: string, n: nat): string {
    if |s| <= n then s else s[..n]
  }

  /** The index of the first comma at or after `i`, or |s|. */
  function CommaFrom(s: string, i: nat): (k: nat)
    requires i <= |s|
    ensures i <= k <= |s| && (k < |s| ==> s[k] == ',')
    ensures forall j :: i <= j < k ==> s[j] != ','
    decreases |s| - i
  {
    if i == |s| || s[i] == ',' then i else CommaFrom(s, i + 1)
  }

  /** The non-empty names of a comma-separated list, from `i` on, as strtok_r finds them. */
  function NamesFrom(s: string, i: nat): seq<string>
    requires i <= |s|
    decreases |s| - i
  {
    if i == |s| then []
    else if s[i] == ',' then NamesFrom(s, i + 1)
    else
      var k := CommaFrom(s, i);
      [s[i..k]] + NamesFrom(s, k)
  }

  function NamesIn(s: string): seq<string> {
    NamesFrom(s, 0)
  }

  // ---------------------------------------------------------------- registration

  /** Client_TryRegister, with the push of its reply. */
  function TryRegister(st: State, ref: Ref): State
    requires ref in st.heap
  {
    var c := st.heap[ref];
    if !c.registered && c.receivedUser && c.receivedNick then
      Push(WithClient(st, ref, c.(registered := true))
             .(clients := st.clients[c.id := ref], nUnknown := Dec32(st.nUnknown), nUsers := Inc32(st.nUsers)),
           ref, [Welcome(c.nickname, c.username)])
    else st
  }

  /** The table and client changes of Client_TryChangeNick, when the nick is free. */
  function TakeNick(st: State, ref: Ref, nick: string): State
    requires ref in st.heap
  {
    var c := st.heap[ref];
    var nicks := if c.receivedNick then st.nicks - {c.nickname} else st.nicks;
    WithClient(st, ref, c.(nickname := nick, receivedNick := true)).(nicks := nicks[nick := c.id])
  }

  /** The nickname field holds nine bytes and a NUL; a longer nick that is free is copied past its end. */
  function HandleNick(st: State, ref: Ref, nick: string): State
    requires ref in st.heap
  {
    if nick in st.nicks then Push(st, ref, [NickInUse(nick)])
    else if |nick| > NICK_SIZE then Crash(st)
    else TryRegister(TakeNick(st, ref, nick), ref)
  }

  function HandleUser(st: State, ref: Ref, user: string, full: string): State
    requires ref in st.heap
  {
    var c := st.heap[ref];
    if c.registered then Push(st, ref, [AlreadyRegistered])
    else TryRegister(WithClient(st, ref, c.(username := user, fullname := full, receivedUser := true)), ref)
  }

  // ---------------------------------------------------------------- messages

  function IsChannelName(target: string): bool {
    target != "" && target[0] in {'#', '+', '!', '&'}
  }

  /** The nick table's lookup: 0 stands for no entry. */
  function IdOf(st: State, nick: string): int {
    if nick in st.nicks then st.nicks[nick] else 0
  }

  function HandlePrivmsg(st: State, ref: Ref, target: string, text: string): State
    requires ref in st.heap
  {
    var id := st.heap[ref].id;
    if IsChannelName(target) then
      if target !in st.channels then st
      else if Freed(st.channels[target]) then Crash(st)
      else SendAll(st, st.channels[target].members, id, Private(id, st.channels[target].name, text))
    else if IdOf(st, target) == 0 then Push(st, ref, [NoSuchNick(target)])
    else if IdOf(st, target) !in st.clients || st.clients[IdOf(st, target)] !in st.heap then Crash(st)
    else
      var to := st.clients[IdOf(st, target)];
      var st' := WithClient(st, to, SentTo(st.heap[to], Private(id, target, text)));
      match st.heap[to].away
      case None => st'
      case Some(t) => Push(st', ref, [IsAway(st.heap[to].nickname, t)])
  }

  function HandleWhois(st: State, ref: Ref, mask: string): State
    requires ref in st.heap
  {
    if IdOf(st, mask) == 0 then Push(st, ref, [NoSuchNick(mask)])
    else if IdOf(st, mask) !in st.clients || st.clients[IdOf(st, mask)] !in st.heap then Crash(st)
    else
      var q := st.heap[st.clients[IdOf(st, mask)]].id;
      Push(st, ref, [WhoisUser(q), WhoisServer(q), EndOfWhois(q)])
  }

  // ---------------------------------------------------------------- channels

  /**
   A channel that lost its last member has been freed. It is still in the table if it was
   removed under another name than the one it is stored under.
   */
  predicate Freed(ch: Channel) {
    ch.members == map[]
  }

  function NewChannel(name: string, id: int, ref: Ref): Channel {
    Channel(Truncate(name, CHANNEL_NAME_MAX), "", map[id := ref])
  }

  /** channel_join or server_create_channel, without the replies to the client itself. */
  function Enter(st: State, ref: Ref, name: string): State
    requires ref in st.heap
  {
    var n, id := Lower(name), st.heap[ref].id;
    if n in st.channels then
      var ch := st.channels[n];
      if id in ch.members then st
      else
        var members := ch.members[id := ref];
        SendAll(st, members, id, Joined(id, ch.name)).(channels := st.channels[n := ch.(members := members)])
    else st.(channels := st.channels[n := NewChannel(n, id, ref)])
  }

  function JoinReplies(ch: Channel, id: int): seq<Reply> {
    [Joined(id, ch.name)]
    + (if ch.topic != "" then [TopicIs(ch.name, ch.topic)] else [])
    + [NamesOf(ch.name, ch.members.Keys), EndOfNames(ch.name)]
  }

  lemma EnterKeepsRefs(st: State, ref: Ref, name: string)
    requires ref in st.heap
    ensures Enter(st, ref, name).heap.Keys == st.heap.Keys && Lower(name) in Enter(st, ref, name).channels
  {
  }

  /** The name leads to a channel that was freed. */
  predicate LeadsToFreed(st: State, key: string) {
    key in st.channels && Freed(st.channels[key])
  }

  /** One round of the loop in handler_join. */
  function JoinOne(st: State, ref: Ref, name: string): (st': State)
    requires ref in st.heap
    ensures st'.heap.Keys == st.heap.Keys
  {
    if LeadsToFreed(st, Lower(name)) then Crash(st)
    else
      EnterKeepsRefs(st, ref, name);
      var st1 := Enter(st, ref, name);
      Push(st1, ref, JoinReplies(st1.channels[Lower(name)], st.heap[ref].id))
  }

  /** The loop of handler_join, as far as the program goes. */
  function JoinAll(st: State, ref: Ref, names: seq<string>): (st': State)
    requires ref in st.heap
    ensures st'.heap.Keys == st.heap.Keys
  {
    if names == [] then st
    else
      var st1 := JoinAll(st, ref, names[..|names| - 1]);
      if st1.crashed then st1 else JoinOne(st1, ref, names[|names| - 1])
  }

  /** handler_part, for a list that the code takes as one name. */
  function HandlePart(st: State, ref: Ref, name: string, text: Option<string>): State
    requires ref in st.heap
  {
    var n, id := Lower(name), st.heap[ref].id;
    if n !in st.channels then Push(st, ref, [NoSuchChannel(n)])
    else if Freed(st.channels[n]) then Crash(st)
    else if id !in st.channels[n].members then Push(st, ref, [NotOnChannel(st.channels[n].name)])
    else
      var ch := st.channels[n];
      var left := ch.(members := ch.members - {id});
      var st1 := SendAll(st, ch.members, id, Parted(id, ch.name, text)).(channels := st.channels[n := left]);
      if left.members == map[] then st1.(channels := st1.channels - {ch.name}) else st1
  }

  function HandleTopicQuery(st: State, ref: Ref, name: string): State
    requires ref in st.heap
  {
    var n := Lower(name);
    if n !in st.channels then Push(st, ref, [NoSuchChannel(n)])
    else if Freed(st.channels[n]) then Crash(st)
    else
      var ch := st.channels[n];
      Push(st, ref, [if ch.topic != "" then TopicIs(ch.name, ch.topic) else NoTopic(ch.name)])
  }

  function HandleTopicSet(st: State, name: string, topic: string): State {
    var n := Lower(name);
    if n !in st.channels || Freed(st.channels[n]) then Crash(st)
    else st.(channels := st.channels[n := st.channels[n].(topic := Truncate(topic, CHANNEL_TOPIC_MAX))])
  }

  function HandleAway(st: State, ref: Ref, text: Option<string>): State
    requires ref in st.heap
  {
    Push(WithClient(st, ref, st.heap[ref].(away := text)), ref, [AwaySet(text.Some?)])
  }

  // ---------------------------------------------------------------- dispatch

  /** Some of the names leads to a channel that was freed. */
  predicate ListsFreed(st: State, names: seq<string>) {
    exists i :: 0 <= i < |names| && LeadsToFreed(st, Lower(names[i]))
  }

  /** LIST asks for a line on each channel, NAMES for its members. */
  datatype Question = Line | Members

  function Answer(q: Question, ch: Channel): (rs: seq<Reply>)
    ensures forall i :: 0 <= i < |rs| ==> !rs[i].Welcome?
  {
    match q
    case Line => [ListLine(ch.name)]
    case Members => [NamesOf(ch.name, ch.members.Keys), EndOfNames(ch.name)]
  }

  /** One round of the loops in handler_list and handler_names: a name that is not known is passed over. */
  function AnswerOne(st: State, ref: Ref, q: Question, name: string): (st': State)
    requires ref in st.heap
    ensures st'.heap.Keys == st.heap.Keys
  {
    var n := Lower(name);
    if n !in st.channels then st
    else if Freed(st.channels[n]) then Crash(st)
    else Push(st, ref, Answer(q, st.channels[n]))
  }

  /** Those loops, as far as the program goes. */
  function AnswerAll(st: State, ref: Ref, q: Question, names: seq<string>): (st': State)
    requires ref in st.heap
    ensures st'.heap.Keys == st.heap.Keys
  {
    if names == [] then st
    else
      var st1 := AnswerAll(st, ref, q, names[..|names| - 1]);
      if st1.crashed then st1 else AnswerOne(st1, ref, q, names[|names| - 1])
  }

  /** handler_list, for a list of names. */
  function HandleList(st: State, ref: Ref, names: seq<string>): State
    requires ref in st.heap
  {
    var st1 := AnswerAll(Push(st, ref, [ListStart]), ref, Line, names);
    if st1.crashed then st1 else Push(st1, ref, [ListEnd])
  }

  predicate AnyFreed(st: State) {
    exists key :: key in st.channels && Freed(st.channels[key])
  }

  /** The name of each channel, by its key. */
  function ChannelNames(channels: map<string, Channel>): map<string, string> {
    map key | key in channels :: channels[key].name
  }

  /** handler_list without names: one line for each channel, in the order of the table. */
  function HandleListAll(st: State, ref: Ref): State
    requires ref in st.heap
  {
    if AnyFreed(st) then Crash(Push(st, ref, [ListStart]))
    else Push(st, ref, [ListStart, ListLines(ChannelNames(st.channels)), ListEnd])
  }

  /**
   What a handler sees of a parsed message: the parse errors it checks and the strings its
   pointers lead to. `UsesNull` is a message whose handler uses a pointer that is NULL.
   */
  datatype Message =
    | Nick(nick: string) | NickMissing
    | User(user: string, full: string) | UserMissing
    | Privmsg(target: string, text: string) | PrivmsgNoTarget | PrivmsgNoText
    | Whois(mask: string) | WhoisNothing
    | Join(list: string) | JoinNothing
    | Part(name: string, partText: Option<string>)
    | TopicQuery(channel: string) | TopicSet(channel: string, topic: string) | TopicNothing
    | Away(away: Option<string>)
    | ListAll | ListSome(list: string)
    | NamesNothing | NamesSome(list: string)
    | Answered(codes: seq<int>)
    | UsesNull

  function Infos(codes: seq<int>): (rs: seq<Reply>)
    ensures forall i :: 0 <= i < |rs| ==> rs[i].Info?
  {
    seq(|codes|, i requires 0 <= i < |codes| => Info(codes[i]))
  }

  /** Handler_HandleMessage. */
  function Handle(st: State, ref: Ref, m: Message): State
    requires ref in st.heap
  {
    match m
    case Nick(nick) => HandleNick(st, ref, nick)
    case NickMissing => Push(st, ref, [NoNickGiven])
    case User(user, full) => HandleUser(st, ref, user, full)
    case UserMissing => Push(st, ref, [NeedMoreParams("USER")])
    case Privmsg(target, text) => HandlePrivmsg(st, ref, target, text)
    case PrivmsgNoTarget => Push(st, ref, [NoRecipient])
    case PrivmsgNoText => Push(st, ref, [NoText])
    case Whois(mask) => HandleWhois(st, ref, mask)
    case WhoisNothing => st
    case Join(list) => JoinAll(st, ref, NamesIn(list))
    case JoinNothing => Push(st, ref, [NeedMoreParams("JOIN")])
    case Part(name, text) => HandlePart(st, ref, name, text)
    case TopicQuery(channel) => HandleTopicQuery(st, ref, channel)
    case TopicSet(channel, topic) => HandleTopicSet(st, channel, topic)
    case TopicNothing => Push(st, ref, [NeedMoreParams("TOPIC")])
    case Away(text) => HandleAway(st, ref, text)
    case ListAll => HandleListAll(st, ref)
    case ListSome(list) => HandleList(st, ref, NamesIn(list))
    case NamesNothing => st
    case NamesSome(list) => AnswerAll(st, ref, Members, NamesIn(list))
    case Answered(codes) => Push(st, ref, Infos(codes))
    case UsesNull => Crash(st)
  }

  // ---------------------------------------------------------------- events

  datatype Event = Accept(ref: Ref) | Receive(ref: Ref, message: Message) | Close(ref: Ref)

  function NewClient(id: int): Client {
    Client(id, false, false, false, "", "", "", None, true, [], [], [])
  }

  /** Server_HandleReadEvent, when the connection is accepted and its handler registered. */
  function DoAccept(st: State, ref: Ref): State {
    st.(heap := st.heap[ref := NewClient(st.idCounter)],
        idCounter := st.idCounter + 1,
        clients := st.clients[st.idCounter := ref],
        nUnknown := Inc32(st.nUnknown))
  }

  /** The end of Client_HandleRead on a closed connection: only the counters change. */
  function DoClose(st: State, ref: Ref): State
    requires ref in st.heap
  {
    var st1 := WithClient(st, ref, st.heap[ref].(isOpen := false));
    if st.heap[ref].registered then st1.(nUsers := Dec32(st.nUsers))
    else st1.(nUnknown := Dec32(st.nUnknown))
  }

  /** A message handled, then the client's queue drained. */
  function DoReceive(st: State, ref: Ref, m: Message): State
    requires ref in st.heap
  {
    var st1 := Handle(st, ref, m);
    if ref in st1.heap then Flush(st1, ref) else st1
  }

  /** An event a running server can meet: pointers are fresh, and closed connections are silent. */
  predicate Possible(st: State, e: Event) {
    !st.crashed &&
    match e
    case Accept(ref) => ref !in st.heap && st.idCounter < INT_MAX
    case Receive(ref, _) => ref in st.heap && st.heap[ref].isOpen
    case Close(ref) => ref in st.heap && st.heap[ref].isOpen
  }

  function Step(st: State, e: Event): State
    requires Possible(st, e)
  {
    match e
    case Accept(ref) => DoAccept(st, ref)
    case Receive(ref, m) => DoReceive(st, ref, m)
    case Close(ref) => DoClose(st, ref)
  }
}
