/**
 What the handlers of src/handlers.c see of a message: the strings that the struct's pointers
 lead to in the connection's message buffer. The struct is cleared once per read and not once
 per message (src/client.c:119), so a handler can see what an earlier message left behind.
 */
module StructReuse {
  import opened Basics
  import opened Connections
  import opened Framing
  import opened Tokeniser
  import opened Parser
  import opened RoundTrip
  import opened EndToEnd
  import opened ClientReads
  import S = ServerState

  // ---------------------------------------------------------------- reading pointers

  lemma {:induction false} TextAtPointer(buf: string, p: nat, text: string)
    requires PointsTo(buf, p, text)
    ensures TextAt(buf, p) == text
    decreases |text|
  {
    if text != "" {
      assert buf[p..p + |text|][0] == buf[p];
      assert buf[p + 1..p + |text|] == buf[p..p + |text|][1..] == text[1..];
      TextAtPointer(buf, p + 1, text[1..]);
    }
  }

  function OptionalText(buf: string, p: Option<nat>): Option<string> {
    match p
    case None => None
    case Some(i) => Some(TextAt(buf, i))
  }

  /**
   The case of the handlers that a struct and its message buffer reach. PART and TOPIC put the
   channel's name in lower case in the buffer before they read their second string, which can
   lie in the name if its pointer was left by another message.
   */
  function MessageOfFields(m: Fields, buf: string): S.Message {
    match m.mtype
    case NICK =>
      if m.parseErr == ERR_NONICKNAMEGIVEN then S.NickMissing
      else if m.first.None? then S.UsesNull
      else S.Nick(TextAt(buf, m.first.value))
    case USER =>
      if m.parseErr == ERR_NEEDMOREPARAMS then S.UserMissing
      else if m.first.None? || m.second.None? then S.UsesNull
      else S.User(TextAt(buf, m.first.value), TextAt(buf, m.second.value))
    case PRIVMSG =>
      if m.parseErr == ERR_NORECIPIENT then S.PrivmsgNoTarget
      else if m.parseErr == ERR_NOTEXTTOSEND then S.PrivmsgNoText
      else if m.first.None? || m.second.None? then S.UsesNull
      else S.Privmsg(TextAt(buf, m.first.value), TextAt(buf, m.second.value))
    case WHOIS => if m.second.None? then S.WhoisNothing else S.Whois(TextAt(buf, m.second.value))
    case JOIN =>
      if m.parseErr == ERR_NEEDMOREPARAMS then S.JoinNothing
      else if m.first.None? then S.UsesNull
      else S.Join(TextAt(buf, m.first.value))
    case PART =>
      if m.first.None? then S.UsesNull
      else S.Part(TextAt(buf, m.first.value), OptionalText(S.LoweredAt(buf, m.first.value), m.second))
    case TOPIC =>
      if m.parseErr == ERR_NEEDMOREPARAMS then S.TopicNothing
      else if m.first.None? then S.UsesNull
      else if m.second.None? then S.TopicQuery(TextAt(buf, m.first.value))
      else S.TopicSet(TextAt(buf, m.first.value), TextAt(S.LoweredAt(buf, m.first.value), m.second.value))
    case LIST => if m.first.None? then S.ListAll else S.ListSome(TextAt(buf, m.first.value))
    case NAMES => if m.first.None? then S.NamesNothing else S.NamesSome(TextAt(buf, m.first.value))
    case AWAY => S.Away(OptionalText(buf, m.first))
    case PONG => S.Answered([])
    case _ => S.Answered([0])
  }

  /** What a message says by its tokens alone. */
  function MessageOfTokens(t: seq<string>): S.Message {
    if Missing(t, 0) then S.Answered([])
    else match TypeOf(t[0])
      case NICK =>
        if Missing(t, 1) then S.NickMissing else if |t[1]| > NICK_MAX_SIZE then S.UsesNull else S.Nick(t[1])
      case USER => if Missing(t, 1) || |t| < 5 then S.UserMissing else S.User(t[1], t[4])
      case PRIVMSG =>
        if Missing(t, 1) then S.PrivmsgNoTarget else if |t| < 3 then S.PrivmsgNoText else S.Privmsg(t[1], t[2])
      case WHOIS => if |t| < 2 then S.WhoisNothing else S.Whois(t[1])
      case JOIN => if Missing(t, 1) then S.JoinNothing else if t[1] == "0" then S.UsesNull else S.Join(t[1])
      case PART =>
        if Missing(t, 1) then S.UsesNull else S.Part(t[1], if Missing(t, 2) then None else Some(t[2]))
      case TOPIC =>
        if Missing(t, 1) then S.TopicNothing else if |t| < 3 then S.TopicQuery(t[1]) else S.TopicSet(t[1], t[2])
      case LIST => if Missing(t, 1) then S.ListAll else S.ListSome(t[1])
      case NAMES => if |t| < 2 then S.NamesNothing else S.NamesSome(t[1])
      case AWAY => S.Away(if |t| < 2 then None else Some(t[1]))
      case PONG => S.Answered([])
      case _ => S.Answered([0])
  }

  // ---------------------------------------------------------------- stale fields

  /** The messages whose parser leaves a field alone that the handler then reads. */
  predicate LeavesFields(t: seq<string>) {
    && !Missing(t, 0)
    && match TypeOf(t[0])
       case NICK => !Missing(t, 1) && |t[1]| > NICK_MAX_SIZE
       case JOIN => !Missing(t, 1) && t[1] == "0"
       case PART => Missing(t, 1)
       case TOPIC => !Missing(t, 1) && |t| == 2
       case LIST => Missing(t, 1)
       case _ => false
  }

  /** Such a message, in a struct in which that field is not clear. */
  predicate SeesStale(t: seq<string>, m: Fields) {
    && LeavesFields(t)
    && match TypeOf(t[0])
       case JOIN => m.first.Some? || m.parseErr == ERR_NEEDMOREPARAMS
       case TOPIC => m.second.Some?
       case _ => m.first.Some?
  }

  lemma NeverStale(t: seq<string>, m: Fields)
    requires m == CLEARED || !LeavesFields(t)
    ensures !SeesStale(t, m)
  {
  }

  lemma TokenReads(s: string, k: nat)
    requires MessageEnd(s).Some? && k < TokensUsed(MessageTokens(s))
    ensures TextAt(ParsedBuffer(s), MessageSpans(s)[k].start) == MessageTokens(s)[k]
  {
    PointersReadTokens(s, k);
    TextAtPointer(ParsedBuffer(s), MessageSpans(s)[k].start, MessageTokens(s)[k]);
  }

  /**
   The pointers stored by parsing the tokens `t` read as the tokens, the third also after the
   second has been put in lower case.
   */
  ghost predicate ReadsAs(t: seq<string>, spans: seq<Span>, buf: string) {
    && |spans| == |t|
    && (forall k :: 0 <= k < TokensUsed(t) ==> TextAt(buf, spans[k].start) == t[k])
    && (2 < TokensUsed(t) ==> TextAt(S.LoweredAt(buf, spans[1].start), spans[2].start) == t[2])
  }

  lemma {:induction false} SameTextAt(a: string, b: string, p: nat)
    requires |a| == |b| && forall i :: p <= i < |a| ==> a[i] == b[i]
    ensures TextAt(a, p) == TextAt(b, p)
    decreases |a| - p
  {
    if p < |a| && a[p] != NUL {
      SameTextAt(a, b, p + 1);
    }
  }

  /** Putting one string in lower case leaves those behind it as they are. */
  lemma TextBehindLowered(buf: string, p: nat, q: nat)
    requires p <= |buf| && p + |TextAt(buf, p)| <= q
    ensures TextAt(S.LoweredAt(buf, p), q) == TextAt(buf, q)
  {
    S.TextAtFits(buf, p);
    SameTextAt(S.LoweredAt(buf, p), buf, q);
  }

  lemma ClientFieldsSayTokensIff(m: Fields, t: seq<string>, spans: seq<Span>, buf: string)
    requires ReadsAs(t, spans, buf) && !Missing(t, 0)
    requires TypeOf(t[0]) in {NICK, USER, PRIVMSG, WHOIS, AWAY}
    ensures MessageOfFields(StoreParse(m, ParseTokens(t), spans), buf) == MessageOfTokens(t) <==> !SeesStale(t, m)
  {
    match TypeOf(t[0])
    case NICK => case USER => case PRIVMSG => case WHOIS => case AWAY =>
  }

  lemma OtherFieldsSayTokensIff(m: Fields, t: seq<string>, spans: seq<Span>, buf: string)
    requires ReadsAs(t, spans, buf) && !Missing(t, 0)
    requires TypeOf(t[0]) !in {NICK, USER, PRIVMSG, WHOIS, AWAY}
    ensures MessageOfFields(StoreParse(m, ParseTokens(t), spans), buf) == MessageOfTokens(t) <==> !SeesStale(t, m)
  {
    match TypeOf(t[0])
    case JOIN => case PART => case LIST => case TOPIC => case NAMES => case _ =>
  }

  /** What the handler sees of a frame that was parsed into the struct `m`. */
  ghost function Seen(m: Fields, d: string): S.Message {
    MessageOfFields(ParseFrame(m, d).1, ParsedBuffer(InBuffer(d)))
  }

  lemma FrameReadsAs(d: string)
    requires Accepts(d)
    ensures ReadsAs(TokensIn(d), MessageSpans(InBuffer(d)), ParsedBuffer(InBuffer(d)))
  {
    var s := InBuffer(d);
    forall k | 0 <= k < TokensUsed(MessageTokens(s))
      ensures TextAt(ParsedBuffer(s), MessageSpans(s)[k].start) == MessageTokens(s)[k]
    {
      TokenReads(s, k);
    }
    if 2 < TokensUsed(MessageTokens(s)) {
      ThirdTokenReads(s);
    }
  }

  lemma ThirdTokenReads(s: string)
    requires MessageEnd(s).Some? && 2 < TokensUsed(MessageTokens(s))
    ensures TextAt(S.LoweredAt(ParsedBuffer(s), MessageSpans(s)[1].start), MessageSpans(s)[2].start)
         == MessageTokens(s)[2]
  {
    var spans := MessageSpans(s);
    TokenReads(s, 1);
    TokenReads(s, 2);
    TokenIsSlice(s, 1);
    MessageInOrder(s);
    assert spans[1].End() < spans[2].start;
    TextBehindLowered(ParsedBuffer(s), spans[1].start, spans[2].start);
  }

  /** A handler sees what the message's tokens say exactly when it sees no stale field. */
  lemma SeenIff(m: Fields, d: string)
    requires Accepts(d)
    ensures Seen(m, d) == MessageOfTokens(TokensIn(d)) <==> !SeesStale(TokensIn(d), m)
  {
    var t, s := TokensIn(d), InBuffer(d);
    FrameReadsAs(d);
    if TypeOf(t[0]) in {NICK, USER, PRIVMSG, WHOIS, AWAY} {
      ClientFieldsSayTokensIff(m, t, MessageSpans(s), ParsedBuffer(s));
    } else {
      OtherFieldsSayTokensIff(m, t, MessageSpans(s), ParsedBuffer(s));
    }
  }

  // ---------------------------------------------------------------- what stale fields do

  /** The handler uses a NULL pointer: the parser left one alone that was clear. */
  predicate FindsNull(t: seq<string>, m: Fields) {
    && !Missing(t, 0) && m.first.None?
    && match TypeOf(t[0])
       case NICK => !Missing(t, 1) && |t[1]| > NICK_MAX_SIZE
       case JOIN => !Missing(t, 1) && t[1] == "0" && m.parseErr != ERR_NEEDMOREPARAMS
       case PART => Missing(t, 1)
       case _ => false
  }

  lemma FieldsUseNullIff(m: Fields, t: seq<string>, spans: seq<Span>, buf: string)
    requires |spans| == |t| && !Missing(t, 0)
    ensures MessageOfFields(StoreParse(m, ParseTokens(t), spans), buf).UsesNull? <==> FindsNull(t, m)
  {
    match TypeOf(t[0])
    case NICK => case USER => case PRIVMSG => case WHOIS => case JOIN => case PART =>
    case LIST => case TOPIC => case NAMES => case AWAY => case _ =>
  }

  /** Exactly which messages, in which structs, make a handler use a NULL pointer. */
  lemma UsesNullIff(m: Fields, d: string)
    requires Accepts(d)
    ensures Seen(m, d).UsesNull? <==> FindsNull(TokensIn(d), m)
  {
    FieldsUseNullIff(m, TokensIn(d), MessageSpans(InBuffer(d)), ParsedBuffer(InBuffer(d)));
  }

  lemma OthersGiveNoNick(m: Fields, t: seq<string>, spans: seq<Span>, buf: string)
    requires |spans| == |t| && !Missing(t, 0) && TypeOf(t[0]) != NICK
    ensures !MessageOfFields(StoreParse(m, ParseTokens(t), spans), buf).Nick?
  {
    match TypeOf(t[0])
    case USER => case PRIVMSG => case WHOIS => case JOIN => case PART =>
    case LIST => case TOPIC => case NAMES => case AWAY => case _ =>
  }

  lemma FieldsGiveLongNickIff(m: Fields, t: seq<string>, spans: seq<Span>, buf: string)
    requires |spans| == |t| && !Missing(t, 0) && TypeOf(t[0]) == NICK
    requires 1 < |t| ==> TextAt(buf, spans[1].start) == t[1]
    ensures var seen := MessageOfFields(StoreParse(m, ParseTokens(t), spans), buf);
            seen.Nick? && |seen.nick| > NICK_MAX_SIZE <==>
              LeavesFields(t) && m.first.Some? && |TextAt(buf, m.first.value)| > NICK_MAX_SIZE
  {
  }

  /**
   A handler is given a nick of more than nine bytes exactly when the nick sent is too long
   and a pointer left behind leads to another text that is.
   */
  lemma LongNickIff(m: Fields, d: string)
    requires Accepts(d)
    ensures var t, buf, seen := TokensIn(d), ParsedBuffer(InBuffer(d)), Seen(m, d);
            seen.Nick? && |seen.nick| > NICK_MAX_SIZE <==>
              && TypeOf(t[0]) == NICK && LeavesFields(t)
              && m.first.Some? && |TextAt(buf, m.first.value)| > NICK_MAX_SIZE
  {
    var s := InBuffer(d);
    FrameReadsAs(d);
    if TypeOf(MessageTokens(s)[0]) == NICK {
      FieldsGiveLongNickIff(m, MessageTokens(s), MessageSpans(s), ParsedBuffer(s));
    } else {
      OthersGiveNoNick(m, MessageTokens(s), MessageSpans(s), ParsedBuffer(s));
    }
  }

  // ---------------------------------------------------------------- commands

  /** What a command asks of the server. */
  function CommandMessage(c: Command): S.Message {
    match c
    case Nick(n) => S.Nick(n)
    case User(u, _, _, r) => S.User(u, r)
    case Privmsg(t, x) => S.Privmsg(t, x)
    case Ping => S.Answered([0])
    case Pong => S.Answered([])
    case Motd => S.Answered([0])
    case Lusers => S.Answered([0])
    case Whois(m) => if m.None? then S.WhoisNothing else S.Whois(m.value)
    case Join(cs) => S.Join(cs)
    case LeaveAll => S.UsesNull
    case Part(cs, m) => S.Part(cs, m)
    case List(cs) => if cs.None? then S.ListAll else S.ListSome(cs.value)
    case Topic(ch, t) => if t.None? then S.TopicQuery(ch) else S.TopicSet(ch, t.value)
    case Names(cs) => if cs.None? then S.NamesNothing else S.NamesSome(cs.value)
    case Away(t) => S.Away(t)
  }

  /** The well-formed commands that can see what an earlier message left behind. */
  predicate CanSeeStale(c: Command) {
    c.LeaveAll? || (c.Topic? && c.topic.None?) || (c.List? && c.listed.None?)
  }

  lemma WordsSay(c: Command, name: string)
    requires WellFormed(c) && name != "" && TypeOf(name) == CommandType(c)
    ensures MessageOfTokens([name] + Params(c)) == CommandMessage(c)
  {
    assert ([name] + Params(c))[0] == name;
  }

  lemma WordsLeaveFields(c: Command, name: string)
    requires WellFormed(c) && name != "" && TypeOf(name) == CommandType(c)
    ensures LeavesFields([name] + Params(c)) <==> CanSeeStale(c)
  {
    assert ([name] + Params(c))[0] == name;
  }

  /** The words of a well-formed command say what it asks, and exactly three kinds leave fields alone. */
  lemma CommandWordsSay(c: Command)
    requires WellFormed(c)
    ensures MessageOfTokens(Words(c)) == CommandMessage(c)
    ensures LeavesFields(Words(c)) <==> CanSeeStale(c)
  {
    TypesOfFirstNames();
    TypesOfMiddleNames();
    TypesOfLastNames();
    WordsSay(c, NameOf(CommandType(c)));
    WordsLeaveFields(c, NameOf(CommandType(c)));
  }

  /** The errors of the parser are what the handlers hear of, and PART without a channel, a long nick and JOIN 0 are not. */
  lemma ErrorsAreSaid(t: seq<string>)
    requires !Missing(t, 0)
    ensures var rc, mtype, said := ReturnCode(ParseTokens(t)), TypeOf(t[0]), MessageOfTokens(t);
            && (rc == 431 <==> said.NickMissing?)
            && (rc == 411 <==> said.PrivmsgNoTarget?)
            && (rc == 412 <==> said.PrivmsgNoText?)
            && (rc == 461 && mtype == USER <==> said.UserMissing?)
            && (rc == 461 && mtype == JOIN <==> said.JoinNothing?)
            && (rc == 461 && mtype == TOPIC <==> said.TopicNothing?)
            && ((rc == 432 || (rc == 461 && mtype == PART) || (mtype == JOIN && |t| > 1 && t[1] == "0")) <==> said.UsesNull?)
  {
    ErrorsOfType(TypeOf(t[0]), t);
  }

  lemma ErrorsOfType(mtype: MsgType, t: seq<string>)
    requires !Missing(t, 0) && TypeOf(t[0]) == mtype
    ensures var rc, said := ParseAs(mtype, t).rc, MessageOfTokens(t);
            && (rc == 431 <==> said.NickMissing?)
            && (rc == 411 <==> said.PrivmsgNoTarget?)
            && (rc == 412 <==> said.PrivmsgNoText?)
            && (rc == 461 && mtype == USER <==> said.UserMissing?)
            && (rc == 461 && mtype == JOIN <==> said.JoinNothing?)
            && (rc == 461 && mtype == TOPIC <==> said.TopicNothing?)
            && ((rc == 432 || (rc == 461 && mtype == PART) || (mtype == JOIN && |t| > 1 && t[1] == "0")) <==> said.UsesNull?)
  {
  }
}
