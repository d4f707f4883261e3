/**
 What parse_message returns and stores, for every list of tokens, in the numbers that
 include/codes.h and the unit tests of the parser use.
 */
module ParseLaws {
  import opened Basics
  import opened Tokeniser
  import opened Parser

  /** The commands whose names the parser knows. */
  const COMMANDS: set<string> :=
    {"NICK", "USER", "PING", "PONG", "MOTD", "PRIVMSG", "LUSERS", "WHOIS", "JOIN", "PART", "LIST", "TOPIC", "NAMES", "AWAY"}

  lemma ClientTypes(name: string)
    ensures TypeOf(name) == NICK <==> name == "NICK"
    ensures TypeOf(name) == USER <==> name == "USER"
    ensures TypeOf(name) == PRIVMSG <==> name == "PRIVMSG"
    ensures TypeOf(name) == WHOIS <==> name == "WHOIS"
    ensures TypeOf(name) == AWAY <==> name == "AWAY"
  {
  }

  lemma ChannelTypes(name: string)
    ensures TypeOf(name) == JOIN <==> name == "JOIN"
    ensures TypeOf(name) == PART <==> name == "PART"
    ensures TypeOf(name) == LIST <==> name == "LIST"
    ensures TypeOf(name) == TOPIC <==> name == "TOPIC"
    ensures TypeOf(name) == NAMES <==> name == "NAMES"
  {
  }

  lemma OtherTypes(name: string)
    ensures TypeOf(name) == PING <==> name == "PING"
    ensures TypeOf(name) == PONG <==> name == "PONG"
    ensures TypeOf(name) == MOTD <==> name == "MOTD"
    ensures TypeOf(name) == LUSERS <==> name == "LUSERS"
    ensures TypeOf(name) == UNKNOWN <==> name !in COMMANDS
    ensures TypeOf(name) != NOTICE
  {
  }

  /** Each command has its own type, and no other name has it. */
  lemma TypeIsName(name: string)
    ensures TypeOf(name) == NICK <==> name == "NICK"
    ensures TypeOf(name) == USER <==> name == "USER"
    ensures TypeOf(name) == PRIVMSG <==> name == "PRIVMSG"
    ensures TypeOf(name) == WHOIS <==> name == "WHOIS"
    ensures TypeOf(name) == AWAY <==> name == "AWAY"
    ensures TypeOf(name) == JOIN <==> name == "JOIN"
    ensures TypeOf(name) == PART <==> name == "PART"
    ensures TypeOf(name) == LIST <==> name == "LIST"
    ensures TypeOf(name) == TOPIC <==> name == "TOPIC"
    ensures TypeOf(name) == NAMES <==> name == "NAMES"
    ensures TypeOf(name) == PING <==> name == "PING"
    ensures TypeOf(name) == PONG <==> name == "PONG"
    ensures TypeOf(name) == MOTD <==> name == "MOTD"
    ensures TypeOf(name) == LUSERS <==> name == "LUSERS"
    ensures TypeOf(name) == UNKNOWN <==> name !in COMMANDS
    ensures TypeOf(name) != NOTICE
  {
    ClientTypes(name);
    ChannelTypes(name);
    OtherTypes(name);
  }

  // ---------------------------------------------------------------- return codes

  /** There is a token at `i`, and it is not empty. */
  predicate Has(t: seq<string>, i: nat) {
    i < |t| && |t[i]| > 0
  }

  ghost predicate CodeIsRight(t: seq<string>, mtype: MsgType, rc: int) {
    && rc in {0, 411, 412, 431, 432, 461}
    && (rc == 431 <==> mtype == NICK && !Has(t, 1))
    && (rc == 432 <==> mtype == NICK && Has(t, 1) && |t[1]| > 9)
    && (rc == 411 <==> mtype == PRIVMSG && !Has(t, 1))
    && (rc == 412 <==> mtype == PRIVMSG && Has(t, 1) && |t| == 2)
    && (rc == 461 <==> (mtype in {JOIN, PART, TOPIC} && !Has(t, 1)) || (mtype == USER && (!Has(t, 1) || |t| < 5)))
  }

  ghost predicate ErrorIsRight(t: seq<string>, mtype: MsgType, rc: int, before: int, after: int) {
    after == if rc > 0 then rc
             else if mtype in {NICK, USER, PRIVMSG, PART, TOPIC} then 0
             else if mtype == JOIN && |t| > 1 && t[1] != "0" then 0
             else if mtype == LIST && Has(t, 1) then 0
             else before
  }

  lemma CodesOfType(mtype: MsgType, t: seq<string>, m: Fields, spans: seq<Span>)
    ensures var p := ParseAs(mtype, t);
            && p.Accepted? && p.mtype == mtype && CodeIsRight(t, mtype, p.rc)
            && ErrorIsRight(t, mtype, p.rc, m.parseErr, StoreParse(m, p, spans).parseErr)
  {
  }

  /**
   Every code that parse_message returns, exactly when it returns it; and the type and the code
   that it leaves in the struct.
   */
  lemma ReturnCodes(t: seq<string>, m: Fields, spans: seq<Span>)
    ensures ReturnCode(ParseTokens(t)) == -1 <==> !Has(t, 0)
    ensures !Has(t, 0) ==> StoreParse(m, ParseTokens(t), spans) == m
    ensures Has(t, 0) ==>
              var rc, m' := ReturnCode(ParseTokens(t)), StoreParse(m, ParseTokens(t), spans);
              && m'.mtype == TypeOf(t[0])
              && CodeIsRight(t, m'.mtype, rc) && ErrorIsRight(t, m'.mtype, rc, m.parseErr, m'.parseErr)
  {
    if Has(t, 0) {
      CodesOfType(TypeOf(t[0]), t, m, spans);
    }
  }

  // ---------------------------------------------------------------- what is stored

  function FirstPointer(t: seq<string>, mtype: MsgType, m: Fields, spans: seq<Span>): Option<nat>
    requires |spans| == |t|
  {
    if mtype == NICK && Has(t, 1) && |t[1]| <= 9 then Some(spans[1].start)
    else if mtype in {USER, PRIVMSG, PART, TOPIC, LIST} && Has(t, 1) then Some(spans[1].start)
    else if mtype == JOIN && Has(t, 1) && t[1] != "0" then Some(spans[1].start)
    else if mtype in {NAMES, AWAY} then if |t| > 1 then Some(spans[1].start) else None
    else m.first
  }

  function SecondPointer(t: seq<string>, mtype: MsgType, m: Fields, spans: seq<Span>): Option<nat>
    requires |spans| == |t|
  {
    if mtype == USER && Has(t, 1) && |t| >= 5 then Some(spans[4].start)
    else if mtype in {PRIVMSG, TOPIC} && Has(t, 1) && |t| > 2 then Some(spans[2].start)
    else if mtype == PART && Has(t, 1) then if Has(t, 2) then Some(spans[2].start) else None
    else if mtype == WHOIS then if |t| > 1 then Some(spans[1].start) else None
    else m.second
  }

  lemma PointersOfType(mtype: MsgType, t: seq<string>, m: Fields, spans: seq<Span>)
    requires |spans| == |t| && Has(t, 0)
    ensures var m' := StoreParse(m, ParseAs(mtype, t), spans);
            && m'.command == Some(spans[0].start)
            && m'.leaveAll == (m.leaveAll || (mtype == JOIN && |t| > 1 && t[1] == "0"))
            && m'.first == FirstPointer(t, mtype, m, spans) && m'.second == SecondPointer(t, mtype, m, spans)
  {
  }

  /** The pointers after a parse: which token each leads to, and which an error leaves alone. */
  lemma PointersStored(t: seq<string>, m: Fields, spans: seq<Span>)
    requires |spans| == |t| && Has(t, 0)
    ensures var m' := StoreParse(m, ParseTokens(t), spans);
            && m'.command == Some(spans[0].start)
            && m'.leaveAll == (m.leaveAll || (TypeOf(t[0]) == JOIN && |t| > 1 && t[1] == "0"))
            && m'.first == FirstPointer(t, TypeOf(t[0]), m, spans)
            && m'.second == SecondPointer(t, TypeOf(t[0]), m, spans)
  {
    PointersOfType(TypeOf(t[0]), t, m, spans);
  }

  /** How many tokens are taken: the ones behind them are not ended with NUL. */
  lemma TokensTaken(t: seq<string>)
    requires Has(t, 0)
    ensures var mtype := TypeOf(t[0]);
            var most :=
              if mtype == USER && Has(t, 1) then 5
              else if mtype in {PRIVMSG, PART, TOPIC} && Has(t, 1) then 3
              else if mtype in {PING, PONG, MOTD, LUSERS, UNKNOWN} then 1
              else 2;
            TokensUsed(t) == if |t| < most then |t| else most
  {
    OtherTypes(t[0]);
  }
}
