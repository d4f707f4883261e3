/**
 The command parser of src/parser.c: it tokenises a message in place and fills a message
 struct with pointers to the tokens.
 */
module Parser {
  import opened Basics
  import opened Framing
  import opened Tokeniser

  datatype MsgType =
    | UNKNOWN | USER | NICK | PRIVMSG | NOTICE | PING | PONG | MOTD | LUSERS | WHOIS
    | JOIN | PART | TOPIC | LIST | NAMES | AWAY

  const NICK_MAX_SIZE: nat := 9

  const ERR_NORECIPIENT: int := 411
  const ERR_NOTEXTTOSEND: int := 412
  const ERR_NONICKNAMEGIVEN: int := 431
  const ERR_ERRONEUSNICKNAME: int := 432
  const ERR_NEEDMOREPARAMS: int := 461

  // ---------------------------------------------------------------- what a parse stores

  /** What a parse does to one pointer of the struct's union. */
  datatype Field = Kept | Null | Token(index: nat)

  /**
   The effect of a parse. Each member of the union is at most two pointers and a flag: the
   first pointer is the nick, user name, target or channel list, the second the full name,
   contents, mask, part message or topic.
   */
  datatype Parse =
    | Rejected
    | Accepted(mtype: MsgType, rc: int, err: Option<int>, first: Field, second: Field, leaveAll: bool)

  predicate Missing(toks: seq<string>, i: nat) {
    i >= |toks| || toks[i] == ""
  }

  function Optional(toks: seq<string>, i: nat): Field {
    if i < |toks| then Token(i) else Null
  }

  function Failed(mtype: MsgType, code: int, first: Field): Parse {
    Accepted(mtype, code, Some(code), first, Kept, false)
  }

  function Plain(mtype: MsgType): Parse {
    Accepted(mtype, 0, None, Kept, Kept, false)
  }

  function Stores(mtype: MsgType, first: Field, second: Field): Parse {
    Accepted(mtype, 0, Some(0), first, second, false)
  }

  function NickOf(t: seq<string>): Parse {
    if Missing(t, 1) then Failed(NICK, ERR_NONICKNAMEGIVEN, Kept)
    else if |t[1]| > NICK_MAX_SIZE then Failed(NICK, ERR_ERRONEUSNICKNAME, Kept)
    else Stores(NICK, Token(1), Kept)
  }

  function UserOf(t: seq<string>): Parse {
    if Missing(t, 1) then Failed(USER, ERR_NEEDMOREPARAMS, Kept)
    else if |t| < 5 then Failed(USER, ERR_NEEDMOREPARAMS, Token(1))
    else Stores(USER, Token(1), Token(4))
  }

  function PrivmsgOf(t: seq<string>): Parse {
    if Missing(t, 1) then Failed(PRIVMSG, ERR_NORECIPIENT, Kept)
    else if |t| < 3 then Failed(PRIVMSG, ERR_NOTEXTTOSEND, Token(1))
    else Stores(PRIVMSG, Token(1), Token(2))
  }

  function WhoisOf(t: seq<string>): Parse {
    Accepted(WHOIS, 0, None, Kept, Optional(t, 1), false)
  }

  function JoinOf(t: seq<string>): Parse {
    if Missing(t, 1) then Failed(JOIN, ERR_NEEDMOREPARAMS, Kept)
    else if t[1] == "0" then Accepted(JOIN, 0, None, Kept, Kept, true)
    else Stores(JOIN, Token(1), Kept)
  }

  function PartOf(t: seq<string>): Parse {
    if Missing(t, 1) then Failed(PART, ERR_NEEDMOREPARAMS, Kept)
    else Stores(PART, Token(1), if Missing(t, 2) then Null else Token(2))
  }

  function ListOf(t: seq<string>): Parse {
    if Missing(t, 1) then Plain(LIST) else Stores(LIST, Token(1), Kept)
  }

  function TopicOf(t: seq<string>): Parse {
    if Missing(t, 1) then Failed(TOPIC, ERR_NEEDMOREPARAMS, Kept)
    else Stores(TOPIC, Token(1), if |t| > 2 then Token(2) else Kept)
  }

  function NamesOf(t: seq<string>): Parse {
    Accepted(NAMES, 0, None, Optional(t, 1), Kept, false)
  }

  function AwayOf(t: seq<string>): Parse {
    Accepted(AWAY, 0, None, Optional(t, 1), Kept, false)
  }

  /** The message type of a command name. */
  function TypeOf(command: string): MsgType {
    if command == "NICK" then NICK
    else if command == "USER" then USER
    else if command == "PING" then PING
    else if command == "PONG" then PONG
    else if command == "MOTD" then MOTD
    else if command == "PRIVMSG" then PRIVMSG
    else if command == "LUSERS" then LUSERS
    else if command == "WHOIS" then WHOIS
    else if command == "JOIN" then JOIN
    else if command == "PART" then PART
    else if command == "LIST" then LIST
    else if command == "TOPIC" then TOPIC
    else if command == "NAMES" then NAMES
    else if command == "AWAY" then AWAY
    else UNKNOWN
  }

  /** What the parser of a type of message makes of the tokens. */
  function ParseAs(mtype: MsgType, t: seq<string>): Parse {
    match mtype
    case NICK => NickOf(t)
    case USER => UserOf(t)
    case PRIVMSG => PrivmsgOf(t)
    case WHOIS => WhoisOf(t)
    case JOIN => JoinOf(t)
    case PART => PartOf(t)
    case LIST => ListOf(t)
    case TOPIC => TopicOf(t)
    case NAMES => NamesOf(t)
    case AWAY => AwayOf(t)
    case other => Plain(other)
  }

  /** What parse_message makes of the tokens of a message. */
  function ParseTokens(t: seq<string>): Parse {
    if Missing(t, 0) then Rejected else ParseAs(TypeOf(t[0]), t)
  }

  function UpTo(t: seq<string>, n: nat): (used: nat)
    ensures used <= |t|
  {
    if n <= |t| then n else |t|
  }

  /** How many tokens parse_message takes from a message before it returns. */
  function TokensUsed(t: seq<string>): (used: nat)
    ensures used <= |t|
  {
    if Missing(t, 0) then UpTo(t, 1)
    else match TypeOf(t[0])
      case NICK => UpTo(t, 2)
      case USER => UpTo(t, if Missing(t, 1) then 2 else 5)
      case PRIVMSG => UpTo(t, if Missing(t, 1) then 2 else 3)
      case WHOIS => UpTo(t, 2)
      case JOIN => UpTo(t, 2)
      case PART => UpTo(t, if Missing(t, 1) then 2 else 3)
      case LIST => UpTo(t, 2)
      case TOPIC => UpTo(t, if Missing(t, 1) then 2 else 3)
      case NAMES => UpTo(t, 2)
      case AWAY => UpTo(t, 2)
      case _ => 1
  }

  // ---------------------------------------------------------------- the struct

  datatype Fields = Fields(mtype: MsgType, command: Option<nat>, parseErr: int,
                           first: Option<nat>, second: Option<nat>, leaveAll: bool)

  /** A struct cleared with memset. */
  const CLEARED: Fields := Fields(UNKNOWN, None, 0, None, None, false)

  function StoreField(old_: Option<nat>, f: Field, spans: seq<Span>): Option<nat> {
    match f
    case Kept => old_
    case Null => None
    case Token(i) => if i < |spans| then Some(spans[i].start) else None
  }

  /** What a per-command parser does to the struct. */
  function StoreUnion(m: Fields, p: Parse, spans: seq<Span>): Fields {
    match p
    case Rejected => m
    case Accepted(mtype, _, err, first, second, leaveAll) =>
      Fields(mtype,
             m.command,
             if err.Some? then err.value else m.parseErr,
             StoreField(m.first, first, spans),
             StoreField(m.second, second, spans),
             m.leaveAll || leaveAll)
  }

  /** The struct after parse_message, given the struct before it. */
  function StoreParse(m: Fields, p: Parse, spans: seq<Span>): Fields {
    match p
    case Rejected => m
    case Accepted(_, _, _, _, _, _) => StoreUnion(m.(command := StoreField(None, Token(0), spans)), p, spans)
  }

  function ReturnCode(p: Parse): int {
    if p.Rejected? then -1 else p.rc
  }

  lemma RejectedIff(t: seq<string>)
    ensures ParseTokens(t).Rejected? <==> Missing(t, 0)
    ensures ReturnCode(ParseTokens(t)) == -1 <==> Missing(t, 0)
  {
  }

  /** The tokens that a parse refers to. */
  ghost predicate RefersBelow(p: Parse, n: nat) {
    p.Accepted? ==> 0 < n && (p.first.Token? ==> p.first.index < n) && (p.second.Token? ==> p.second.index < n)
  }

  /** A parse stores pointers only to tokens that it has taken, and so has ended with NUL. */
  lemma RefersToUsedTokens(t: seq<string>)
    ensures RefersBelow(ParseTokens(t), TokensUsed(t))
  {
  }

  /** The message buffer after parse_message. */
  ghost function ParsedBuffer(s: string): (buf: string)
    ensures |buf| == |s|
  {
    WithNuls(s, MessageSpans(s)[..TokensUsed(MessageTokens(s))])
  }

  // ---------------------------------------------------------------- the scanning state

  /** `n` tokens of the message `s` have been taken from the buffer. */
  ghost predicate Parsing(buf: string, s: string, n: nat, save: Option<nat>) {
    && MessageEnd(s).Some? && n <= |MessageSpans(s)|
    && Scanning(buf, s, MessageEnd(s).value, MessageSpans(s)[..n], MessageSpans(s)[n..], save)
  }

  lemma MessageInOrder(s: string)
    requires MessageEnd(s).Some?
    ensures InOrder(MessageSpans(s), SkipSpaces(s, 0), MessageEnd(s).value)
  {
    SpansInOrder(s, SkipSpaces(s, 0), MessageEnd(s).value);
  }

  lemma TokenIsSlice(s: string, k: nat)
    requires MessageEnd(s).Some? && k < |MessageSpans(s)|
    ensures var span := MessageSpans(s)[k];
            && span.End() < |s| && |MessageTokens(s)[k]| == span.len
            && MessageTokens(s)[k] == s[span.start..span.End()]
            && NUL !in MessageTokens(s)[k]
  {
    MessageInOrder(s);
    var span := MessageSpans(s)[k];
    NoNulInside(s, SkipSpaces(s, 0), MessageEnd(s).value, span.start, span.End());
  }

  lemma NoNulInside(s: string, p: nat, end: nat, a: nat, b: nat)
    requires Strstr(s, p) == Some(end) && p <= a <= b <= end
    ensures NUL !in s[a..b]
  {
  }

  /** The text of a token already taken stands in the buffer as a C string. */
  lemma TokenInBuffer(buf: string, s: string, n: nat, save: Option<nat>, k: nat)
    requires Parsing(buf, s, n, save) && k < n
    ensures var span := MessageSpans(s)[k];
            && span.End() < |buf| && buf[span.End()] == NUL
            && buf[span.start..span.End()] == MessageTokens(s)[k]
            && NUL !in MessageTokens(s)[k]
  {
    MessageInOrder(s);
    TokenIsSlice(s, k);
    TokensSurvive(s, MessageSpans(s), MessageSpans(s)[..n], k);
  }

  /** strcmp(tok, lit) == 0, for a token that ends with NUL at `len`. */
  method StrEq(buf: array<char>, tok: nat, ghost len: nat, lit: string) returns (eq: bool)
    requires tok + len < buf.Length && buf[tok + len] == NUL
    requires NUL !in buf[tok..tok + len] && NUL !in lit
    ensures eq <==> buf[tok..tok + len] == lit
  {
    var i := 0;
    while i < |lit|
      invariant 0 <= i <= |lit| && i <= len
      invariant buf[tok..tok + i] == lit[..i]
    {
      assert i < len ==> buf[tok + i] == buf[tok..tok + len][i];
      if buf[tok + i] != lit[i] {
        assert i < len ==> buf[tok..tok + len][i] != lit[i];
        return false;
      }
      i := i + 1;
    }
    assert i < len ==> buf[tok + i] == buf[tok..tok + len][i];
    return buf[tok + i] == NUL;
  }

  /**
   The state of a scanner. The recursion on `depth` changes nothing: it keeps the verifier
   from unfolding the state in every parser that only passes it on.
   */
  ghost predicate ScannerState(depth: nat, buf: string, s: string, spans: seq<Span>, toks: seq<string>,
                               n: nat, save: Option<nat>)
    decreases depth
  {
    if depth > 0 then ScannerState(depth - 1, buf, s, spans, toks, n, save)
    else spans == MessageSpans(s) && toks == MessageTokens(s) && Parsing(buf, s, n, save)
  }

  lemma {:induction false} UnfoldState(depth: nat, buf: string, s: string, spans: seq<Span>, toks: seq<string>,
                                       n: nat, save: Option<nat>)
    ensures ScannerState(depth, buf, s, spans, toks, n, save) == ScannerState(0, buf, s, spans, toks, n, save)
  {
    if depth > 0 {
      UnfoldState(depth - 1, buf, s, spans, toks, n, save);
    }
  }

  /** A buffer being tokenised and its saved pointer. */
  lemma TokenInParsing(buf: string, s: string, spans: seq<Span>, n: nat, save: Option<nat>, k: nat, end: nat)
    requires Parsing(buf, s, n, save) && spans == MessageSpans(s) && k < n && k < |spans| && end == spans[k].End()
    ensures end < |buf| && buf[end] == NUL && buf[spans[k].start..end] == MessageTokens(s)[k]
    ensures NUL !in buf[spans[k].start..end]
  {
    TokenInBuffer(buf, s, n, save, k);
  }

  lemma TokenInState(depth: nat, buf: string, s: string, spans: seq<Span>, toks: seq<string>, n: nat,
                     save: Option<nat>, k: nat, end: nat)
    requires ScannerState(depth, buf, s, spans, toks, n, save) && k < n && k < |spans| && end == spans[k].End()
    ensures end < |buf| && buf[end] == NUL && k < |toks| && buf[spans[k].start..end] == toks[k]
    ensures NUL !in buf[spans[k].start..end]
  {
    UnfoldState(depth, buf, s, spans, toks, n, save);
    TokenInParsing(buf, s, spans, n, save, k, end);
  }

  class Scanner {
    const buf: array<char>
    var save: Option<nat>
    ghost const s: string
    ghost const spans: seq<Span>
    ghost const toks: seq<string>
    ghost const depth: nat
    ghost var taken: nat

    ghost predicate Valid()
      reads this, buf
    {
      |toks| == |spans| && taken <= |toks| && 2 <= depth && ScannerState(depth, buf[..], s, spans, toks, taken, save)
    }

    /** `started` says that the first call of msgtok_r has returned a token. */
    constructor (buf: array<char>, save: Option<nat>, ghost s: string, ghost started: bool)
      requires started ==> Parsing(buf[..], s, 1, save)
      ensures this.buf == buf && this.s == s && spans == MessageSpans(s) && toks == MessageTokens(s)
      ensures started ==> Valid() && taken == 1
    {
      this.buf := buf;
      this.save := save;
      this.s := s;
      this.spans := MessageSpans(s);
      this.toks := MessageTokens(s);
      this.depth := 2;
      this.taken := 1;
      UnfoldState(2, buf[..], s, MessageSpans(s), MessageTokens(s), 1, save);
    }

    lemma State()
      requires Valid()
      ensures spans == MessageSpans(s) && toks == MessageTokens(s) && Parsing(buf[..], s, taken, save)
    {
      UnfoldState(depth, buf[..], s, spans, toks, taken, save);
    }

    lemma Content()
      requires Valid()
      ensures taken <= |spans| && buf[..] == WithNuls(s, spans[..taken])
    {
      State();
    }

    /** msgtok_r(NULL, &toklen, &saveptr) */
    method Next() returns (tok: Option<nat>, toklen: nat)
      requires Valid()
      modifies this, buf
      ensures Valid()
      ensures old(taken) < |toks| ==>
                taken == old(taken) + 1 && tok == Some(spans[old(taken)].start) && toklen == |toks[old(taken)]|
      ensures old(taken) >= |toks| ==> taken == old(taken) && tok.None? && toklen == 0
    {
      State();
      ghost var n := taken;
      ghost var done, rest;
      if n < |spans| {
        TokenIsSlice(s, n);
      }
      tok, toklen, save, done, rest := NextToken(buf, save, s, MessageEnd(s).value, spans[..n], spans[n..]);
      taken := if n < |spans| then n + 1 else n;
      assert done == spans[..taken] && rest == spans[taken..];
      UnfoldState(depth, buf[..], s, spans, toks, taken, save);
    }

    /** strcmp(tok, lit) == 0, for a token that has been taken. */
    method TokenIs(tok: nat, ghost k: nat, lit: string) returns (eq: bool)
      requires Valid() && k < taken && k < |spans| && tok == spans[k].start && NUL !in lit
      ensures eq <==> toks[k] == lit
    {
      TokenInState(depth, buf[..], s, spans, toks, taken, save, k, tok + spans[k].len);
      eq := StrEq(buf, tok, spans[k].len, lit);
    }
  }

  class IrcMessage {
    var mtype: MsgType
    var command: Option<nat>
    var parseErr: int
    var first: Option<nat>
    var second: Option<nat>
    var leaveAll: bool

    function View(): Fields
      reads this
    {
      Fields(mtype, command, parseErr, first, second, leaveAll)
    }

    constructor ()
      ensures View() == CLEARED
    {
      mtype, command, parseErr, first, second, leaveAll := UNKNOWN, None, 0, None, None, false;
    }

    method ParseNick(sc: Scanner) returns (rc: int)
      requires sc.Valid() && sc.taken == 1
      modifies this, sc, sc.buf
      ensures sc.Valid() && sc.taken == UpTo(sc.toks, 2)
      ensures View() == StoreUnion(old(View()), NickOf(sc.toks), sc.spans)
      ensures rc == ReturnCode(NickOf(sc.toks))
    {
      mtype := NICK;
      var tok, toklen := sc.Next();
      if tok.None? || toklen == 0 {
        parseErr := ERR_NONICKNAMEGIVEN;
        return ERR_NONICKNAMEGIVEN;
      } else if toklen > NICK_MAX_SIZE {
        parseErr := ERR_ERRONEUSNICKNAME;
        return ERR_ERRONEUSNICKNAME;
      }
      first := tok;
      parseErr := 0;
      return 0;
    }

    method ParseUser(sc: Scanner) returns (rc: int)
      requires sc.Valid() && sc.taken == 1
      modifies this, sc, sc.buf
      ensures sc.Valid() && sc.taken == UpTo(sc.toks, if Missing(sc.toks, 1) then 2 else 5)
      ensures View() == StoreUnion(old(View()), UserOf(sc.toks), sc.spans)
      ensures rc == ReturnCode(UserOf(sc.toks))
    {
      mtype := USER;
      var tok, toklen := sc.Next();
      if tok.None? || toklen == 0 {
        parseErr := ERR_NEEDMOREPARAMS;
        return ERR_NEEDMOREPARAMS;
      }
      first := tok;
      tok, toklen := sc.Next();
      if tok.None? {
        parseErr := ERR_NEEDMOREPARAMS;
        return ERR_NEEDMOREPARAMS;
      }
      tok, toklen := sc.Next();
      if tok.None? {
        parseErr := ERR_NEEDMOREPARAMS;
        return ERR_NEEDMOREPARAMS;
      }
      tok, toklen := sc.Next();
      if tok.None? {
        parseErr := ERR_NEEDMOREPARAMS;
        return ERR_NEEDMOREPARAMS;
      }
      second := tok;
      parseErr := 0;
      return 0;
    }

    method ParsePrivmsg(sc: Scanner) returns (rc: int)
      requires sc.Valid() && sc.taken == 1
      modifies this, sc, sc.buf
      ensures sc.Valid() && sc.taken == UpTo(sc.toks, if Missing(sc.toks, 1) then 2 else 3)
      ensures View() == StoreUnion(old(View()), PrivmsgOf(sc.toks), sc.spans)
      ensures rc == ReturnCode(PrivmsgOf(sc.toks))
    {
      mtype := PRIVMSG;
      var tok, toklen := sc.Next();
      if tok.None? || toklen == 0 {
        parseErr := ERR_NORECIPIENT;
        return ERR_NORECIPIENT;
      }
      first := tok;
      tok, toklen := sc.Next();
      if tok.None? {
        parseErr := ERR_NOTEXTTOSEND;
        return ERR_NOTEXTTOSEND;
      }
      second := tok;
      parseErr := 0;
      return 0;
    }

    method ParseWhois(sc: Scanner) returns (rc: int)
      requires sc.Valid() && sc.taken == 1
      modifies this, sc, sc.buf
      ensures sc.Valid() && sc.taken == UpTo(sc.toks, 2)
      ensures View() == StoreUnion(old(View()), WhoisOf(sc.toks), sc.spans)
      ensures rc == ReturnCode(WhoisOf(sc.toks))
    {
      mtype := WHOIS;
      var tok, toklen := sc.Next();
      second := tok;
      return 0;
    }

    method ParseJoin(sc: Scanner) returns (rc: int)
      requires sc.Valid() && sc.taken == 1
      modifies this, sc, sc.buf
      ensures sc.Valid() && sc.taken == UpTo(sc.toks, 2)
      ensures View() == StoreUnion(old(View()), JoinOf(sc.toks), sc.spans)
      ensures rc == ReturnCode(JoinOf(sc.toks))
    {
      mtype := JOIN;
      var tok, toklen := sc.Next();
      if tok.None? || toklen == 0 {
        parseErr := ERR_NEEDMOREPARAMS;
        return ERR_NEEDMOREPARAMS;
      }
      var leave := sc.TokenIs(tok.value, 1, "0");
      if leave {
        leaveAll := true;
        return 0;
      }
      first := tok;
      parseErr := 0;
      return 0;
    }

    method ParsePart(sc: Scanner) returns (rc: int)
      requires sc.Valid() && sc.taken == 1
      modifies this, sc, sc.buf
      ensures sc.Valid() && sc.taken == UpTo(sc.toks, if Missing(sc.toks, 1) then 2 else 3)
      ensures View() == StoreUnion(old(View()), PartOf(sc.toks), sc.spans)
      ensures rc == ReturnCode(PartOf(sc.toks))
    {
      mtype := PART;
      var tok, toklen := sc.Next();
      if tok.None? || toklen == 0 {
        parseErr := ERR_NEEDMOREPARAMS;
        return ERR_NEEDMOREPARAMS;
      }
      first := tok;
      tok, toklen := sc.Next();
      if tok.None? || toklen == 0 {
        second := None;
      } else {
        second := tok;
      }
      parseErr := 0;
      return 0;
    }

    method ParseList(sc: Scanner) returns (rc: int)
      requires sc.Valid() && sc.taken == 1
      modifies this, sc, sc.buf
      ensures sc.Valid() && sc.taken == UpTo(sc.toks, 2)
      ensures View() == StoreUnion(old(View()), ListOf(sc.toks), sc.spans)
      ensures rc == ReturnCode(ListOf(sc.toks))
    {
      mtype := LIST;
      var tok, toklen := sc.Next();
      if tok.None? || toklen == 0 {
        return 0;
      }
      first := tok;
      parseErr := 0;
      return 0;
    }

    method ParseTopic(sc: Scanner) returns (rc: int)
      requires sc.Valid() && sc.taken == 1
      modifies this, sc, sc.buf
      ensures sc.Valid() && sc.taken == UpTo(sc.toks, if Missing(sc.toks, 1) then 2 else 3)
      ensures View() == StoreUnion(old(View()), TopicOf(sc.toks), sc.spans)
      ensures rc == ReturnCode(TopicOf(sc.toks))
    {
      mtype := TOPIC;
      var tok, toklen := sc.Next();
      if tok.None? || toklen == 0 {
        parseErr := ERR_NEEDMOREPARAMS;
        return ERR_NEEDMOREPARAMS;
      }
      first := tok;
      tok, toklen := sc.Next();
      if tok.Some? {
        second := tok;
      }
      parseErr := 0;
      return 0;
    }

    method ParseNames(sc: Scanner) returns (rc: int)
      requires sc.Valid() && sc.taken == 1
      modifies this, sc, sc.buf
      ensures sc.Valid() && sc.taken == UpTo(sc.toks, 2)
      ensures View() == StoreUnion(old(View()), NamesOf(sc.toks), sc.spans)
      ensures rc == ReturnCode(NamesOf(sc.toks))
    {
      mtype := NAMES;
      var tok, toklen := sc.Next();
      if tok.Some? {
        first := tok;
      } else {
        first := None;
      }
      return 0;
    }

    method ParseAway(sc: Scanner) returns (rc: int)
      requires sc.Valid() && sc.taken == 1
      modifies this, sc, sc.buf
      ensures sc.Valid() && sc.taken == UpTo(sc.toks, 2)
      ensures View() == StoreUnion(old(View()), AwayOf(sc.toks), sc.spans)
      ensures rc == ReturnCode(AwayOf(sc.toks))
    {
      mtype := AWAY;
      var tok, toklen := sc.Next();
      if tok.Some? {
        first := tok;
      } else {
        first := None;
      }
      return 0;
    }

    /** The parsers of commands without parameters. */
    method ParsePlain(t: MsgType) returns (rc: int)
      modifies this
      ensures rc == 0 && View() == old(View()).(mtype := t)
    {
      mtype := t;
      return 0;
    }

    /** The comparisons of the command with the names it may have. */
    method CommandType(sc: Scanner, tok: nat) returns (t: MsgType)
      requires sc.Valid() && sc.taken == 1 && |sc.spans| > 0 && tok == sc.spans[0].start
      ensures t == TypeOf(sc.toks[0])
    {
      var same: bool;
      same := sc.TokenIs(tok, 0, "NICK");
      if same {
        return NICK;
      }
      same := sc.TokenIs(tok, 0, "USER");
      if same {
        return USER;
      }
      same := sc.TokenIs(tok, 0, "PING");
      if same {
        return PING;
      }
      same := sc.TokenIs(tok, 0, "PONG");
      if same {
        return PONG;
      }
      same := sc.TokenIs(tok, 0, "MOTD");
      if same {
        return MOTD;
      }
      same := sc.TokenIs(tok, 0, "PRIVMSG");
      if same {
        return PRIVMSG;
      }
      same := sc.TokenIs(tok, 0, "LUSERS");
      if same {
        return LUSERS;
      }
      same := sc.TokenIs(tok, 0, "WHOIS");
      if same {
        return WHOIS;
      }
      same := sc.TokenIs(tok, 0, "JOIN");
      if same {
        return JOIN;
      }
      same := sc.TokenIs(tok, 0, "PART");
      if same {
        return PART;
      }
      same := sc.TokenIs(tok, 0, "LIST");
      if same {
        return LIST;
      }
      same := sc.TokenIs(tok, 0, "TOPIC");
      if same {
        return TOPIC;
      }
      same := sc.TokenIs(tok, 0, "NAMES");
      if same {
        return NAMES;
      }
      same := sc.TokenIs(tok, 0, "AWAY");
      if same {
        return AWAY;
      }
      return UNKNOWN;
    }

    /** The dispatch on the command. */
    method Dispatch(sc: Scanner, tok: nat) returns (rc: int)
      requires sc.Valid() && sc.taken == 1 && |sc.spans| > 0 && tok == sc.spans[0].start && sc.toks[0] != ""
      modifies this, sc, sc.buf
      ensures sc.Valid() && sc.taken == TokensUsed(sc.toks)
      ensures View() == StoreUnion(old(View()), ParseTokens(sc.toks), sc.spans)
      ensures rc == ReturnCode(ParseTokens(sc.toks))
    {
      var t := CommandType(sc, tok);
      match t
      case NICK => rc := ParseNick(sc);
      case USER => rc := ParseUser(sc);
      case PRIVMSG => rc := ParsePrivmsg(sc);
      case WHOIS => rc := ParseWhois(sc);
      case JOIN => rc := ParseJoin(sc);
      case PART => rc := ParsePart(sc);
      case LIST => rc := ParseList(sc);
      case TOPIC => rc := ParseTopic(sc);
      case NAMES => rc := ParseNames(sc);
      case AWAY => rc := ParseAway(sc);
      case other => rc := ParsePlain(other);
    }

    /**
     parse_message: fills the struct with pointers to the message's tokens, ends each token
     used with NUL, and changes no other byte.
     */
    method ParseMessage(buf: array<char>) returns (rc: int)
      requires Terminated(buf[..], 0)
      modifies this, buf
      ensures var p := ParseTokens(MessageTokens(old(buf[..])));
              && rc == ReturnCode(p)
              && View() == StoreParse(old(View()), p, MessageSpans(old(buf[..])))
      ensures buf[..] == ParsedBuffer(old(buf[..]))
    {
      var sc, tok, toklen := StartScanner(buf);
      if tok.None? {
        return -1;
      }
      if toklen == 0 {
        sc.Content();
        return -1;
      }
      rc := ParseCommand(sc, tok.value);
    }

    method ParseCommand(sc: Scanner, tok: nat) returns (rc: int)
      requires sc.Valid() && sc.taken == 1 && |sc.spans| > 0 && tok == sc.spans[0].start && sc.toks[0] != ""
      modifies this, sc, sc.buf
      ensures rc == ReturnCode(ParseTokens(sc.toks)) && |sc.spans| == |sc.toks|
      ensures View() == StoreParse(old(View()), ParseTokens(sc.toks), sc.spans)
      ensures sc.buf[..] == WithNuls(sc.s, sc.spans[..TokensUsed(sc.toks)])
    {
      command := Some(tok);
      rc := Dispatch(sc, tok);
      sc.Content();
    }
  }

  /** The first call of msgtok_r on a message. */
  method StartScanner(buf: array<char>) returns (sc: Scanner, tok: Option<nat>, toklen: nat)
    requires Terminated(buf[..], 0)
    modifies buf
    ensures sc.s == old(buf[..]) && sc.buf == buf && fresh(sc)
    ensures sc.spans == MessageSpans(old(buf[..])) && sc.toks == MessageTokens(old(buf[..])) && |sc.toks| == |sc.spans|
    ensures tok.None? ==> sc.spans == [] && buf[..] == old(buf[..])
    ensures tok.Some? ==>
              && sc.Valid() && sc.taken == 1 && |sc.spans| > 0
              && tok.value == sc.spans[0].start && (toklen == 0 <==> sc.toks[0] == "")
  {
    ghost var s := buf[..];
    var save;
    ghost var done, rest;
    tok, toklen, save, done, rest := FirstToken(buf);
    if tok.Some? {
      StartParsing(buf[..], s, done, rest, save);
    }
    sc := new Scanner(buf, save, s, tok.Some?);
  }

  lemma StartParsing(buf: string, s: string, done: seq<Span>, rest: seq<Span>, save: Option<nat>)
    requires MessageEnd(s).Some? && |done| == 1 && done + rest == MessageSpans(s)
    requires Scanning(buf, s, MessageEnd(s).value, done, rest, save)
    ensures Parsing(buf, s, 1, save) && done[0] == MessageSpans(s)[0]
    ensures MessageTokens(s)[0] == "" <==> done[0].len == 0
  {
    assert done == MessageSpans(s)[..1] && rest == MessageSpans(s)[1..];
    TokenIsSlice(s, 0);
  }

  // ---------------------------------------------------------------- pointers and text

  /** The C string at a pointer into a buffer. */
  ghost predicate PointsTo(buf: string, ptr: nat, text: string) {
    && ptr + |text| < |buf| && buf[ptr..ptr + |text|] == text
    && buf[ptr + |text|] == NUL && NUL !in text
  }

  /**
   After a parse every pointer to a token that was taken is a slice of the message that ends
   inside the buffer, and reads as the token it stands for.
   */
  lemma PointersReadTokens(s: string, k: nat)
    requires MessageEnd(s).Some? && k < TokensUsed(MessageTokens(s))
    ensures var span := MessageSpans(s)[k];
            && span.End() <= MessageEnd(s).value
            && MessageTokens(s)[k] == s[span.start..span.End()]
            && PointsTo(ParsedBuffer(s), span.start, MessageTokens(s)[k])
  {
    TokenIsSlice(s, k);
    MessageInOrder(s);
    TakenTokenReads(s, MessageSpans(s), TokensUsed(MessageTokens(s)), k);
  }

  lemma TakenTokenReads(s: string, spans: seq<Span>, used: nat, k: nat)
    requires k < used <= |spans| && InOrder(spans, 0, |s| - 1) && NUL !in Text(s, spans[k])
    ensures PointsTo(WithNuls(s, spans[..used]), spans[k].start, Text(s, spans[k]))
  {
    TokensSurvive(s, spans, spans[..used], k);
    TextIsPointedAt(WithNuls(s, spans[..used]), spans[k], Text(s, spans[k]));
  }

  lemma TextIsPointedAt(buf: string, span: Span, text: string)
    requires span.End() < |buf| && Text(buf, span) == text && buf[span.End()] == NUL && NUL !in text
    ensures PointsTo(buf, span.start, text)
  {
  }

  /** A bare CR LF, as in the frame that a read of 511 bytes leaves behind, is rejected. */
  lemma BareCrlfRejected(rest: string)
    ensures ParseTokens(MessageTokens(CRLF + rest)) == Rejected
  {
    var s := CRLF + rest;
    assert MessageEnd(s) == Some(0);
    assert TokenAt(s, 0, 0) == (Span(0, 0), None);
    assert MessageSpans(s) == [Span(0, 0)];
  }
}
