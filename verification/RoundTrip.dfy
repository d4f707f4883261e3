/**
 Printing a command and parsing it back (src/parser.c, src/msgtok.c): any number of leading
 spaces, any positive number of spaces between parameters, and the last parameter with or
 without its colon.
 */
module RoundTrip {
  import opened Basics
  import opened Framing
  import opened Tokeniser
  import opened Parser

  datatype Command =
    | Nick(nick: string)
    | User(user: string, mode: string, unused: string, realname: string)
    | Privmsg(target: string, text: string)
    | Ping | Pong | Motd | Lusers
    | Whois(mask: Option<string>)
    | Join(channels: string)
    | LeaveAll
    | Part(channels: string, partMessage: Option<string>)
    | List(listed: Option<string>)
    | Topic(channel: string, topic: Option<string>)
    | Names(named: Option<string>)
    | Away(away: Option<string>)

  function OptionalWord(w: Option<string>): seq<string> {
    match w case None => [] case Some(x) => [x]
  }

  function CommandType(c: Command): MsgType {
    match c
    case Nick(_) => NICK
    case User(_, _, _, _) => USER
    case Privmsg(_, _) => PRIVMSG
    case Ping => PING
    case Pong => PONG
    case Motd => MOTD
    case Lusers => LUSERS
    case Whois(_) => WHOIS
    case Join(_) => JOIN
    case LeaveAll => JOIN
    case Part(_, _) => PART
    case List(_) => LIST
    case Topic(_, _) => TOPIC
    case Names(_) => NAMES
    case Away(_) => AWAY
  }

  function NameOf(t: MsgType): string {
    match t
    case NICK => "NICK"
    case USER => "USER"
    case PRIVMSG => "PRIVMSG"
    case PING => "PING"
    case PONG => "PONG"
    case MOTD => "MOTD"
    case LUSERS => "LUSERS"
    case WHOIS => "WHOIS"
    case JOIN => "JOIN"
    case PART => "PART"
    case LIST => "LIST"
    case TOPIC => "TOPIC"
    case NAMES => "NAMES"
    case AWAY => "AWAY"
    case NOTICE => "NOTICE"
    case UNKNOWN => "UNKNOWN"
  }

  function Params(c: Command): seq<string> {
    match c
    case Nick(n) => [n]
    case User(u, m, x, r) => [u, m, x, r]
    case Privmsg(t, x) => [t, x]
    case Ping => []
    case Pong => []
    case Motd => []
    case Lusers => []
    case Whois(m) => OptionalWord(m)
    case Join(cs) => [cs]
    case LeaveAll => ["0"]
    case Part(cs, m) => [cs] + OptionalWord(m)
    case List(cs) => OptionalWord(cs)
    case Topic(ch, t) => [ch] + OptionalWord(t)
    case Names(cs) => OptionalWord(cs)
    case Away(t) => OptionalWord(t)
  }

  /** The command name and the parameters. */
  function Words(c: Command): seq<string> {
    [NameOf(CommandType(c))] + Params(c)
  }

  /** What a parsed struct says, with its pointers read as strings. */
  datatype Reading = Reading(mtype: MsgType, rc: int, err: int, command: string,
                             first: Option<string>, second: Option<string>, leaveAll: bool)

  /** The parameters that the struct must point to after the command has been parsed. */
  function Stored(c: Command): (Option<string>, Option<string>) {
    match c
    case Nick(n) => (Some(n), None)
    case User(u, _, _, r) => (Some(u), Some(r))
    case Privmsg(t, x) => (Some(t), Some(x))
    case Ping => (None, None)
    case Pong => (None, None)
    case Motd => (None, None)
    case Lusers => (None, None)
    case Whois(m) => (None, m)
    case Join(cs) => (Some(cs), None)
    case LeaveAll => (None, None)
    case Part(cs, m) => (Some(cs), m)
    case List(cs) => (cs, None)
    case Topic(ch, t) => (Some(ch), t)
    case Names(cs) => (cs, None)
    case Away(t) => (t, None)
  }

  /** What the struct must say after the command has been parsed. */
  function Meaning(c: Command): Reading {
    var t := CommandType(c);
    Reading(t, 0, 0, NameOf(t), Stored(c).0, Stored(c).1, c.LeaveAll?)
  }

  function ReadField(f: Field, toks: seq<string>): Option<string> {
    match f
    case Kept => None
    case Null => None
    case Token(i) => if i < |toks| then Some(toks[i]) else None
  }

  /** What a cleared struct says after a parse. */
  function ReadParse(p: Parse, toks: seq<string>): Option<Reading> {
    match p
    case Rejected => None
    case Accepted(mtype, rc, err, first, second, leaveAll) =>
      if |toks| == 0 then None
      else Some(Reading(mtype, rc, if err.Some? then err.value else 0, toks[0],
                        ReadField(first, toks), ReadField(second, toks), leaveAll))
  }

  // ---------------------------------------------------------------- well-formed commands

  predicate NoCrlf(s: string) {
    !HasCrlf(s)
  }

  /** A parameter that can stand before others. */
  predicate Middle(w: string) {
    w != "" && w[0] != ':' && ' ' !in w && NUL !in w && NoCrlf(w)
  }

  /** A parameter that can stand last, after a colon. */
  predicate Trailing(w: string) {
    NUL !in w && NoCrlf(w)
  }

  predicate OptionallyTrailing(w: Option<string>) {
    w.Some? ==> Trailing(w.value)
  }

  predicate WellFormed(c: Command) {
    match c
    case Nick(n) => Trailing(n) && 1 <= |n| <= NICK_MAX_SIZE
    case User(u, m, x, r) => Middle(u) && Middle(m) && Middle(x) && Trailing(r)
    case Privmsg(t, x) => Middle(t) && Trailing(x)
    case Ping => true
    case Pong => true
    case Motd => true
    case Lusers => true
    case Whois(m) => OptionallyTrailing(m)
    case Join(cs) => Trailing(cs) && cs != "" && cs != "0"
    case LeaveAll => true
    case Part(cs, m) => Trailing(cs) && cs != "" && (m.Some? ==> Middle(cs) && Trailing(m.value) && m.value != "")
    case List(cs) => OptionallyTrailing(cs) && cs != Some("")
    case Topic(ch, t) => Trailing(ch) && ch != "" && (t.Some? ==> Middle(ch) && Trailing(t.value))
    case Names(cs) => OptionallyTrailing(cs)
    case Away(t) => OptionallyTrailing(t)
  }

  lemma TypesOfFirstNames()
    ensures forall t | t in {NICK, USER, PING, PONG, MOTD} :: TypeOf(NameOf(t)) == t
  {
  }

  lemma TypesOfMiddleNames()
    ensures forall t | t in {PRIVMSG, LUSERS, WHOIS, JOIN, PART} :: TypeOf(NameOf(t)) == t
  {
  }

  lemma TypesOfLastNames()
    ensures forall t | t in {LIST, TOPIC, NAMES, AWAY} :: TypeOf(NameOf(t)) == t
  {
  }

  lemma ParamsOfCommand(c: Command, name: string)
    requires WellFormed(c) && name != "" && TypeOf(name) == CommandType(c)
    ensures ReadParse(ParseTokens([name] + Params(c)), [name] + Params(c)) ==
              Some(Reading(CommandType(c), 0, 0, name, Stored(c).0, Stored(c).1, c.LeaveAll?))
  {
    var t := [name] + Params(c);
    assert t[0] == name;
  }

  /** The words of every well-formed command, as a struct cleared first says them. */
  lemma ParseOfWords(c: Command)
    requires WellFormed(c)
    ensures ReadParse(ParseTokens(Words(c)), Words(c)) == Some(Meaning(c))
  {
    TypesOfFirstNames();
    TypesOfMiddleNames();
    TypesOfLastNames();
    ParamsOfCommand(c, NameOf(CommandType(c)));
  }

  // ---------------------------------------------------------------- printing

  function Spaces(n: nat): string {
    seq(n, _ => ' ')
  }

  /** Words with at least one space between them; `extra` gives the further ones. */
  function Line(ws: seq<string>, extra: seq<nat>, colon: bool): string
    requires |ws| >= 1 && |extra| == |ws| - 1
    decreases |ws|
  {
    if |ws| == 1 then if colon then ":" + ws[0] else ws[0]
    else ws[0] + " " + (Spaces(extra[0]) + Line(ws[1..], extra[1..], colon))
  }

  /** Words that a line of that form can carry. */
  predicate Printable(ws: seq<string>, colon: bool) {
    && |ws| >= 1
    && (forall i :: 0 <= i < |ws| - 1 ==> Middle(ws[i]))
    && (if colon then Trailing(ws[|ws| - 1]) else Middle(ws[|ws| - 1]))
  }

  /** The command as a message, with its CR LF. */
  function Print(c: Command, lead: nat, extra: seq<nat>, colon: bool): string
    requires |extra| == |Words(c)| - 1
  {
    Spaces(lead) + Line(Words(c), extra, colon) + CRLF
  }

  lemma NoCrlfConcat(a: string, b: string)
    requires NoCrlf(a) && NoCrlf(b) && (b != "" ==> b[0] != '\n')
    ensures NoCrlf(a + b)
  {
    forall i | 0 <= i < |a + b|
      ensures !CrlfAt(a + b, i)
    {
      if CrlfAt(a + b, i) {
        if i + 1 < |a| {
          assert CrlfAt(a, i);
        } else if i >= |a| {
          assert CrlfAt(b, i - |a|);
        }
      }
    }
  }

  /** A printed line has no NUL, no CR LF and does not start with a space. */
  lemma {:induction false} LineIsClean(ws: seq<string>, extra: seq<nat>, colon: bool)
    requires |ws| >= 1 && |extra| == |ws| - 1 && Printable(ws, colon)
    ensures var b := Line(ws, extra, colon);
            b != "" && b[0] != ' ' && NUL !in b && NoCrlf(b)
    decreases |ws|
  {
    if |ws| == 1 {
      if colon {
        ColonIsClean(ws[0]);
      }
    } else {
      var later := Line(ws[1..], extra[1..], colon);
      LineIsClean(ws[1..], extra[1..], colon);
      GapIsClean(extra[0], later);
      NoCrlfConcat(ws[0], " " + (Spaces(extra[0]) + later));
      assert Line(ws, extra, colon) == ws[0] + (" " + (Spaces(extra[0]) + later));
    }
  }

  lemma ColonIsClean(w: string)
    requires Trailing(w)
    ensures NUL !in ":" + w && NoCrlf(":" + w)
  {
    forall i | 0 <= i < |":" + w|
      ensures !CrlfAt(":" + w, i)
    {
      assert CrlfAt(":" + w, i) ==> CrlfAt(w, i - 1);
    }
  }

  lemma GapIsClean(n: nat, later: string)
    requires NUL !in later && NoCrlf(later)
    ensures var b := " " + (Spaces(n) + later);
            NUL !in b && NoCrlf(b)
  {
    var b := " " + (Spaces(n) + later);
    forall i | 0 <= i < |b|
      ensures !CrlfAt(b, i)
    {
      assert CrlfAt(b, i) ==> CrlfAt(later, i - 1 - n);
    }
  }

  lemma {:induction false} DropLeadingSpaces(n: nat, b: string)
    requires b != "" && b[0] != ' '
    ensures DropSpaces(Spaces(n) + b) == b
  {
    SkipLeadingSpaces(n, b, 0);
    assert (Spaces(n) + b)[n..] == b;
  }

  lemma {:induction false} SkipLeadingSpaces(n: nat, b: string, i: nat)
    requires b != "" && b[0] != ' ' && i <= n
    ensures SkipSpaces(Spaces(n) + b, i) == n
    decreases n - i
  {
    if i < n {
      SkipLeadingSpaces(n, b, i + 1);
    }
  }

  lemma SplitFirstWord(b: string, word: string, gap: nat, later: string)
    requires b == word + " " + (Spaces(gap) + later)
    requires Middle(word) && later != "" && later[0] != ' '
    ensures Split(b) == [word] + Split(later)
  {
    DropLeadingSpaces(gap, later);
    SplitAtSpace(b, word, Spaces(gap) + later, later);
  }

  lemma SplitLastWord(w: string, colon: bool)
    requires colon || Middle(w)
    ensures Split(if colon then ":" + w else w) == [w]
  {
    if colon {
      SplitTrailing(":" + w);
      assert (":" + w)[1..] == w;
    } else {
      SplitLast(w);
    }
  }

  /** Splitting a printed line gives its words back. */
  lemma {:induction false} SplitOfLine(ws: seq<string>, extra: seq<nat>, colon: bool)
    requires |ws| >= 1 && |extra| == |ws| - 1 && Printable(ws, colon)
    ensures Split(Line(ws, extra, colon)) == ws
    decreases |ws|
  {
    if |ws| == 1 {
      SplitLastWord(ws[0], colon);
    } else {
      SplitOfLine(ws[1..], extra[1..], colon);
      LineIsClean(ws[1..], extra[1..], colon);
      SplitFirstWord(Line(ws, extra, colon), ws[0], extra[0], Line(ws[1..], extra[1..], colon));
    }
  }

  /** No space and no colon in front: a word that ends at the first space. */
  predicate Bare(w: string) {
    ' ' !in w && (w == "" || w[0] != ':')
  }

  /** These words, in a line, can be told apart again. */
  ghost predicate Separable(ws: seq<string>, colon: bool) {
    && |ws| >= 1
    && (forall i :: 0 <= i < |ws| - 1 ==> Bare(ws[i]))
    && (forall i :: 0 < i < |ws| - 1 ==> ws[i] != "")
    && (!colon ==> Bare(ws[|ws| - 1]))
  }

  lemma OneMoreWord(word: string, ws: seq<string>, gap: nat, extra: seq<nat>, colon: bool)
    requires Separable(ws, colon) && Bare(word) && (|ws| == 1 || ws[0] != "") && |extra| == |ws| - 1
    ensures Separable([word] + ws, colon)
    ensures Line([word] + ws, [gap] + extra, colon) == word + " " + (Spaces(gap) + Line(ws, extra, colon))
  {
    var all := [word] + ws;
    assert all[1..] == ws && ([gap] + extra)[1..] == extra;
    assert forall i :: 0 < i < |all| ==> all[i] == ws[i - 1];
  }

  lemma SpacesDropped(s: string)
    ensures s == Spaces(|s| - |DropSpaces(s)|) + DropSpaces(s)
    ensures DropSpaces(s) != "" ==> DropSpaces(s)[0] != ' '
  {
  }

  lemma FirstWord(b: string)
    requires b != "" && b[0] != ' '
    ensures Split(b)[0] != "" || |Split(b)| == 1
  {
  }

  ghost predicate IsLineOf(b: string, ws: seq<string>, extra: seq<nat>, colon: bool) {
    |extra| == |ws| - 1 && Separable(ws, colon) && Line(ws, extra, colon) == b
  }

  lemma LastWord(b: string)
    requires FirstSpace(b) == |b| || (b != "" && b[0] == ':')
    ensures b != "" && b[0] == ':' ==> IsLineOf(b, Split(b), [], true)
    ensures !(b != "" && b[0] == ':') ==> IsLineOf(b, Split(b), [], false)
  {
  }

  lemma FirstWordOf(b: string, k: nat)
    requires (b == "" || b[0] != ':') && FirstSpace(b) == k < |b|
    ensures Split(b) == [b[..k]] + Split(DropSpaces(b[k + 1..])) && Bare(b[..k]) && b == b[..k] + " " + b[k + 1..]
  {
  }

  lemma WordBeforeRest(b: string, word: string, gap: nat, rest: string)
    requires (b == "" || b[0] != ':') && FirstSpace(b) == |word| < |b| && word == b[..|word|]
    requires rest == DropSpaces(b[|word| + 1..]) && gap == |b[|word| + 1..]| - |rest|
    ensures Split(b) == [word] + Split(rest) && Bare(word) && b == word + " " + (Spaces(gap) + rest)
    ensures |Split(rest)| == 1 || Split(rest)[0] != ""
  {
    FirstWordOf(b, |word|);
    SpacesDropped(b[|word| + 1..]);
    if rest == "" {
      assert Split(rest) == [""];
    } else {
      FirstWord(rest);
    }
  }

  /** Every body of a message is the line of its tokens, which can be told apart in it: nothing is lost or moved. */
  lemma {:induction false} LineOfSplit(b: string) returns (extra: seq<nat>, colon: bool)
    ensures IsLineOf(b, Split(b), extra, colon)
    decreases |b|
  {
    var k := FirstSpace(b);
    if k == |b| || (b != "" && b[0] == ':') {
      LastWord(b);
      extra, colon := [], b != "" && b[0] == ':';
    } else {
      var rest := DropSpaces(b[k + 1..]);
      var gap := |b[k + 1..]| - |rest|;
      WordBeforeRest(b, b[..k], gap, rest);
      extra, colon := LineOfSplit(rest);
      OneMoreWord(b[..k], Split(rest), gap, extra, colon);
      extra := [gap] + extra;
    }
  }

  // ---------------------------------------------------------------- the round trip

  /** Where the message in a buffer begins and ends, when a clean body stands in it. */
  lemma MessageOfBody(s: string, lead: nat, b: string, rest: string)
    requires s == Spaces(lead) + b + CRLF + rest
    requires b != "" && b[0] != ' ' && NUL !in b && NoCrlf(b)
    ensures SkipSpaces(s, 0) == lead && MessageEnd(s) == Some(lead + |b|) && s[lead..lead + |b|] == b
  {
    assert s == Spaces(lead) + (b + CRLF + rest);
    SkipLeadingSpaces(lead, b + CRLF + rest, 0);
    forall j | lead <= j < lead + |b|
      ensures s[j] != NUL && !CrlfAt(s, j)
    {
      assert s[j] == b[j - lead];
      assert CrlfAt(s, j) ==> CrlfAt(b, j - lead);
    }
    StrstrFinds(s, lead, lead + |b|);
  }

  lemma {:induction false} StrstrFinds(s: string, p: nat, end: nat)
    requires p <= end && CrlfAt(s, end)
    requires forall i :: p <= i < end ==> s[i] != NUL && !CrlfAt(s, i)
    ensures Strstr(s, p) == Some(end)
    decreases end - p
  {
    if p < end {
      StrstrFinds(s, p + 1, end);
    }
  }

  lemma TokensOfBody(s: string, lead: nat, b: string, rest: string, toks: seq<string>)
    requires s == Spaces(lead) + b + CRLF + rest
    requires b != "" && b[0] != ' ' && NUL !in b && NoCrlf(b) && Split(b) == toks
    ensures MessageTokens(s) == toks
  {
    MessageOfBody(s, lead, b, rest);
    MessageIsSplit(s, lead, lead + |b|, b);
  }

  /** The tokens of a printed line, whatever follows it in the buffer. */
  lemma TokensOfLine(s: string, lead: nat, ws: seq<string>, extra: seq<nat>, colon: bool, rest: string)
    requires |ws| >= 1 && |extra| == |ws| - 1 && Printable(ws, colon)
    requires s == Spaces(lead) + Line(ws, extra, colon) + CRLF + rest
    ensures MessageTokens(s) == ws
  {
    LineIsClean(ws, extra, colon);
    SplitOfLine(ws, extra, colon);
    TokensOfBody(s, lead, Line(ws, extra, colon), rest, ws);
  }

  /**
   Every well-formed command, printed in any of its layouts and parsed into a cleared
   struct, gives back its type and parameters with no error.
   */
  lemma PrintThenParse(c: Command, lead: nat, extra: seq<nat>, colon: bool, rest: string)
    requires WellFormed(c) && |extra| == |Words(c)| - 1 && Printable(Words(c), colon)
    ensures var toks := MessageTokens(Print(c, lead, extra, colon) + rest);
            ReadParse(ParseTokens(toks), toks) == Some(Meaning(c))
  {
    TokensOfLine(Print(c, lead, extra, colon) + rest, lead, Words(c), extra, colon, rest);
    ParseOfWords(c);
  }

  lemma NamesAreMiddle(t: MsgType)
    ensures Middle(NameOf(t))
  {
  }

  lemma PrintableWith(name: string, c: Command)
    requires WellFormed(c) && Middle(name)
    ensures Printable([name] + Params(c), true)
  {
    var ws := [name] + Params(c);
    assert ws[0] == name && forall i :: 1 <= i < |ws| ==> ws[i] == Params(c)[i - 1];
  }

  /** Every well-formed command has such a layout: the one with a colon before the last parameter. */
  lemma ColonPrintsAll(c: Command)
    requires WellFormed(c)
    ensures Printable(Words(c), true)
  {
    NamesAreMiddle(CommandType(c));
    PrintableWith(NameOf(CommandType(c)), c);
  }
}
