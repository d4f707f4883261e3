/**
 Runs of src/client.c:119-139 in which a handler sees what an earlier message of the same read
 left behind: a topic that nobody sent, and a nick that was too long.
 */
module StaleExamples {
  import opened Basics
  import opened Connections
  import opened Framing
  import opened Tokeniser
  import opened Parser
  import opened RoundTrip
  import opened EndToEnd
  import opened ClientReads
  import opened StructReuse
  import S = ServerState

  // ---------------------------------------------------------------- a topic that was not sent

  lemma CleanWords(a: string, b: string)
    requires Middle(a) && NoCrlf(b) && NUL !in b
    ensures NoCrlf(a + " " + b) && NUL !in a + " " + b
  {
    GapIsClean(0, b);
    assert Spaces(0) + b == b;
    NoCrlfConcat(a, " " + b);
    assert a + " " + b == a + (" " + b);
  }

  /** Three words in a message: the second begins at `j`, the third at `k`. */
  ghost predicate ThreeWordsAt(s: string, j: nat, k: nat, end: nat) {
    && 0 < j < k < end < |s|
    && s[0] != ':' && s[j] != ':' && s[k] != ':' && s[j] != ' ' && s[k] != ' '
    && s[j - 1] == ' ' && s[k - 1] == ' ' && s[end] == '\r'
    && (forall i :: 0 <= i < j - 1 ==> s[i] != ' ')
    && (forall i :: j <= i < k - 1 ==> s[i] != ' ')
    && (forall i :: k <= i < end ==> s[i] != ' ')
  }

  lemma BytesOfThree(s: string, a: string, b: string, c: string, rest: string)
    requires Middle(a) && Middle(b) && Middle(c) && s == a + " " + (b + " " + c) + CRLF + rest
    ensures ThreeWordsAt(s, |a| + 1, |a| + |b| + 2, |a| + |b| + |c| + 2)
  {
    assert forall i :: 0 <= i < |a| ==> s[i] == a[i];
    assert forall i :: |a| + 1 <= i < |a| + |b| + 1 ==> s[i] == b[i - |a| - 1];
    assert forall i :: |a| + |b| + 2 <= i < |a| + |b| + |c| + 2 ==> s[i] == c[i - |a| - |b| - 2];
  }

  lemma ThirdSpan(s: string, j: nat, k: nat, end: nat, spans: seq<Span>)
    requires ThreeWordsAt(s, j, k, end) && spans == Spans(s, 0, end)
    ensures |spans| == 3 && spans[2].start == k
  {
    NextSpan(s, 0, j - 1, end);
    NextSpan(s, j, k - 1, end);
    LastSpan(s, k, end);
  }

  predicate Clean(body: string) {
    body != "" && body[0] != ' ' && NUL !in body && NoCrlf(body)
  }

  lemma CleanThree(a: string, b: string, c: string)
    requires Middle(a) && Middle(b) && Middle(c)
    ensures Clean(a + " " + (b + " " + c))
  {
    CleanWords(b, c);
    CleanWords(a, b + " " + c);
  }

  lemma MessageAtStart(s: string, body: string, rest: string)
    requires Clean(body) && s == body + CRLF + rest
    ensures SkipSpaces(s, 0) == 0 && MessageEnd(s) == Some(|body|) && CrlfAt(s, |body|)
    ensures MessageSpans(s) == Spans(s, 0, |body|)
  {
    assert s == Spaces(0) + body + CRLF + rest;
    MessageOfBody(s, 0, body, rest);
  }

  /** Where the third of three words begins. */
  lemma SpansOfThree(s: string, a: string, b: string, c: string, rest: string)
    requires Middle(a) && Middle(b) && Middle(c) && s == a + " " + (b + " " + c) + CRLF + rest
    ensures |MessageSpans(s)| == 3 && MessageSpans(s)[2].start == |a| + |b| + 2
  {
    CleanThree(a, b, c);
    BytesOfThree(s, a, b, c, rest);
    ThirdOfBody(s, a + " " + (b + " " + c), rest, |a| + 1, |a| + |b| + 2);
  }

  lemma ThirdOfBody(s: string, body: string, rest: string, j: nat, k: nat)
    requires Clean(body) && s == body + CRLF + rest && ThreeWordsAt(s, j, k, |body|)
    ensures |MessageSpans(s)| == 3 && MessageSpans(s)[2].start == k
  {
    MessageAtStart(s, body, rest);
    ThirdSpan(s, j, k, |body|, MessageSpans(s));
  }

  ghost predicate TwoWordsAt(s: string, j: nat, end: nat) {
    && 0 < j < end < |s|
    && s[0] != ':' && s[j] != ':' && s[j] != ' ' && s[j - 1] == ' ' && s[end] == '\r'
    && (forall i :: 0 <= i < j - 1 ==> s[i] != ' ')
    && (forall i :: j <= i < end ==> s[i] != ' ')
  }

  lemma BytesOfTwo(s: string, a: string, b: string, rest: string)
    requires Middle(a) && Middle(b) && s == a + " " + b + CRLF + rest
    ensures TwoWordsAt(s, |a| + 1, |a| + |b| + 1)
  {
    assert forall i :: 0 <= i < |a| ==> s[i] == a[i];
    assert forall i :: |a| + 1 <= i < |a| + |b| + 1 ==> s[i] == b[i - |a| - 1];
  }

  lemma SecondSpan(s: string, j: nat, end: nat, spans: seq<Span>)
    requires TwoWordsAt(s, j, end) && spans == Spans(s, 0, end)
    ensures spans == [Span(0, j - 1), Span(j, end - j)]
  {
    NextSpan(s, 0, j - 1, end);
    LastSpan(s, j, end);
    assert [Span(0, j - 1)] + [Span(j, end - j)] == [Span(0, j - 1), Span(j, end - j)];
  }

  /** The two words of a message. */
  lemma SpansOfTwo(s: string, a: string, b: string, rest: string)
    requires Middle(a) && Middle(b) && s == a + " " + b + CRLF + rest
    ensures MessageSpans(s) == [Span(0, |a|), Span(|a| + 1, |b|)]
  {
    CleanWords(a, b);
    MessageAtStart(s, a + " " + b, rest);
    BytesOfTwo(s, a, b, rest);
    SecondSpan(s, |a| + 1, |a| + |b| + 1, MessageSpans(s));
  }

  lemma NextSpan(s: string, p: nat, k: nat, end: nat)
    requires p <= k < end < |s| && s[end] == '\r' && s[p] != ':' && s[k] == ' ' && s[k + 1] != ' '
    requires forall i :: p <= i < k ==> s[i] != ' '
    ensures Spans(s, p, end) == [Span(p, k - p)] + Spans(s, k + 1, end)
  {
    SpansUnfold(s, p, end);
    assert SpaceBefore(s, p, end) == k;
    assert SkipSpaces(s, k + 1) == k + 1;
  }

  lemma LastSpan(s: string, p: nat, end: nat)
    requires p <= end < |s| && s[end] == '\r' && s[p] != ':'
    requires forall i :: p <= i < end ==> s[i] != ' '
    ensures Spans(s, p, end) == [Span(p, end - p)]
  {
    SpansUnfold(s, p, end);
    assert SpaceBefore(s, p, end) == end;
  }

  lemma TwoWords(d: string, a: string, b: string)
    requires Middle(a) && Middle(b) && d == a + " " + b + CRLF && |d| <= MSG_SIZE
    ensures TokensIn(d) == [a, b]
  {
    var ws := [a, b];
    assert Spaces(0) + b == b && ws[1..] == [b];
    assert Line(ws, [0], false) == a + " " + b;
    assert InBuffer(d) == Spaces(0) + Line(ws, [0], false) + CRLF + Zeros(MSG_SIZE - |d|);
    TokensOfLine(InBuffer(d), 0, ws, [0], false, Zeros(MSG_SIZE - |d|));
  }

  lemma ThreeWords(d: string, a: string, b: string, c: string)
    requires Middle(a) && Middle(b) && Middle(c) && d == a + " " + (b + " " + c) + CRLF && |d| <= MSG_SIZE
    ensures TokensIn(d) == [a, b, c]
  {
    var ws := [a, b, c];
    assert Spaces(0) + c == c && [b, c][1..] == [c];
    assert Line([b, c], [0], false) == b + " " + c;
    assert Spaces(0) + (b + " " + c) == b + " " + c && ws[1..] == [b, c] && [0, 0][1..] == [0];
    assert Line(ws, [0, 0], false) == a + " " + (b + " " + c);
    assert InBuffer(d) == Spaces(0) + Line(ws, [0, 0], false) + CRLF + Zeros(MSG_SIZE - |d|);
    TokensOfLine(InBuffer(d), 0, ws, [0, 0], false, Zeros(MSG_SIZE - |d|));
  }

  lemma FrameStores(m: Fields, d: string, t: seq<string>, spans: seq<Span>)
    requires TokensIn(d) == t && MessageSpans(InBuffer(d)) == spans
    ensures ParseFrame(m, d).1 == StoreParse(m, ParseTokens(t), spans)
    ensures Seen(m, d) == MessageOfFields(StoreParse(m, ParseTokens(t), spans), ParsedBuffer(InBuffer(d)))
  {
  }

  lemma TextStored(t: seq<string>, spans: seq<Span>)
    requires |t| == |spans| == 3 && t[0] != "" && TypeOf(t[0]) == PRIVMSG && t[1] != ""
    ensures StoreParse(CLEARED, ParseTokens(t), spans).second == Some(spans[2].start)
  {
    assert ParseTokens(t) == Stores(PRIVMSG, Token(1), Token(2));
  }

  lemma TopicKept(m: Fields, t: seq<string>, spans: seq<Span>, buf: string)
    requires |t| == |spans| == 2 && t[0] != "" && TypeOf(t[0]) == TOPIC && t[1] != "" && m.second.Some?
    ensures MessageOfFields(StoreParse(m, ParseTokens(t), spans), buf)
         == S.TopicSet(TextAt(buf, spans[1].start), TextAt(S.LoweredAt(buf, spans[1].start), m.second.value))
  {
    assert ParseTokens(t) == Stores(TOPIC, Token(1), Kept);
  }

  lemma QuestionSays(t: seq<string>)
    requires |t| == 2 && t[0] != "" && TypeOf(t[0]) == TOPIC && t[1] != ""
    ensures MessageOfTokens(t) == S.TopicQuery(t[1])
  {
  }

  lemma WordsInBuffer(d: string, a: string, b: string)
    requires Middle(a) && Middle(b) && d == a + " " + b + CRLF && |d| <= MSG_SIZE
    ensures MessageSpans(InBuffer(d)) == [Span(0, |a|), Span(|a| + 1, |b|)]
  {
    InBufferIs(d);
    SpansOfTwo(InBuffer(d), a, b, Zeros(MSG_SIZE - |d|));
  }

  lemma TwoNuls(s: string, x: Span, y: Span)
    requires x.End() < |s| && y.End() < |s|
    ensures WithNuls(s, [x, y]) == s[x.End() := NUL][y.End() := NUL]
  {
    OneMoreNul(s, [], x);
    OneMoreNul(s, [x], y);
    assert [] + [x] == [x] && [x] + [y] == [x, y];
  }

  ghost function BehindName(rest: nat): string {
    [NUL] + (['\n'] + Zeros(rest))
  }

  /** The message buffer after a question of two words has been parsed. */
  ghost function AskedBuffer(a: string, b: string, rest: nat): string {
    (a + [NUL]) + b + BehindName(rest)
  }

  lemma BufferOfQuestion(ask: string, a: string, b: string)
    requires Middle(a) && Middle(b) && TypeOf(a) == TOPIC && ask == a + " " + b + CRLF && |ask| <= MSG_SIZE
    ensures ParsedBuffer(InBuffer(ask)) == AskedBuffer(a, b, MSG_SIZE - |ask|)
  {
    var s := InBuffer(ask);
    TwoWords(ask, a, b);
    WordsInBuffer(ask, a, b);
    UsesBoth([a, b]);
    assert MessageSpans(s)[..2] == [Span(0, |a|), Span(|a| + 1, |b|)];
    InBufferIs(ask);
    TwoNuls(s, Span(0, |a|), Span(|a| + 1, |b|));
    NulsInText(s, a, b, MSG_SIZE - |ask|);
  }

  lemma UsesBoth(t: seq<string>)
    requires |t| == 2 && t[0] != "" && TypeOf(t[0]) == TOPIC
    ensures TokensUsed(t) == 2
  {
  }

  lemma NulsInText(s: string, a: string, b: string, rest: nat)
    requires s == a + " " + b + CRLF + Zeros(rest)
    ensures s[|a| := NUL][|a| + |b| + 1 := NUL] == AskedBuffer(a, b, rest)
  {
  }

  lemma InBufferIs(d: string)
    requires |d| <= MSG_SIZE
    ensures InBuffer(d) == d + Zeros(MSG_SIZE - |d|)
  {
  }

  lemma SpanOfSaying(say: string, privmsg: string, channel: string, words: string)
    requires Middle(privmsg) && Middle(channel) && Middle(words)
    requires say == privmsg + " " + (channel + " " + words) + CRLF && |say| <= MSG_SIZE
    ensures |MessageSpans(InBuffer(say))| == 3 && MessageSpans(InBuffer(say))[2].start == |privmsg| + |channel| + 2
  {
    InBufferIs(say);
    SpansOfThree(InBuffer(say), privmsg, channel, words, Zeros(MSG_SIZE - |say|));
  }

  lemma PointerLeft(say: string, t: seq<string>, spans: seq<Span>, p: nat)
    requires TokensIn(say) == t && |t| == 3 && t[0] != "" && TypeOf(t[0]) == PRIVMSG && t[1] != ""
    requires MessageSpans(InBuffer(say)) == spans && |spans| == 3 && spans[2].start == p
    ensures ParseFrame(CLEARED, say).1.second == Some(p)
  {
    FrameStores(CLEARED, say, t, spans);
    TextStored(t, spans);
  }

  lemma QuestionSeen(m: Fields, ask: string, t: seq<string>, spans: seq<Span>, p: nat)
    requires TokensIn(ask) == t && |t| == 2 && t[0] != "" && TypeOf(t[0]) == TOPIC && t[1] != ""
    requires MessageSpans(InBuffer(ask)) == spans && |spans| == 2 && m.second == Some(p)
    ensures Seen(m, ask) == S.TopicSet(t[1], TextAt(S.LoweredAt(ParsedBuffer(InBuffer(ask)), spans[1].start), p))
  {
    FrameStores(m, ask, t, spans);
    TopicKept(m, t, spans, ParsedBuffer(InBuffer(ask)));
    TokenReads(InBuffer(ask), 1);
  }

  lemma LowerHasNoNul(b: string)
    requires NUL !in b
    ensures NUL !in S.Lower(b)
  {
    assert forall i :: 0 <= i < |b| ==> S.Lower(b)[i] == S.ToLower(b[i]) && b[i] != NUL;
  }

  lemma QuestionLowered(a: string, b: string, rest: nat)
    requires NUL !in a && NUL !in b
    ensures S.LoweredAt(AskedBuffer(a, b, rest), |a| + 1) == AskedBuffer(a, S.Lower(b), rest)
  {
    var buf := AskedBuffer(a, b, rest);
    TailReads(buf, a + [NUL], b, BehindName(rest), 0, |a| + 1);
    assert b[0..] == b;
    assert buf[..|a| + 1] == a + [NUL] && buf[|a| + 1 + |b|..] == BehindName(rest);
  }

  /** What a pointer into the question reads, `k` bytes behind the start of its second word. */
  function QuestionText(b: string, k: nat): string {
    if k <= |b| then b[k..] else if k == |b| + 1 then "\n" else ""
  }

  lemma TailIsPointedAt(buf: string, pre: string, b: string, post: string, k: nat)
    requires buf == pre + b + post && post != "" && post[0] == NUL && NUL !in b && k <= |b|
    ensures PointsTo(buf, |pre| + k, b[k..])
  {
    assert buf[|pre| + |b|] == post[0];
    assert buf[|pre|..|pre| + |b|] == b;
    assert buf[|pre| + k..|pre| + |b|] == b[k..];
  }

  lemma TailReads(buf: string, pre: string, b: string, post: string, k: nat, p: nat)
    requires buf == pre + b + post && post != "" && post[0] == NUL && NUL !in b && k <= |b| && p == |pre| + k
    ensures TextAt(buf, p) == b[k..]
  {
    TailIsPointedAt(buf, pre, b, post, k);
    TextAtPointer(buf, p, b[k..]);
  }

  lemma BehindNameBegins(rest: nat)
    ensures BehindName(rest) != "" && BehindName(rest)[0] == NUL
  {
  }

  lemma NameReads(buf: string, a: string, b: string, rest: nat, k: nat, p: nat)
    requires buf == AskedBuffer(a, b, rest) && NUL !in b && k <= |b| && p == |a| + 1 + k
    ensures TextAt(buf, p) == b[k..]
  {
    BehindNameBegins(rest);
    var pre, post := a + [NUL], BehindName(rest);
    assert |pre| == |a| + 1;
    TailReads(buf, pre, b, post, k, p);
  }

  lemma BehindNameReads(a: string, b: string, rest: nat, p: nat)
    requires |a| + |b| + 2 <= p < |a| + |b| + 3 + rest && rest > 0
    ensures TextAt(AskedBuffer(a, b, rest), p) == if p == |a| + |b| + 2 then "\n" else ""
  {
    var buf := AskedBuffer(a, b, rest);
    assert buf[|a| + |b| + 2] == '\n' && forall i :: |a| + |b| + 3 <= i < |buf| ==> buf[i] == NUL;
    if p == |a| + |b| + 2 {
      assert buf[p..p + 1] == "\n";
      TextAtPointer(buf, p, "\n");
    }
  }

  lemma QuestionReads(a: string, b: string, rest: nat, k: nat)
    requires NUL !in b && |a| + 1 + k < |a| + |b| + 3 + rest && rest > 0
    ensures TextAt(AskedBuffer(a, b, rest), |a| + 1 + k) == QuestionText(b, k)
  {
    if k <= |b| {
      NameReads(AskedBuffer(a, b, rest), a, b, rest, k, |a| + 1 + k);
    } else {
      BehindNameReads(a, b, rest, |a| + 1 + k);
    }
  }

  lemma QuestionAfter(m: Fields, ask: string, topic: string, channel: string, k: nat, p: nat)
    requires Middle(topic) && TypeOf(topic) == TOPIC && Middle(channel) && m.second == Some(p)
    requires ask == topic + " " + channel + CRLF && |ask| < MSG_SIZE && p == |topic| + 1 + k && p < MSG_SIZE
    ensures MessageOfTokens(TokensIn(ask)) == S.TopicQuery(channel)
    ensures Seen(m, ask) == S.TopicSet(channel, QuestionText(S.Lower(channel), k))
  {
    TwoWords(ask, topic, channel);
    WordsInBuffer(ask, topic, channel);
    QuestionSays([topic, channel]);
    QuestionSeen(m, ask, [topic, channel], MessageSpans(InBuffer(ask)), p);
    BufferOfQuestion(ask, topic, channel);
    QuestionLowered(topic, channel, MSG_SIZE - |ask|);
    LowerHasNoNul(channel);
    QuestionReads(topic, S.Lower(channel), MSG_SIZE - |ask|, k);
  }

  lemma SayingLeaves(say: string, privmsg: string, target: string, words: string, p: nat)
    requires Middle(privmsg) && TypeOf(privmsg) == PRIVMSG && Middle(target) && Middle(words)
    requires say == privmsg + " " + (target + " " + words) + CRLF && |say| <= MSG_SIZE
    requires p == |privmsg| + |target| + 2
    ensures ParseFrame(CLEARED, say).1.second == Some(p)
  {
    ThreeWords(say, privmsg, target, words);
    SpanOfSaying(say, privmsg, target, words);
    PointerLeft(say, [privmsg, target, words], MessageSpans(InBuffer(say)), p);
  }

  lemma NameLengths()
    ensures |NameOf(PRIVMSG)| == 7 && |NameOf(TOPIC)| == 5
  {
  }

  /**
   Saying something and then asking for a topic, in one read, sets the topic: to the lower-case
   end of the channel's name, to a line feed, or to nothing, as the pointer left behind falls
   in the name, just behind it or further on.
   */
  lemma StaleTopic(target: string, words: string, channel: string)
    requires Middle(target) && Middle(words) && |target| + |words| <= 500 && Middle(channel) && |channel| <= 500
    ensures var say, ask := NameOf(PRIVMSG) + " " + (target + " " + words) + CRLF, NameOf(TOPIC) + " " + channel + CRLF;
            && MessageOfTokens(TokensIn(ask)) == S.TopicQuery(channel)
            && Seen(ParseFrame(CLEARED, say).1, ask)
                 == S.TopicSet(channel, QuestionText(S.Lower(channel), |target| + 3))
  {
    TypesOfMiddleNames();
    TypesOfLastNames();
    NamesAreMiddle(PRIVMSG);
    NamesAreMiddle(TOPIC);
    var say := NameOf(PRIVMSG) + " " + (target + " " + words) + CRLF;
    NameLengths();
    SayingLeaves(say, NameOf(PRIVMSG), target, words, |target| + 9);
    QuestionAfter(ParseFrame(CLEARED, say).1, NameOf(TOPIC) + " " + channel + CRLF, NameOf(TOPIC), channel,
                  |target| + 3, |target| + 9);
  }

  /** Saying something to a channel and asking for its own topic erases the topic. */
  lemma OwnTopicErased(channel: string, words: string)
    requires Middle(channel) && Middle(words) && |channel| + |words| <= 500
    ensures var say, ask := NameOf(PRIVMSG) + " " + (channel + " " + words) + CRLF, NameOf(TOPIC) + " " + channel + CRLF;
            Seen(ParseFrame(CLEARED, say).1, ask) == S.TopicSet(channel, "")
  {
    StaleTopic(channel, words, channel);
  }

  /** The name has been put in lower case by the time the topic is read from it. */
  lemma TopicReadAfterLowering()
    ensures var say, ask := NameOf(PRIVMSG) + " " + ("a" + " " + "b") + CRLF, NameOf(TOPIC) + " " + "#CHANNEL" + CRLF;
            Seen(ParseFrame(CLEARED, say).1, ask) == S.TopicSet("#CHANNEL", "nnel")
  {
    ShortWords();
    StaleTopic("a", "b", "#CHANNEL");
    EndOfName();
  }

  lemma ShortWords()
    ensures Middle("a") && Middle("b") && Middle("#CHANNEL")
  {
  }

  lemma EndOfName()
    ensures QuestionText(S.Lower("#CHANNEL"), 4) == "nnel"
  {
    assert S.Lower("#CHANNEL") == "#channel";
  }

  // ---------------------------------------------------------------- a nick that was refused

  lemma NickStored(d: string, t: seq<string>, spans: seq<Span>, p: nat)
    requires TokensIn(d) == t && |t| == 2 && t[0] != "" && TypeOf(t[0]) == NICK && 1 <= |t[1]| <= NICK_MAX_SIZE
    requires MessageSpans(InBuffer(d)) == spans && |spans| == 2 && spans[1].start == p
    ensures ParseFrame(CLEARED, d).1.first == Some(p)
  {
    FrameStores(CLEARED, d, t, spans);
    assert ParseTokens(t) == Stores(NICK, Token(1), Kept);
  }

  lemma LongNickKept(m: Fields, t: seq<string>, spans: seq<Span>, buf: string)
    requires |t| == 2 && t[0] != "" && TypeOf(t[0]) == NICK && |t[1]| > NICK_MAX_SIZE && m.first.Some?
    ensures MessageOfFields(StoreParse(m, ParseTokens(t), spans), buf) == S.Nick(TextAt(buf, m.first.value))
  {
    assert ParseTokens(t) == Failed(NICK, ERR_ERRONEUSNICKNAME, Kept);
  }

  lemma LongNickSeen(m: Fields, d: string, t: seq<string>, spans: seq<Span>, p: nat)
    requires TokensIn(d) == t && |t| == 2 && t[0] != "" && TypeOf(t[0]) == NICK && |t[1]| > NICK_MAX_SIZE
    requires MessageSpans(InBuffer(d)) == spans && |spans| == 2 && spans[1].start == p && m.first == Some(p)
    ensures Seen(m, d) == S.Nick(t[1])
  {
    FrameStores(m, d, t, spans);
    LongNickKept(m, t, spans, ParsedBuffer(InBuffer(d)));
    TokenReads(InBuffer(d), 1);
  }

  lemma SecondNickSeen(name: string, short: string, long: string, first: string, second: string)
    requires Middle(name) && TypeOf(name) == NICK && Middle(short) && Middle(long)
    requires |short| <= NICK_MAX_SIZE < |long| <= MSG_SIZE - |name| - 3
    requires first == name + " " + short + CRLF && second == name + " " + long + CRLF
    ensures Seen(ParseFrame(CLEARED, first).1, second) == S.Nick(long)
  {
    TwoWords(first, name, short);
    TwoWords(second, name, long);
    WordsInBuffer(first, name, short);
    WordsInBuffer(second, name, long);
    NickStored(first, [name, short], MessageSpans(InBuffer(first)), |name| + 1);
    LongNickSeen(ParseFrame(CLEARED, first).1, second, [name, long], MessageSpans(InBuffer(second)), |name| + 1);
  }

  /**
   Two NICKs in one read, the second too long: the handler is given the long nick all the
   same, through the pointer that the first one left.
   */
  lemma LongNickTaken(short: string, long: string)
    requires Middle(short) && Middle(long) && |short| <= NICK_MAX_SIZE < |long| <= 500
    ensures var first, second := NameOf(NICK) + " " + short + CRLF, NameOf(NICK) + " " + long + CRLF;
            Seen(ParseFrame(CLEARED, first).1, second) == S.Nick(long)
  {
    TypesOfFirstNames();
    NamesAreMiddle(NICK);
    SecondNickSeen(NameOf(NICK), short, long, NameOf(NICK) + " " + short + CRLF, NameOf(NICK) + " " + long + CRLF);
  }
}
