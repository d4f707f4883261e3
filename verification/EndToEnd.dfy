/**
 From the bytes of a client to parsed commands: framing, tokenising and parsing together
 (src/read_message.c, src/msgtok.c, src/parser.c). Whatever way a stream of printed commands
 is cut into reads, the parser finds exactly the words of those commands, in order.
 */
module EndToEnd {
  import opened Basics
  import opened Framing
  import opened Connections
  import opened Streams
  import opened Tokeniser
  import opened Parser
  import opened RoundTrip

  /** A printed command. */
  datatype Sent = Sent(command: Command, lead: nat, extra: seq<nat>, colon: bool) {
    ghost predicate Valid() {
      && WellFormed(command)
      && |extra| == |Words(command)| - 1
      && Printable(Words(command), colon)
      && |Bytes()| <= MSG_SIZE
    }

    function Bytes(): string {
      if |extra| == |Words(command)| - 1 then Print(command, lead, extra, colon) else ""
    }
  }

  ghost predicate AllValid(cs: seq<Sent>) {
    forall i :: 0 <= i < |cs| ==> cs[i].Valid()
  }

  ghost function SentLines(cs: seq<Sent>): (ls: seq<string>)
    ensures |ls| == |cs|
  {
    seq(|cs|, i requires 0 <= i < |cs| => cs[i].Bytes())
  }

  ghost function SentWords(cs: seq<Sent>): (ws: seq<seq<string>>)
    ensures |ws| == |cs|
  {
    seq(|cs|, i requires 0 <= i < |cs| => Words(cs[i].command))
  }

  // ---------------------------------------------------------------- streams of lines

  /** One line within the limit, with no CR LF but its own, and not empty. */
  ghost predicate IsLine(l: string) {
    HasCrlf(l) && FirstCrlf(l) == |l| - 2 && l != CRLF && |l| <= MSG_SIZE
  }

  lemma {:induction false} LinesOfFlat(ls: seq<string>)
    requires forall i :: 0 <= i < |ls| ==> IsLine(ls[i])
    ensures Lines(Flat(ls)) == ls && Rest(Flat(ls)) == ""
  {
    if ls == [] {
      assert FirstCrlf("") == 0;
    } else {
      LinesOfFlat(ls[1..]);
      assert IsLine(ls[0]);
      LinesStep(Flat(ls), ls[0], Flat(ls[1..]));
    }
  }

  lemma FlatIsGood(ls: seq<string>)
    requires forall i :: 0 <= i < |ls| ==> IsLine(ls[i])
    ensures Good(Flat(ls))
  {
    LinesOfFlat(ls);
  }

  lemma {:induction false} NonBareKeeps(ls: seq<string>)
    requires forall i :: 0 <= i < |ls| ==> ls[i] != CRLF
    ensures NonBare(ls) == ls
  {
    if ls != [] {
      NonBareKeeps(ls[1..]);
    }
  }

  lemma FramesOfFlat(ls: seq<string>, chunks: seq<string>)
    requires forall i :: 0 <= i < |ls| ==> IsLine(ls[i])
    requires Received(chunks) == Flat(ls) && FitStore(chunks)
    ensures NonBare(Delivered(ReadRun(chunks).0)) == ls
    ensures ReadRun(chunks).1 == ""
  {
    FlatIsGood(ls);
    LinesOfFlat(ls);
    ReadsDeliverLinesIff(chunks);
    NonBareKeeps(ls);
  }

  // ---------------------------------------------------------------- what the parser finds

  /** The message buffer that holds a delivered frame. */
  ghost function InBuffer(d: string): string {
    if |d| <= MSG_SIZE then Padded(d) else d
  }

  ghost function TokensIn(d: string): seq<string> {
    MessageTokens(InBuffer(d))
  }

  /** The frames that parse_message does not reject. */
  ghost predicate Accepts(d: string) {
    !Missing(TokensIn(d), 0)
  }

  /** The tokens of the frames that are accepted. */
  ghost function TokenLists(ds: seq<string>): seq<seq<string>> {
    if ds == [] then []
    else if Accepts(ds[0]) then [TokensIn(ds[0])] + TokenLists(ds[1..])
    else TokenLists(ds[1..])
  }

  lemma BareFrameIsRejected()
    ensures !Accepts(CRLF)
  {
    BareCrlfRejected(Zeros(MSG_SIZE - 2));
  }

  lemma {:induction false} BareFramesDoNotCount(ds: seq<string>)
    ensures TokenLists(NonBare(ds)) == TokenLists(ds)
  {
    if ds != [] {
      BareFramesDoNotCount(ds[1..]);
      if ds[0] == CRLF {
        BareFrameIsRejected();
      } else {
        assert ([ds[0]] + NonBare(ds[1..]))[1..] == NonBare(ds[1..]);
      }
    }
  }

  lemma {:induction false} TokensOfLines(ls: seq<string>, ws: seq<seq<string>>)
    requires |ws| == |ls|
    requires forall i :: 0 <= i < |ls| ==> TokensIn(ls[i]) == ws[i] && !Missing(ws[i], 0)
    ensures TokenLists(ls) == ws
  {
    if ls != [] {
      TokensOfLines(ls[1..], ws[1..]);
      assert TokensIn(ls[0]) == ws[0];
      assert ws == [ws[0]] + ws[1..];
    }
  }

  lemma SentIsLine(c: Sent)
    requires c.Valid()
    ensures IsLine(c.Bytes())
  {
    LineIsClean(Words(c.command), c.extra, c.colon);
    CleanIsLine(c.Bytes(), c.lead, Line(Words(c.command), c.extra, c.colon));
  }

  lemma CleanIsLine(s: string, lead: nat, b: string)
    requires s == Spaces(lead) + b + CRLF && b != "" && NoCrlf(b) && |s| <= MSG_SIZE
    ensures IsLine(s)
  {
    forall j | 0 <= j < |s| - 2
      ensures !CrlfAt(s, j)
    {
      assert CrlfAt(s, j) ==> CrlfAt(b, j - lead);
    }
    assert CrlfAt(s, |s| - 2);
    FirstCrlfUnique(s, |s| - 2);
  }

  lemma TokensOfSent(c: Sent)
    requires c.Valid()
    ensures TokensIn(c.Bytes()) == Words(c.command) && !Missing(Words(c.command), 0)
  {
    var padding := Zeros(MSG_SIZE - |c.Bytes()|);
    NamesAreMiddle(CommandType(c.command));
    TokensOfLine(InBuffer(c.Bytes()), c.lead, Words(c.command), c.extra, c.colon, padding);
  }

  /**
   For every list of well-formed commands, every layout of each within 512 bytes, and every
   way of cutting their bytes into reads that fit the store, the messages that parse_message
   accepts consist of exactly the words of those commands, in order, and nothing is left.
   */
  lemma CommandsArrive(cs: seq<Sent>, chunks: seq<string>)
    requires AllValid(cs) && Received(chunks) == Flat(SentLines(cs)) && FitStore(chunks)
    ensures TokenLists(Delivered(ReadRun(chunks).0)) == SentWords(cs)
    ensures NonBare(Delivered(ReadRun(chunks).0)) == SentLines(cs)
    ensures ReadRun(chunks).1 == ""
  {
    var ls, ws := SentLines(cs), SentWords(cs);
    forall i | 0 <= i < |cs|
      ensures IsLine(ls[i]) && TokensIn(ls[i]) == ws[i] && !Missing(ws[i], 0)
    {
      SentIsLine(cs[i]);
      TokensOfSent(cs[i]);
    }
    LinesArrive(ls, ws, chunks);
  }

  /** The same for any lines, whatever their tokens. */
  lemma LinesArrive(ls: seq<string>, ws: seq<seq<string>>, chunks: seq<string>)
    requires |ws| == |ls|
    requires forall i :: 0 <= i < |ls| ==> IsLine(ls[i]) && TokensIn(ls[i]) == ws[i] && !Missing(ws[i], 0)
    requires Received(chunks) == Flat(ls) && FitStore(chunks)
    ensures TokenLists(Delivered(ReadRun(chunks).0)) == ws
    ensures NonBare(Delivered(ReadRun(chunks).0)) == ls
    ensures ReadRun(chunks).1 == ""
  {
    FramesOfFlat(ls, chunks);
    BareFramesDoNotCount(Delivered(ReadRun(chunks).0));
    TokensOfLines(ls, ws);
  }

  // ---------------------------------------------------------------- staying inside the frame

  /** Every frame delivered, even with NULs inside, stops the parser's scans by its own CR LF, in any buffer. */
  lemma FramesAreTerminated(s: string)
    requires TakeFrame(s).Some? && |s| <= MSG_SIZE
    ensures |TakeFrame(s).value.Delivered()| <= MSG_SIZE
    ensures Terminated(TakeFrame(s).value.Delivered(), 0)
    ensures Terminated(Padded(TakeFrame(s).value.Delivered()), 0)
  {
    DeliveredShape(s);
    var d := TakeFrame(s).value.Delivered();
    var c := FirstCrlf(d);
    assert CrlfAt(d, c);
    assert StopsAt(d, c) && StopsAt(Padded(d), c);
  }

  lemma EndInsideFrame(d: string, b: string, end: nat)
    requires 2 <= |d| <= |b| && b[..|d|] == d && FirstCrlf(d) == |d| - 2
    requires MessageEnd(b) == Some(end)
    requires forall i :: |d| <= i < |b| ==> b[i] == NUL
    ensures end <= |d| - 2
  {
    assert CrlfAt(d, |d| - 2) && b[|d| - 2] == '\r' && b[|d| - 1] == '\n';
    assert CrlfAt(b, end);
  }

  /** Every token of a delivered frame is a slice of the frame before its CR LF. */
  lemma TokensInsideFrame(d: string, k: nat)
    requires 2 <= |d| <= MSG_SIZE && FirstCrlf(d) == |d| - 2
    requires k < |MessageSpans(Padded(d))|
    ensures var span := MessageSpans(Padded(d))[k];
            span.End() <= |d| - 2 && MessageTokens(Padded(d))[k] == d[span.start..span.End()]
  {
    PaddedStartsWith(d);
    TokenInsideFrame(d, Padded(d), MessageSpans(Padded(d)), k);
  }

  lemma PaddedStartsWith(d: string)
    requires |d| <= MSG_SIZE
    ensures |Padded(d)| == MSG_SIZE && Padded(d)[..|d|] == d
    ensures forall i :: |d| <= i < MSG_SIZE ==> Padded(d)[i] == NUL
  {
  }

  lemma TokenInsideFrame(d: string, b: string, spans: seq<Span>, k: nat)
    requires 2 <= |d| <= |b| && b[..|d|] == d && FirstCrlf(d) == |d| - 2
    requires forall i :: |d| <= i < |b| ==> b[i] == NUL
    requires spans == MessageSpans(b) && k < |spans|
    ensures spans[k].End() <= |d| - 2 && MessageTokens(b)[k] == d[spans[k].start..spans[k].End()]
  {
    EndInsideFrame(d, b, MessageEnd(b).value);
    MessageInOrder(b);
    TokenIsSlice(b, k);
    SliceOfPrefix(d, b, spans[k].start, spans[k].End());
  }

  lemma SliceOfPrefix(d: string, b: string, from: nat, to: nat)
    requires from <= to <= |d| <= |b| && b[..|d|] == d
    ensures b[from..to] == d[from..to]
  {
    assert b[..|d|][from..to] == b[from..to];
  }
}
