/**
 The destructive tokeniser of src/msgtok.c. Pointers into the buffer are indices; NULL is
 None. The buffer is split at spaces up to its first CR LF, each separator that ends a token
 is overwritten with NUL, and a token that starts with a colon runs to the CR LF.
 */
module Tokeniser {
  import opened Basics
  import opened Framing

  /** A token as a slice of the buffer. */
  datatype Span = Span(start: nat, len: nat) {
    function End(): nat { start + len }
  }

  // ---------------------------------------------------------------- scanning

  predicate StopsAt(s: string, i: nat) {
    i < |s| && (s[i] == NUL || CrlfAt(s, i))
  }

  /** A scan for CR LF that starts at `p` and gives up at a NUL stays inside the buffer. */
  ghost predicate Terminated(s: string, p: nat) {
    exists i :: p <= i < |s| && StopsAt(s, i)
  }

  /** strstr(str, "\r\n"): the first CR LF at or after `p`, unless a NUL comes first. */
  function Strstr(s: string, p: nat): (r: Option<nat>)
    ensures r.Some? ==> p <= r.value && CrlfAt(s, r.value)
    ensures r.Some? ==> forall i :: p <= i < r.value ==> s[i] != NUL && !CrlfAt(s, i)
    decreases |s| - p
  {
    if p >= |s| || s[p] == NUL then None
    else if CrlfAt(s, p) then Some(p)
    else Strstr(s, p + 1)
  }

  /** The end of the run of spaces that starts at `p`. */
  function SkipSpaces(s: string, p: nat): (r: nat)
    requires p <= |s|
    ensures p <= r <= |s| && (r < |s| ==> s[r] != ' ')
    ensures forall i :: p <= i < r ==> s[i] == ' '
    decreases |s| - p
  {
    if p < |s| && s[p] == ' ' then SkipSpaces(s, p + 1) else p
  }

  /** The first space in s[p..end], or `end`. */
  function SpaceBefore(s: string, p: nat, end: nat): (r: nat)
    requires p <= end <= |s|
    ensures p <= r <= end && (r < end ==> s[r] == ' ')
    ensures forall i :: p <= i < r ==> s[i] != ' '
    decreases end - p
  {
    if p == end || s[p] == ' ' then p else SpaceBefore(s, p + 1, end)
  }

  /** The token at `p`, and where the next one starts. */
  function TokenAt(s: string, p: nat, end: nat): (r: (Span, Option<nat>))
    requires p <= end < |s| && s[end] == '\r'
    ensures p <= r.0.start && r.0.End() <= end
    ensures r.1.Some? ==> r.0.End() < r.1.value <= end
    ensures r.1.Some? ==> s[r.0.End()] == ' '
    ensures r.1.None? ==> r.0.End() == end
  {
    if s[p] == ':' then (Span(p + 1, end - p - 1), None)
    else
      var k := SpaceBefore(s, p, end);
      if k == end then (Span(p, end - p), None)
      else
        SkipStopsBefore(s, k + 1, end);
        (Span(p, k - p), Some(SkipSpaces(s, k + 1)))
  }

  lemma SkipStopsBefore(s: string, p: nat, end: nat)
    requires p <= end < |s| && s[end] != ' '
    ensures SkipSpaces(s, p) <= end
  {
  }

  /** All tokens from `p` on, as slices of the original bytes. */
  function Spans(s: string, p: nat, end: nat): (spans: seq<Span>)
    requires p <= end < |s| && s[end] == '\r'
    ensures |spans| >= 1
    decreases end - p
  {
    var (span, next) := TokenAt(s, p, end);
    match next
    case None => [span]
    case Some(q) => [span] + Spans(s, q, end)
  }

  /** The tokens still to come, given the saved pointer. */
  function Remaining(s: string, save: Option<nat>, end: nat): seq<Span>
    requires end < |s| && s[end] == '\r' && (save.Some? ==> save.value <= end)
  {
    match save
    case None => []
    case Some(p) => Spans(s, p, end)
  }

  // ---------------------------------------------------------------- where the NULs go

  function WithNuls(s: string, spans: seq<Span>): (r: string)
    ensures |r| == |s|
  {
    if spans == [] then s
    else
      var r := WithNuls(s, spans[..|spans| - 1]);
      var e := spans[|spans| - 1].End();
      if e < |r| then r[e := NUL] else r
  }

  lemma {:induction false} WithNulsAt(s: string, spans: seq<Span>, i: nat)
    requires i < |s|
    ensures WithNuls(s, spans)[i] == if exists k :: 0 <= k < |spans| && spans[k].End() == i then NUL else s[i]
  {
    if spans != [] {
      WithNulsAt(s, spans[..|spans| - 1], i);
    }
  }

  ghost predicate InOrder(spans: seq<Span>, from: int, end: int) {
    && (forall k :: 0 <= k < |spans| ==> from <= spans[k].start && spans[k].End() <= end)
    && (forall j, k :: 0 <= j < k < |spans| ==> spans[j].End() < spans[k].start)
  }

  /** Tokens are disjoint slices in increasing order, each ended by a space or the CR LF. */
  lemma {:induction false} SpansInOrder(s: string, p: nat, end: nat)
    requires p <= end < |s| && s[end] == '\r'
    ensures InOrder(Spans(s, p, end), p, end)
    ensures forall k :: 0 <= k < |Spans(s, p, end)| ==>
              (if k == |Spans(s, p, end)| - 1 then Spans(s, p, end)[k].End() == end
               else s[Spans(s, p, end)[k].End()] == ' ')
    decreases end - p
  {
    var (span, next) := TokenAt(s, p, end);
    if next.Some? {
      SpansInOrder(s, next.value, end);
    }
  }

  function Text(s: string, span: Span): string {
    if span.End() <= |s| then s[span.start..span.End()] else ""
  }

  /** Writing the NULs changes no byte of any token, and leaves each a C string. */
  lemma TokensSurvive(s: string, spans: seq<Span>, done: seq<Span>, k: nat)
    requires done <= spans && InOrder(spans, 0, |s| - 1) && k < |spans|
    ensures Text(WithNuls(s, done), spans[k]) == Text(s, spans[k])
    ensures k < |done| ==> WithNuls(s, done)[spans[k].End()] == NUL
  {
    forall i | spans[k].start <= i < spans[k].End()
      ensures WithNuls(s, done)[i] == s[i]
    {
      WithNulsAt(s, done, i);
      forall j | 0 <= j < |done|
        ensures done[j].End() != i
      {
        assert done[j] == spans[j];
      }
    }
    WithNulsAt(s, done, spans[k].End());
    if k < |done| {
      assert done[k] == spans[k];
    }
  }

  // ---------------------------------------------------------------- a pure splitter

  function FirstSpace(b: string): nat {
    SpaceBefore(b, 0, |b|)
  }

  function DropSpaces(b: string): (r: string)
    ensures |r| <= |b|
  {
    b[SkipSpaces(b, 0)..]
  }

  /** The tokens of a message body, the bytes before its CR LF. */
  function Split(b: string): (toks: seq<string>)
    ensures |toks| >= 1
    decreases |b|
  {
    if b != "" && b[0] == ':' then [b[1..]]
    else
      var k := FirstSpace(b);
      if k == |b| then [b] else [b[..k]] + Split(DropSpaces(b[k + 1..]))
  }

  function Texts(s: string, spans: seq<Span>): (toks: seq<string>)
    ensures |toks| == |spans|
    ensures forall k :: 0 <= k < |spans| ==> toks[k] == Text(s, spans[k])
  {
    seq(|spans|, k requires 0 <= k < |spans| => Text(s, spans[k]))
  }

  lemma {:induction false} SkipSpacesInSlice(s: string, p: nat, q: nat, end: nat)
    requires p <= q <= end < |s| && s[end] != ' '
    ensures SkipSpaces(s[p..end], q - p) == SkipSpaces(s, q) - p
    decreases end - q
  {
    if q < end && s[q] == ' ' {
      SkipSpacesInSlice(s, p, q + 1, end);
    }
  }

  lemma DropSpacesOfSlice(s: string, k: nat, end: nat)
    requires k <= end < |s| && s[end] != ' '
    ensures SkipSpaces(s, k) <= end && DropSpaces(s[k..end]) == s[SkipSpaces(s, k)..end]
  {
    SkipSpacesInSlice(s, k, k, end);
    SkipStopsBefore(s, k, end);
  }

  /** Splitting off a token that ends at a space. */
  lemma SplitAtSpace(b: string, word: string, tail: string, rest: string)
    requires b == word + " " + tail && rest == DropSpaces(tail)
    requires ' ' !in word && (word == "" || word[0] != ':')
    ensures Split(b) == [word] + Split(rest)
  {
    var k := FirstSpace(b);
    assert b[|word|] == ' ';
    assert k == |word|;
    assert b[..k] == word;
    assert b[k + 1..] == tail;
  }

  lemma SplitTrailing(b: string)
    requires b != "" && b[0] == ':'
    ensures Split(b) == [b[1..]]
  {
  }

  lemma SplitLast(b: string)
    requires ' ' !in b && (b == "" || b[0] != ':')
    ensures Split(b) == [b]
  {
    assert FirstSpace(b) == |b|;
  }

  lemma TextsStep(s: string, spans: seq<Span>, span: Span, later: seq<Span>, word: string)
    requires spans == [span] + later && span.End() <= |s| && word == s[span.start..span.End()]
    ensures Texts(s, spans) == [word] + Texts(s, later)
  {
  }

  lemma OnlyText(s: string, span: Span, text: string)
    requires span.End() <= |s| && text == s[span.start..span.End()]
    ensures Texts(s, [span]) == [text]
  {
  }

  lemma SpansUnfold(s: string, p: nat, end: nat)
    requires p <= end < |s| && s[end] == '\r'
    ensures s[p] == ':' ==> Spans(s, p, end) == [Span(p + 1, end - p - 1)]
    ensures s[p] != ':' ==>
              var k := SpaceBefore(s, p, end);
              if k == end then Spans(s, p, end) == [Span(p, end - p)]
              else
                var q := SkipSpaces(s, k + 1);
                q <= end && Spans(s, p, end) == [Span(p, k - p)] + Spans(s, q, end)
  {
  }

  lemma SplitAtTrailing(s: string, p: nat, end: nat, b: string)
    requires p < end < |s| && s[end] == '\r' && b == s[p..end] && s[p] == ':'
    ensures Texts(s, Spans(s, p, end)) == Split(b)
  {
    SpansUnfold(s, p, end);
    SplitTrailing(b);
    OnlyText(s, Span(p + 1, end - p - 1), b[1..]);
  }

  lemma SplitAtLast(s: string, p: nat, end: nat, b: string)
    requires p <= end < |s| && s[end] == '\r' && b == s[p..end] && s[p] != ':'
    requires SpaceBefore(s, p, end) == end
    ensures Texts(s, Spans(s, p, end)) == Split(b)
  {
    SpansUnfold(s, p, end);
    SplitLast(b);
    OnlyText(s, Span(p, end - p), b);
  }

  lemma CutAtSpace(s: string, p: nat, k: nat, end: nat)
    requires p <= k < end <= |s| && k == SpaceBefore(s, p, end)
    ensures s[p..end] == s[p..k] + " " + s[k + 1..end]
    ensures ' ' !in s[p..k]
    ensures s[p..k] != "" ==> s[p..k][0] == s[p]
  {
  }

  lemma SplitInside(s: string, p: nat, end: nat, k: nat)
    requires p <= k < end < |s| && s[end] == '\r' && s[p] != ':' && k == SpaceBefore(s, p, end)
    ensures SkipSpaces(s, k + 1) <= end
    ensures Split(s[p..end]) == [s[p..k]] + Split(s[SkipSpaces(s, k + 1)..end])
  {
    CutAtSpace(s, p, k, end);
    DropSpacesOfSlice(s, k + 1, end);
    SplitAtSpace(s[p..end], s[p..k], s[k + 1..end], s[SkipSpaces(s, k + 1)..end]);
  }

  /** The slices hold exactly the tokens that the pure splitter finds in the body. */
  lemma {:induction false} SpansAreSplit(s: string, p: nat, end: nat, b: string)
    requires p <= end < |s| && s[end] == '\r' && b == s[p..end]
    ensures Texts(s, Spans(s, p, end)) == Split(b)
    decreases end - p
  {
    var k := SpaceBefore(s, p, end);
    if s[p] == ':' {
      SplitAtTrailing(s, p, end, b);
    } else if k == end {
      SplitAtLast(s, p, end, b);
    } else {
      SpansUnfold(s, p, end);
      TextsStep(s, Spans(s, p, end), Span(p, k - p), Spans(s, SkipSpaces(s, k + 1), end), s[p..k]);
      SplitInside(s, p, end, k);
      var q := SkipSpaces(s, k + 1);
      SpansAreSplit(s, q, end, s[q..end]);
    }
  }

  // ---------------------------------------------------------------- one call

  /** A scan that starts at or after `p` sees only bytes from `p` on. */
  lemma {:induction false} StrstrFromHere(s: string, t: string, p: nat, q: nat)
    requires |s| == |t| && p <= q <= |s| && forall i :: p <= i < |s| ==> s[i] == t[i]
    ensures Strstr(s, q) == Strstr(t, q)
    decreases |s| - q
  {
    if q < |s| {
      StrstrFromHere(s, t, p, q + 1);
    }
  }

  /** After a CR LF is found with no NUL before it, later scans find the same one. */
  lemma {:induction false} StrstrStays(s: string, p: nat, q: nat, end: nat)
    requires Strstr(s, p) == Some(end) && p <= q <= end
    ensures Strstr(s, q) == Some(end)
    decreases q - p
  {
    if p < q {
      StrstrStays(s, p + 1, q, end);
    }
  }

  method FindCrlf(buf: array<char>, p: nat) returns (end: Option<nat>)
    requires Terminated(buf[..], p)
    ensures end == Strstr(buf[..], p)
  {
    ghost var s := buf[..];
    ghost var stop :| p <= stop < |s| && StopsAt(s, stop);
    var i := p;
    while buf[i] != NUL
      invariant p <= i <= stop
      invariant Strstr(s, i) == Strstr(s, p)
      decreases stop - i
    {
      if buf[i] == '\r' && buf[i + 1] == '\n' {
        return Some(i);
      }
      i := i + 1;
    }
    return None;
  }

  /** while (*p == ' ') p++ */
  method SkipSpacesIn(buf: array<char>, p: nat) returns (q: nat)
    requires exists stop :: p <= stop < buf.Length && buf[stop] != ' '
    ensures q == SkipSpaces(buf[..], p) < buf.Length
  {
    ghost var stop :| p <= stop < buf.Length && buf[stop] != ' ';
    q := p;
    while buf[q] == ' '
      invariant p <= q <= stop
      invariant SkipSpaces(buf[..], q) == SkipSpaces(buf[..], p)
      decreases stop - q
    {
      q := q + 1;
    }
  }

  /** The scan for the space that ends a token. */
  method FindSpace(buf: array<char>, p: nat, end: nat) returns (k: nat)
    requires p <= end < buf.Length && forall i :: p <= i < end ==> buf[i] != NUL
    ensures k == SpaceBefore(buf[..], p, end)
  {
    k := p;
    while buf[k] != NUL && k != end
      invariant p <= k <= end
      invariant SpaceBefore(buf[..], k, end) == SpaceBefore(buf[..], p, end)
      decreases end - k
    {
      if buf[k] == ' ' {
        return;
      }
      k := k + 1;
    }
    return end;
  }

  lemma TerminatedPastSpaces(s: string, p: nat)
    requires Terminated(s, p)
    ensures exists stop :: p <= stop < |s| && s[stop] != ' '
    ensures Terminated(s, SkipSpaces(s, p))
  {
    var stop :| p <= stop < |s| && StopsAt(s, stop);
    assert s[stop] != ' ';
  }

  /** The part of msgtok_r after the CR LF has been found. */
  method TakeToken(buf: array<char>, p: nat, end: nat)
    returns (tok: nat, toklen: nat, save: Option<nat>)
    requires Strstr(buf[..], p) == Some(end)
    modifies buf
    ensures var (span, next) := TokenAt(old(buf[..]), p, end);
            tok == span.start && toklen == span.len && save == next
            && buf[..] == old(buf[..])[span.End() := NUL]
  {
    if buf[p] == ':' {
      buf[end] := NUL;
      return p + 1, end - (p + 1), None;
    }
    var k := FindSpace(buf, p, end);
    assert k == SpaceBefore(buf[..], p, end);
    if k != end {
      save := SkipAfter(buf, k, end);
      return p, k - p, save;
    }
    buf[end] := NUL;
    return p, end - p, None;
  }

  /** What a call returns when it scans from `p`. */
  ghost predicate Returns(s: string, p: nat, tok: Option<nat>, toklen: nat, save: Option<nat>, save': Option<nat>,
                          t: string)
  {
    match Strstr(s, p)
    case None => tok.None? && toklen == 0 && save' == save && t == s
    case Some(end) =>
      var (span, next) := TokenAt(s, p, end);
      tok == Some(span.start) && toklen == span.len && save' == next && t == s[span.End() := NUL]
  }

  /**
   msgtok_r. A first call passes the message in `str`; later calls pass NULL and the saved
   pointer. The end of the token is overwritten with NUL.
   */
  method MsgtokR(buf: array<char>, str: Option<nat>, save: Option<nat>)
    returns (tok: Option<nat>, toklen: nat, save': Option<nat>)
    requires str.Some? ==> str.value <= buf.Length && Terminated(buf[..], str.value)
    requires str.None? && save.Some? ==> Terminated(buf[..], save.value)
    modifies buf
    ensures str.None? && save.None? ==>
              tok.None? && toklen == 0 && save' == save && buf[..] == old(buf[..])
    ensures str.None? && save.Some? ==>
              Returns(old(buf[..]), save.value, tok, toklen, save, save', buf[..])
    ensures str.Some? ==>
              Returns(old(buf[..]), SkipSpaces(old(buf[..]), str.value), tok, toklen, save, save', buf[..])
  {
    var p;
    if str.None? {
      if save.None? {
        return None, 0, save;
      }
      p := save.value;
    } else {
      TerminatedPastSpaces(buf[..], str.value);
      p := SkipSpacesIn(buf, str.value);
    }
    var end := FindCrlf(buf, p);
    if end.None? {
      return None, 0, save;
    }
    var t, n, next := TakeToken(buf, p, end.value);
    return Some(t), n, next;
  }

  /** Ends a token at the space `k` and finds where the next one starts. */
  method SkipAfter(buf: array<char>, k: nat, end: nat) returns (save: Option<nat>)
    requires k < end < buf.Length && buf[end] == '\r'
    modifies buf
    ensures buf[..] == old(buf[..])[k := NUL]
    ensures save == Some(SkipSpaces(old(buf[..]), k + 1))
  {
    ghost var s := buf[..];
    buf[k] := NUL;
    assert buf[end] != ' ';
    var q := SkipSpacesIn(buf, k + 1);
    SkipFromHere(s, buf[..], k + 1, k + 1);
    return Some(q);
  }

  lemma {:induction false} SkipFromHere(s: string, t: string, p: nat, q: nat)
    requires |s| == |t| && p <= q <= |s| && forall i :: p <= i < |s| ==> s[i] == t[i]
    ensures SkipSpaces(s, q) == SkipSpaces(t, q)
    decreases |s| - q
  {
    if q < |s| {
      SkipFromHere(s, t, p, q + 1);
    }
  }

  // ---------------------------------------------------------------- repeated calls

  /**
   The state between calls on a message `s` whose CR LF is at `end`: the tokens in `done`
   have been returned and their ends overwritten, and scanning goes on at `save`.
   */
  ghost predicate CursorAt(buf: string, s: string, end: nat, done: seq<Span>, save: Option<nat>) {
    && end < |s| && CrlfAt(s, end) && buf == WithNuls(s, done)
    && (save.Some? ==>
          && save.value <= end
          && Strstr(s, save.value) == Some(end)
          && forall k :: 0 <= k < |done| ==> done[k].End() < save.value)
  }

  lemma {:induction false} SpaceFromHere(s: string, t: string, p: nat, q: nat, end: nat)
    requires |s| == |t| && p <= q <= end <= |s| && forall i :: p <= i < |s| ==> s[i] == t[i]
    ensures SpaceBefore(s, q, end) == SpaceBefore(t, q, end)
    decreases end - q
  {
    if q < end {
      SpaceFromHere(s, t, p, q + 1, end);
    }
  }

  lemma NulsAreBehind(buf: string, s: string, end: nat, done: seq<Span>, p: nat)
    requires CursorAt(buf, s, end, done, Some(p))
    ensures forall i :: p <= i < |s| ==> buf[i] == s[i]
  {
    forall i | p <= i < |s|
      ensures buf[i] == s[i]
    {
      WithNulsAt(s, done, i);
    }
  }

  lemma TokenFromHere(s: string, t: string, p: nat, end: nat)
    requires p <= end < |s| == |t| && s[end] == '\r' && forall i :: p <= i < |s| ==> s[i] == t[i]
    ensures TokenAt(t, p, end) == TokenAt(s, p, end)
  {
    assert s[p] == t[p] && s[end] == t[end];
    if s[p] != ':' {
      SpaceFromHere(s, t, p, p, end);
      var k := SpaceBefore(s, p, end);
      if k < end {
        SkipFromHere(s, t, p, k + 1);
      }
    }
  }

  /** The NULs written so far do not affect the next token. */
  lemma NextTokenFromHere(buf: string, s: string, end: nat, done: seq<Span>, p: nat)
    requires CursorAt(buf, s, end, done, Some(p))
    ensures Terminated(buf, p) && Strstr(buf, p) == Some(end)
    ensures TokenAt(buf, p, end) == TokenAt(s, p, end)
  {
    NulsAreBehind(buf, s, end, done, p);
    assert StopsAt(buf, end);
    StrstrFromHere(buf, s, p, p);
    TokenFromHere(s, buf, p, end);
  }

  lemma OneMoreNul(s: string, done: seq<Span>, span: Span)
    requires span.End() < |s|
    ensures WithNuls(s, done + [span]) == WithNuls(s, done)[span.End() := NUL]
  {
    assert (done + [span])[..|done|] == done;
  }

  lemma CursorMoves(buf: string, s: string, end: nat, done: seq<Span>, p: nat)
    requires CursorAt(buf, s, end, done, Some(p))
    ensures var (span, next) := TokenAt(s, p, end);
            CursorAt(buf[span.End() := NUL], s, end, done + [span], next)
  {
    var (span, next) := TokenAt(s, p, end);
    OneMoreNul(s, done, span);
    if next.Some? {
      StrstrStays(s, p, next.value, end);
    }
  }

  /** As CursorAt, with the tokens still to come in `rest`. */
  ghost predicate Scanning(buf: string, s: string, end: nat, done: seq<Span>, rest: seq<Span>, save: Option<nat>) {
    CursorAt(buf, s, end, done, save) && rest == Remaining(s, save, end)
  }

  lemma RemainingStep(s: string, p: nat, end: nat)
    requires p <= end < |s| && s[end] == '\r'
    ensures var (span, next) := TokenAt(s, p, end);
            Remaining(s, Some(p), end) == [span] + Remaining(s, next, end)
  {
  }

  /** A call after the first returns the next token of the original message. */
  method NextToken(buf: array<char>, save: Option<nat>,
                   ghost s: string, ghost end: nat, ghost done: seq<Span>, ghost rest: seq<Span>)
    returns (tok: Option<nat>, toklen: nat, save': Option<nat>, ghost done': seq<Span>, ghost rest': seq<Span>)
    requires Scanning(buf[..], s, end, done, rest, save)
    modifies buf
    ensures Scanning(buf[..], s, end, done', rest', save')
    ensures rest == [] ==> tok.None? && toklen == 0 && done' == done && rest' == []
    ensures rest != [] ==>
              && tok == Some(rest[0].start) && toklen == rest[0].len
              && done' == done + [rest[0]] && rest' == rest[1..]
    ensures done' + rest' == done + rest
  {
    if save.None? {
      tok, toklen, save' := MsgtokR(buf, None, save);
      done', rest' := done, rest;
    } else {
      NextTokenFromHere(buf[..], s, end, done, save.value);
      CursorMoves(buf[..], s, end, done, save.value);
      RemainingStep(s, save.value, end);
      tok, toklen, save' := MsgtokR(buf, None, save);
      done', rest' := done + [rest[0]], rest[1..];
    }
  }

  /** The CR LF that ends the message in a buffer, if it has one. */
  function MessageEnd(s: string): Option<nat> {
    Strstr(s, SkipSpaces(s, 0))
  }

  /** The tokens of the message in a buffer. */
  function MessageSpans(s: string): seq<Span> {
    match MessageEnd(s)
    case None => []
    case Some(end) => Spans(s, SkipSpaces(s, 0), end)
  }

  function MessageTokens(s: string): seq<string> {
    Texts(s, MessageSpans(s))
  }

  /** The tokens of a message are those of the pure splitter on its body. */
  lemma MessageIsSplit(s: string, p: nat, end: nat, b: string)
    requires SkipSpaces(s, 0) == p && MessageEnd(s) == Some(end) && b == s[p..end]
    ensures MessageTokens(s) == Split(b)
  {
    SpansAreSplit(s, p, end, b);
  }

  /** The first call returns the first token, or NULL if the message has no end. */
  method FirstToken(buf: array<char>)
    returns (tok: Option<nat>, toklen: nat, save: Option<nat>, ghost done: seq<Span>, ghost rest: seq<Span>)
    requires Terminated(buf[..], 0)
    modifies buf
    ensures done + rest == MessageSpans(old(buf[..]))
    ensures MessageEnd(old(buf[..])).None? ==> tok.None? && buf[..] == old(buf[..]) && done == rest == []
    ensures MessageEnd(old(buf[..])).Some? ==>
              && |done| == 1 && tok == Some(done[0].start) && toklen == done[0].len
              && Scanning(buf[..], old(buf[..]), MessageEnd(old(buf[..])).value, done, rest, save)
  {
    ghost var s := buf[..];
    ghost var p := SkipSpaces(s, 0);
    done, rest := [], [];
    if MessageEnd(s).Some? {
      ghost var end := MessageEnd(s).value;
      CursorMoves(s, s, end, [], p);
      RemainingStep(s, p, end);
      done, rest := [TokenAt(s, p, end).0], Remaining(s, TokenAt(s, p, end).1, end);
    }
    tok, toklen, save := MsgtokR(buf, Some(0), None);
  }

  /**
   Calling msgtok_r until it returns NULL yields exactly the tokens of the message, and
   changes nothing but their ends.
   */
  method Tokenise(buf: array<char>) returns (spans: seq<Span>)
    requires Terminated(buf[..], 0)
    modifies buf
    ensures spans == MessageSpans(old(buf[..]))
    ensures buf[..] == WithNuls(old(buf[..]), spans)
  {
    ghost var s := buf[..];
    ghost var done, rest;
    var tok, toklen, save;
    tok, toklen, save, done, rest := FirstToken(buf);
    if tok.None? {
      return [];
    }
    ghost var end := MessageEnd(s).value;
    spans := [];
    while tok.Some?
      invariant Scanning(buf[..], s, end, done, rest, save)
      invariant done + rest == MessageSpans(s) && (tok.None? ==> rest == [])
      invariant done == if tok.Some? then spans + [Span(tok.value, toklen)] else spans
      decreases |rest|, tok.Some?
    {
      spans := spans + [Span(tok.value, toklen)];
      tok, toklen, save, done, rest := NextToken(buf, save, s, end, done, rest);
    }
  }
}
