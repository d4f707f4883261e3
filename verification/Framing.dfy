/**
 Message framing, src/read_message.c: what conn_read_message extracts from the bytes a
 connection holds. A frame ends with CR LF; when 511 or 512 bytes hold no CR LF, the first
 510 are delivered as a frame with CR LF added (section 2.3 of RFC 2812 limits a message to
 512 bytes). Bytes are modelled as `char`.
 */
module Framing {
  import opened Basics

  const MSG_SIZE: nat := 512
  const CRLF: string := ['\r', '\n']

  predicate CrlfAt(s: string, i: int) {
    0 <= i && i + 1 < |s| && s[i] == '\r' && s[i + 1] == '\n'
  }

  predicate HasCrlf(s: string) {
    exists i :: 0 <= i < |s| && CrlfAt(s, i)
  }

  /** The first index at or after `i` where CR LF begins, or |s| if there is none. */
  function CrlfFrom(s: string, i: nat): (c: nat)
    requires i <= |s|
    ensures i <= c <= |s|
    ensures c < |s| ==> CrlfAt(s, c)
    ensures forall j :: i <= j < c ==> !CrlfAt(s, j)
    decreases |s| - i
  {
    if i == |s| || CrlfAt(s, i) then i else CrlfFrom(s, i + 1)
  }

  function FirstCrlf(s: string): (c: nat)
    ensures c <= |s| && (c < |s| <==> HasCrlf(s))
    ensures c < |s| ==> CrlfAt(s, c)
    ensures forall j :: 0 <= j < c ==> !CrlfAt(s, j)
  {
    CrlfFrom(s, 0)
  }

  lemma FirstCrlfUnique(s: string, c: nat)
    requires c < |s| && CrlfAt(s, c) && forall j :: 0 <= j < c ==> !CrlfAt(s, j)
    ensures FirstCrlf(s) == c
  {
  }

  /** A frame: a message as it was sent, or the head of one that was too long. */
  datatype Frame = Whole(bytes: string) | Cut(bytes: string) {

    /** The bytes handed to the parser. */
    function Delivered(): string {
      if Whole? then bytes else bytes + CRLF
    }
  }

  /** What a connection holds: the bytes read and not yet framed, and the discard flag. */
  datatype Held = Held(bytes: string, discard: bool)

  /** The first frame of the bytes held, if they make one. */
  function TakeFrame(s: string): (r: Option<Frame>)
    ensures r.Some? <==> HasCrlf(s) || |s| > MSG_SIZE - 2
    ensures r.Some? ==> r.value.bytes <= s && 2 <= |r.value.bytes|
    ensures r.Some? && r.value.Whole? ==> CrlfAt(s, |r.value.bytes| - 2)
    ensures r.Some? && r.value.Cut? ==> |r.value.bytes| == MSG_SIZE - 2 && !HasCrlf(s)
  {
    var c := FirstCrlf(s);
    if c < |s| then Some(Whole(s[..c + 2]))
    else if |s| > MSG_SIZE - 2 then Some(Cut(s[..MSG_SIZE - 2]))
    else None
  }

  /** One call of conn_read_message: the frame it delivers, and what it leaves. */
  function ReadFrame(h: Held): (r: (Option<Frame>, Held))
    ensures r.0.None? ==> TakeFrame(r.1.bytes).None?
    ensures r.0.Some? ==> !r.1.discard && |r.1.bytes| < |h.bytes|
    decreases |h.bytes|, h.discard
  {
    match TakeFrame(h.bytes)
    case None => (None, h)
    case Some(f) =>
      var rest := Held(h.bytes[|f.bytes|..], false);
      if h.discard then ReadFrame(rest) else (Some(f), rest)
  }

  lemma FramingStep(h: Held, f: Frame)
    requires TakeFrame(h.bytes) == Some(f)
    ensures var rest := Held(h.bytes[|f.bytes|..], false);
            ReadFrame(h) == if h.discard then ReadFrame(rest) else (Some(f), rest)
  {
  }

  /** Calling conn_read_message until it returns NULL. */
  function Drain(h: Held): (r: (seq<Frame>, Held))
    decreases |h.bytes|
  {
    match ReadFrame(h)
    case (None, h') => ([], h')
    case (Some(f), h') => var (fs, left) := Drain(h'); ([f] + fs, left)
  }

  // ---------------------------------------------------------------- framing a string

  /** All frames of a string, with no flags and no buffer. */
  function Frames(s: string): seq<Frame> {
    match TakeFrame(s)
    case None => []
    case Some(f) => [f] + Frames(s[|f.bytes|..])
  }

  function Leftover(s: string): string {
    match TakeFrame(s)
    case None => s
    case Some(f) => Leftover(s[|f.bytes|..])
  }

  function BytesOf(fs: seq<Frame>): string {
    if fs == [] then "" else fs[0].bytes + BytesOf(fs[1..])
  }

  lemma {:induction false} BytesOfAppend(a: seq<Frame>, b: seq<Frame>)
    ensures BytesOf(a + b) == BytesOf(a) + BytesOf(b)
  {
    if a == [] {
      assert a + b == b;
    } else {
      assert (a + b)[1..] == a[1..] + b;
      BytesOfAppend(a[1..], b);
    }
  }

  /** Nothing is lost or repeated. */
  lemma {:induction false} FramesConserve(s: string)
    ensures BytesOf(Frames(s)) + Leftover(s) == s
    decreases |s|
  {
    match TakeFrame(s)
    case None =>
    case Some(f) =>
      var rest := s[|f.bytes|..];
      FramesConserve(rest);
      assert ([f] + Frames(rest))[1..] == Frames(rest);
      assert s == f.bytes + rest;
  }

  /** What is left is short and holds no CR LF. */
  lemma {:induction false} LeftoverIsShort(s: string)
    ensures !HasCrlf(Leftover(s)) && |Leftover(s)| <= 510
    decreases |s|
  {
    match TakeFrame(s)
    case None =>
    case Some(f) => LeftoverIsShort(s[|f.bytes|..]);
  }

  /** Draining the connection is framing its bytes. */
  lemma {:induction false} DrainIsFraming(s: string)
    ensures Drain(Held(s, false)) == (Frames(s), Held(Leftover(s), false))
    decreases |s|
  {
    match TakeFrame(s)
    case None =>
    case Some(f) =>
      FramingStep(Held(s, false), f);
      DrainIsFraming(s[|f.bytes|..]);
  }

  /** An initially set discard flag drops exactly the first frame. */
  lemma DiscardDropsFirst(s: string)
    ensures Drain(Held(s, true)) ==
              if Frames(s) == [] then ([], Held(s, true)) else (Frames(s)[1..], Held(Leftover(s), false))
  {
    match TakeFrame(s)
    case None =>
    case Some(f) =>
      var rest := s[|f.bytes|..];
      FramingStep(Held(s, true), f);
      DrainIsFraming(rest);
      assert Drain(Held(s, true)) == Drain(Held(rest, false));
      assert ([f] + Frames(rest))[1..] == Frames(rest);
  }

  /** Cutting a long message never separates a CR from the LF that follows it. */
  lemma CutKeepsCrlfTogether(s: string)
    requires TakeFrame(s).Some? && TakeFrame(s).value.Cut?
    ensures !CrlfAt(s, MSG_SIZE - 3)
  {
  }

  /** Every frame delivered ends with its only CR LF and fits the message buffer. */
  lemma DeliveredShape(s: string)
    requires TakeFrame(s).Some? && |s| <= MSG_SIZE
    ensures var d := TakeFrame(s).value.Delivered();
            2 <= |d| <= 512 && FirstCrlf(d) == |d| - 2
  {
    var f := TakeFrame(s).value;
    var d := f.Delivered();
    if f.Whole? {
      assert forall j :: 0 <= j < |d| ==> d[j] == s[j];
      assert forall j :: 0 <= j < |d| - 2 ==> CrlfAt(d, j) ==> CrlfAt(s, j);
    } else {
      forall j | 0 <= j < |d| - 2
        ensures !CrlfAt(d, j)
      {
        assert CrlfAt(d, j) ==> CrlfAt(s, j);
      }
    }
    FirstCrlfUnique(d, |d| - 2);
  }
}
