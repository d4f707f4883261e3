/**
 One frame in Client_HandleRead of src/client.c: it is taken from the store and parsed in
 place, in the connection's message buffer, into a struct that other frames have used before.
 */
module ClientReads {
  import opened Basics
  import opened Framing
  import opened Connections
  import opened Tokeniser
  import opened Parser
  import opened EndToEnd

  /** What parse_message returns and stores for one delivered frame, given the struct before. */
  ghost function ParseFrame(m: Fields, d: string): (int, Fields) {
    var s := InBuffer(d);
    var p := ParseTokens(MessageTokens(s));
    (ReturnCode(p), StoreParse(m, p, MessageSpans(s)))
  }

  lemma AcceptsIff(m: Fields, d: string)
    ensures ParseFrame(m, d).0 != -1 <==> Accepts(d)
    ensures !Accepts(d) ==> ParseFrame(m, d).1 == m
  {
    RejectedIff(TokensIn(d));
  }

  lemma FrameReady(h: Held)
    requires ReadFrame(h).0.Some? && |h.bytes| <= MSG_SIZE
    ensures var d := ReadFrame(h).0.value.Delivered();
            |d| <= MSG_SIZE && Terminated(Padded(d), 0)
    decreases |h.bytes|, h.discard
  {
    var f := TakeFrame(h.bytes).value;
    if h.discard {
      FrameReady(Held(h.bytes[|f.bytes|..], false));
    } else {
      FramesAreTerminated(h.bytes);
    }
  }

  /**
   Draining leaves room in the store, so that the next read asks for at least two bytes: a
   read that returns 0 always means that the connection was closed.
   */
  lemma {:induction false} RoomAfterDrain(h: Held)
    ensures |Drain(h).1.bytes| <= MSG_SIZE - 2 && !HasCrlf(Drain(h).1.bytes)
    decreases |h.bytes|
  {
    var (f, after) := ReadFrame(h);
    if f.Some? {
      RoomAfterDrain(after);
    }
  }

  /** conn_read_message, then parse_message on the connection's message buffer. */
  method ReadAndParse(conn: Connection, message: IrcMessage) returns (got: bool, rc: int)
    requires conn.Valid()
    modifies conn, conn.message, conn.store, message
    ensures conn.Valid() && (old(conn.ZeroTail()) ==> conn.ZeroTail())
    ensures got <==> ReadFrame(old(conn.View())).0.Some?
    ensures conn.View() == ReadFrame(old(conn.View())).1
    ensures !got ==> message.View() == old(message.View())
    ensures got ==>
              var d := ReadFrame(old(conn.View())).0.value.Delivered();
              && (rc, message.View()) == ParseFrame(old(message.View()), d)
              && conn.message[..] == ParsedBuffer(InBuffer(d))
  {
    rc := 0;
    ghost var h := conn.View();
    got := conn.ReadMessage();
    if got {
      FrameReady(h);
      ghost var left := conn.View();
      rc := message.ParseMessage(conn.message);
      assert conn.View() == left;
    }
  }
}
