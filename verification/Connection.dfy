/**
 The connection object: its two 512-byte buffers, and the calls that update them in place
 (strncrlf and conn_read_message of src/read_message.c, Conn_ReadStoreBuffer of
 src/connection.c).
 */
module Connections {
  import opened Basics
  import opened Framing

  ghost function Zeros(n: nat): string {
    seq(n, _ => '\0')
  }

  /** A message in a buffer that was cleared first. */
  ghost function Padded(s: string): string
    requires |s| <= MSG_SIZE
  {
    s + Zeros(MSG_SIZE - |s|)
  }

  /** strncrlf: the first CR LF among the first `limit` bytes. */
  method Strncrlf(str: array<char>, limit: nat) returns (crlf: nat)
    requires limit <= str.Length
    ensures crlf == FirstCrlf(str[..limit])
  {
    var i := 1;
    while i < limit
      invariant 1 <= i
      invariant forall j :: 0 <= j < i - 1 && j < limit ==> !CrlfAt(str[..limit], j)
    {
      if str[i] == '\n' && str[i - 1] == '\r' {
        FirstCrlfUnique(str[..limit], i - 1);
        return i - 1;
      }
      i := i + 1;
    }
    return limit;
  }

  class Connection {
    const message: array<char>
    const store: array<char>
    var totalRead: nat
    var discardNext: bool

    ghost predicate Valid()
      reads this
    {
      message.Length == store.Length == MSG_SIZE && message != store && totalRead <= MSG_SIZE
    }

    /** The store is zero beyond the bytes held. */
    ghost predicate ZeroTail()
      reads this, store
    {
      forall i :: totalRead <= i < store.Length ==> store[i] == '\0'
    }

    ghost function View(): Held
      requires Valid()
      reads this, store
    {
      Held(store[..totalRead], discardNext)
    }

    constructor ()
      ensures Valid() && ZeroTail() && fresh(message) && fresh(store)
      ensures View() == Held("", false)
    {
      message := new char[MSG_SIZE](_ => '\0');
      store := new char[MSG_SIZE](_ => '\0');
      totalRead := 0;
      discardNext := false;
    }

    /** Moves the bytes from `len` on to the front of the store and clears the rest. */
    method Shift(len: nat)
      requires Valid() && len <= totalRead
      modifies this`totalRead, store
      ensures totalRead == old(totalRead) - len
      ensures store[..totalRead] == old(store[len..totalRead])
      ensures old(ZeroTail()) ==> ZeroTail()
    {
      var remaining := totalRead - len;
      forall i | 0 <= i < remaining {
        store[i] := store[len + i];
      }
      forall i | remaining <= i < remaining + len {
        store[i] := '\0';
      }
      totalRead := remaining;
    }

    ghost predicate MessageCleared()
      reads this, message
    {
      forall i :: 0 <= i < message.Length ==> message[i] == '\0'
    }

    method ClearMessage()
      requires Valid()
      modifies message
      ensures MessageCleared()
    {
      forall i | 0 <= i < MSG_SIZE {
        message[i] := '\0';
      }
    }

    method CopyWhole(len: nat)
      requires Valid() && MessageCleared() && len <= MSG_SIZE
      modifies message
      ensures message[..] == Padded(store[..len])
    {
      forall i | 0 <= i < len {
        message[i] := store[i];
      }
    }

    method CopyCut()
      requires Valid() && MessageCleared()
      modifies message
      ensures message[..] == Padded(store[..MSG_SIZE - 2] + CRLF)
    {
      forall i | 0 <= i < MSG_SIZE - 2 {
        message[i] := store[i];
      }
      message[MSG_SIZE - 2] := '\r';
      message[MSG_SIZE - 1] := '\n';
    }

    /**
     The body of the loop in conn_read_message: takes the first frame off the store, if
     there is one, and copies it to the message buffer unless it is to be discarded.
     */
    method TryFrame() returns (found: bool)
      requires Valid() && MessageCleared()
      modifies this`totalRead, message, store
      ensures Valid() && (old(ZeroTail()) ==> ZeroTail())
      ensures found <==> TakeFrame(old(View()).bytes).Some?
      ensures !found ==> View() == old(View()) && MessageCleared()
      ensures found ==>
                var f := TakeFrame(old(View()).bytes).value;
                && View() == Held(old(View()).bytes[|f.bytes|..], discardNext)
                && (discardNext ==> MessageCleared())
                && |f.Delivered()| <= MSG_SIZE
                && (!discardNext ==> message[..] == Padded(f.Delivered()))
    {
      var crlf := Strncrlf(store, totalRead);
      ghost var held := store[..totalRead];
      if crlf < totalRead {
        var messageLen := crlf + 2;
        assert held[..messageLen] == store[..messageLen];
        if !discardNext {
          CopyWhole(messageLen);
        }
        Shift(messageLen);
        assert store[..totalRead] == held[messageLen..];
        return true;
      } else if totalRead > MSG_SIZE - 2 {
        assert held[..MSG_SIZE - 2] == store[..MSG_SIZE - 2];
        if !discardNext {
          CopyCut();
        }
        KeepExtra();
        assert store[..totalRead] == held[MSG_SIZE - 2..];
        return true;
      } else {
        return false;
      }
    }

    /** conn_read_message: delivers the frame that ReadFrame takes, in a cleared buffer. */
    method ReadMessage() returns (got: bool)
      requires Valid()
      modifies this`totalRead, this`discardNext, message, store
      ensures Valid() && (old(ZeroTail()) ==> ZeroTail())
      ensures got <==> ReadFrame(old(View())).0.Some?
      ensures View() == ReadFrame(old(View())).1
      ensures got ==> |ReadFrame(old(View())).0.value.Delivered()| <= MSG_SIZE
      ensures got ==> message[..] == Padded(ReadFrame(old(View())).0.value.Delivered())
    {
      ClearMessage();
      while true
        invariant Valid() && MessageCleared()
        invariant old(ZeroTail()) ==> ZeroTail()
        invariant ReadFrame(View()) == ReadFrame(old(View()))
        decreases discardNext
      {
        var found := TryFrame();
        if !found {
          return false;
        }
        if discardNext {
          discardNext := false;
          continue;
        }
        return true;
      }
    }

    /** The one or two bytes past a cut message move to the front of the store. */
    method KeepExtra()
      requires Valid() && totalRead > MSG_SIZE - 2
      modifies this`totalRead, store
      ensures totalRead == old(totalRead) - (MSG_SIZE - 2)
      ensures store[..totalRead] == old(store[MSG_SIZE - 2..totalRead])
      ensures ZeroTail()
    {
      if totalRead == MSG_SIZE - 1 {
        store[0] := store[MSG_SIZE - 2];
        forall i | 1 <= i < MSG_SIZE {
          store[i] := '\0';
        }
        totalRead := 1;
      } else {
        store[0] := store[MSG_SIZE - 2];
        store[1] := store[MSG_SIZE - 1];
        forall i | 2 <= i < MSG_SIZE {
          store[i] := '\0';
        }
        totalRead := 2;
      }
    }

    /**
     Conn_ReadStoreBuffer as written: the bytes that arrive go to the start of the store,
     over the bytes held, and totalRead grows by their number. A read that fails brings None.
     */
    method ReadStoreBuffer(arrived: Option<string>) returns (numRead: int)
      requires Valid() && (arrived.Some? ==> |arrived.value| <= MSG_SIZE - totalRead)
      modifies this`totalRead, store
      ensures Valid() && (old(ZeroTail()) ==> ZeroTail())
      ensures arrived.None? ==> numRead == -1 && totalRead == old(totalRead) && store[..] == old(store[..])
      ensures arrived.Some? ==>
                var a := arrived.value;
                && numRead == |a| && totalRead == old(totalRead) + |a|
                && store[..] == a + old(store[|a|..])
                && (old(ZeroTail()) ==> View().bytes == Overwritten(old(View()).bytes, a))
    {
      if arrived.None? {
        return -1;
      }
      var a := arrived.value;
      forall i | 0 <= i < |a| {
        store[i] := a[i];
      }
      totalRead := totalRead + |a|;
      numRead := |a|;
    }

    /** The read that include/connection.h describes: it fills the rest of the store. */
    method AppendToStore(arrived: string) returns (numRead: nat)
      requires Valid() && |arrived| <= MSG_SIZE - totalRead
      modifies this`totalRead, store
      ensures Valid() && numRead == |arrived| && (old(ZeroTail()) ==> ZeroTail())
      ensures View() == old(View()).(bytes := old(View()).bytes + arrived)
    {
      forall i | 0 <= i < |arrived| {
        store[totalRead + i] := arrived[i];
      }
      totalRead := totalRead + |arrived|;
      numRead := |arrived|;
    }
  }

  // ------------------------------------------------ when overwriting happens to append

  ghost predicate AllZero(s: string) {
    forall i :: 0 <= i < |s| ==> s[i] == '\0'
  }

  /** What the store holds after Conn_ReadStoreBuffer, as it is written. */
  ghost function Overwritten(held: string, arrived: string): string {
    var store := arrived + (held + Zeros(|arrived|))[|arrived|..];
    store[..|held| + |arrived|]
  }

  ghost function Min(a: nat, b: nat): nat {
    if a < b then a else b
  }

  ghost predicate KeepsBytes(held: string, arrived: string) {
    || held == "" || arrived == ""
    || (AllZero(arrived) && AllZero(held[..Min(|held|, |arrived|)]))
  }

  /**
   The read as written keeps the stream of bytes intact exactly when nothing was held,
   nothing arrived, or only zero bytes arrived over zero bytes.
   */
  lemma OverwriteIsAppendIff(held: string, arrived: string)
    ensures Overwritten(held, arrived) == held + arrived <==> KeepsBytes(held, arrived)
  {
    var t, n := |held|, |arrived|;
    var o, a := Overwritten(held, arrived), held + arrived;
    assert |o| == |a| == t + n;
    if o == a && t > 0 && n > 0 {
      assert forall i :: 0 <= i < n ==> o[i] == arrived[i];
      assert forall i :: n <= i < t + n ==> o[i] == if i < t then held[i] else '\0';
      OverlapIsZero(o, held, arrived, n - 1);
    }
  }

  lemma {:induction false} OverlapIsZero(o: string, held: string, arrived: string, i: int)
    requires o == held + arrived && |held| > 0 && -1 <= i < |arrived|
    requires forall j :: 0 <= j < |arrived| ==> o[j] == arrived[j]
    requires forall j :: |arrived| <= j < |o| && j >= |held| ==> o[j] == '\0'
    requires forall j :: i < j < |arrived| ==> arrived[j] == '\0'
    ensures AllZero(arrived)
    ensures AllZero(held[..Min(|held|, |arrived|)])
    decreases i + 1
  {
    var t, n := |held|, |arrived|;
    if i >= 0 {
      assert o[t + i] == arrived[i];
      assert t + i < n ==> o[t + i] == arrived[t + i];
      OverlapIsZero(o, held, arrived, i - 1);
    } else {
      assert forall j :: 0 <= j < Min(t, n) ==> held[j] == o[j] == arrived[j];
    }
  }
}
