/** The message transport with its left-over buffer (pkg/transport/websocket.go). */
module WebSocket {
  import opened Bytes

  /** The receiving half: what is left of the last message, and the messages still to be read. */
  datatype Inbound = Inbound(readBuf: seq<byte>, unread: seq<seq<byte>>)

  /** What a Read into a buffer of that size returns; None is the error of a closed connection. */
  function Chunk(s: Inbound, size: nat): Option<seq<byte>> {
    if s.readBuf != [] then Some(s.readBuf[..Min(size, |s.readBuf|)])
    else if s.unread == [] then None
    else Some(s.unread[0][..Min(size, |s.unread[0]|)])
  }

  function AfterRead(s: Inbound, size: nat): Inbound {
    if s.readBuf != [] then Inbound(s.readBuf[Min(size, |s.readBuf|)..], s.unread)
    else if s.unread == [] then s
    else Inbound(s.unread[0][Min(size, |s.unread[0]|)..], s.unread[1..])
  }

  class WebSocketConnection {
    var readBuf: seq<byte>
    // The underlying connection: messages that will arrive, and messages handed over for sending.
    var incoming: seq<seq<byte>>
    var outgoing: seq<seq<byte>>

    function State(): Inbound
      reads this
    {
      Inbound(readBuf, incoming)
    }

    constructor (incoming: seq<seq<byte>>)
      ensures State() == Inbound([], incoming) && outgoing == []
    {
      readBuf, this.incoming, outgoing := [], incoming, [];
    }

    method Read(b: array<byte>) returns (n: nat, ok: bool)
      modifies this`readBuf, this`incoming, b
      ensures ok == Chunk(old(State()), b.Length).Some?
      ensures n <= b.Length && b[n..] == old(b[..])[n..]
      ensures b[..n] == if ok then Chunk(old(State()), b.Length).value else []
      ensures State() == AfterRead(old(State()), b.Length)
    {
      if |readBuf| > 0 {
        n := Min(b.Length, |readBuf|);
        Put(b, 0, readBuf[..n]);
        readBuf := readBuf[n..];
        return n, true;
      }
      if incoming == [] {
        return 0, false;
      }
      var data := incoming[0];
      incoming := incoming[1..];
      n := Min(b.Length, |data|);
      Put(b, 0, data[..n]);
      if n < |data| {
        readBuf := data[n..];
      }
      return n, true;
    }

    /** accepted is the answer of the underlying connection. */
    method Write(b: seq<byte>, accepted: bool) returns (n: nat, ok: bool)
      modifies this`outgoing
      ensures ok == accepted && n == if ok then |b| else 0
      ensures outgoing == if accepted then old(outgoing) + [b] else old(outgoing)
    {
      if !accepted {
        return 0, false;
      }
      outgoing := outgoing + [b];
      return |b|, true;
    }
  }

  // ---------- Runs of Read ----------

  function Flat(messages: seq<seq<byte>>): seq<byte> {
    if messages == [] then [] else messages[0] + Flat(messages[1..])
  }

  /** The chunks that successive Reads with buffers of these sizes return. */
  function Chunks(s: Inbound, sizes: seq<nat>): seq<seq<byte>>
    decreases |sizes|
  {
    if sizes == [] then []
    else (if Chunk(s, sizes[0]).Some? then [Chunk(s, sizes[0]).value] else [])
         + Chunks(AfterRead(s, sizes[0]), sizes[1..])
  }

  function AfterReads(s: Inbound, sizes: seq<nat>): Inbound
    decreases |sizes|
  {
    if sizes == [] then s else AfterReads(AfterRead(s, sizes[0]), sizes[1..])
  }

  /** The bytes a connection has still to return. */
  function Pending(s: Inbound): seq<byte> {
    s.readBuf + Flat(s.unread)
  }

  lemma OneReadConserves(s: Inbound, size: nat)
    ensures Chunk(s, size).Some? ==> Chunk(s, size).value + Pending(AfterRead(s, size)) == Pending(s)
    ensures Chunk(s, size).None? ==> Pending(AfterRead(s, size)) == Pending(s)
  {
    if s.readBuf == [] && s.unread != [] {
      var m, k := s.unread[0], Min(size, |s.unread[0]|);
      assert m == m[..k] + m[k..];
    } else if s.readBuf != [] {
      var k := Min(size, |s.readBuf|);
      assert s.readBuf == s.readBuf[..k] + s.readBuf[k..];
    }
  }

  lemma FlatCons(c: seq<byte>, tail: seq<seq<byte>>)
    ensures Flat([c] + tail) == c + Flat(tail)
  {
    assert ([c] + tail)[1..] == tail;
  }

  /** Bytes returned, then bytes buffered, then bytes unread make up everything sent, whatever the
      buffer sizes: nothing is lost, repeated or reordered. */
  lemma {:induction false} ReadsConserve(s: Inbound, sizes: seq<nat>)
    ensures Flat(Chunks(s, sizes)) + Pending(AfterReads(s, sizes)) == Pending(s)
    decreases |sizes|
  {
    hide Chunk, AfterRead, Pending;
    if sizes != [] {
      var mid := AfterRead(s, sizes[0]);
      var tail := Chunks(mid, sizes[1..]);
      ReadsConserve(mid, sizes[1..]);
      OneReadConserves(s, sizes[0]);
      if Chunk(s, sizes[0]).Some? {
        FlatCons(Chunk(s, sizes[0]).value, tail);
      } else {
        assert [] + tail == tail;
      }
    }
  }

  /** part is a stretch of one of the messages. */
  ghost predicate SliceOfOne(messages: seq<seq<byte>>, part: seq<byte>) {
    exists i, o: nat :: IsSlice(messages, i, o, part)
  }

  predicate IsSlice(messages: seq<seq<byte>>, i: int, o: nat, part: seq<byte>) {
    0 <= i < |messages| && o + |part| <= |messages[i]| && part == messages[i][o..o + |part|]
  }

  /** What a connection is left with stems from the messages sent: a piece of one, and later ones. */
  ghost predicate Stems(sent: seq<seq<byte>>, s: Inbound) {
    && (s.readBuf == [] || SliceOfOne(sent, s.readBuf))
    && |s.unread| <= |sent| && s.unread == sent[|sent| - |s.unread|..]
  }

  lemma OneReadSlices(sent: seq<seq<byte>>, s: Inbound, size: nat)
    requires Stems(sent, s)
    ensures Chunk(s, size).Some? ==> SliceOfOne(sent, Chunk(s, size).value)
    ensures Stems(sent, AfterRead(s, size))
  {
    var t := AfterRead(s, size);
    if s.readBuf != [] {
      var i, o: nat :| IsSlice(sent, i, o, s.readBuf);
      var k := Min(size, |s.readBuf|);
      assert IsSlice(sent, i, o, s.readBuf[..k]);
      assert IsSlice(sent, i, o + k, s.readBuf[k..]);
    } else if s.unread != [] {
      var i := |sent| - |s.unread|;
      var k := Min(size, |sent[i]|);
      assert s.unread[0] == sent[i];
      assert IsSlice(sent, i, 0, sent[i][..k]);
      assert IsSlice(sent, i, k, sent[i][k..]);
    }
  }

  /** No Read returns bytes of two messages. */
  lemma {:induction false} ReadsNeverMix(sent: seq<seq<byte>>, s: Inbound, sizes: seq<nat>)
    requires Stems(sent, s)
    ensures forall k | 0 <= k < |Chunks(s, sizes)| :: SliceOfOne(sent, Chunks(s, sizes)[k])
    decreases |sizes|
  {
    if sizes != [] {
      OneReadSlices(sent, s, sizes[0]);
      ReadsNeverMix(sent, AfterRead(s, sizes[0]), sizes[1..]);
    }
  }

  lemma WholeMessageIsRead(messages: seq<seq<byte>>, size: nat)
    requires messages != [] && |messages[0]| <= size
    ensures Chunk(Inbound([], messages), size) == Some(messages[0])
    ensures AfterRead(Inbound([], messages), size) == Inbound([], messages[1..])
  {
    assert messages[0][..|messages[0]|] == messages[0];
  }

  /** If every buffer is at least as long as its message, each Read returns exactly one message, and nothing is
      left over after any of them. */
  lemma {:induction false} ReadsAreMessages(messages: seq<seq<byte>>, sizes: seq<nat>)
    requires |sizes| <= |messages| && forall k | 0 <= k < |sizes| :: |messages[k]| <= sizes[k]
    ensures Chunks(Inbound([], messages), sizes) == messages[..|sizes|]
    ensures AfterReads(Inbound([], messages), sizes) == Inbound([], messages[|sizes|..])
    decreases |sizes|
  {
    hide Chunk, AfterRead;
    if sizes != [] {
      WholeMessageIsRead(messages, sizes[0]);
      ReadsAreMessages(messages[1..], sizes[1..]);
      assert messages[..|sizes|] == [messages[0]] + messages[1..][..|sizes| - 1];
      assert messages[|sizes|..] == messages[1..][|sizes| - 1..];
    }
  }

  // ---------- Reading to the end ----------

  /** All the chunks a reader with one fixed buffer gets until the connection closes. */
  function Drain(s: Inbound, size: nat): seq<seq<byte>>
    requires size > 0
    decreases |s.unread|, |s.readBuf|
  {
    if Chunk(s, size).None? then [] else [Chunk(s, size).value] + Drain(AfterRead(s, size), size)
  }

  /** With one buffer no shorter than any message, reading to the end yields exactly the messages. */
  lemma {:induction false} DrainIsMessages(messages: seq<seq<byte>>, size: nat)
    requires size > 0 && forall m | m in messages :: |m| <= size
    ensures Drain(Inbound([], messages), size) == messages
    decreases |messages|
  {
    if messages != [] {
      assert messages[0] in messages;
      WholeMessageIsRead(messages, size);
      DrainIsMessages(messages[1..], size);
    }
  }
}
