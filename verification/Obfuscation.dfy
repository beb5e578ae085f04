/** The obfuscating transport: length-prefixed frames under an exclusive-or key stream with a rolling
    cursor (pkg/transport/obfs.go). */
module Obfuscation {
  import opened Bytes
  import opened Modular

  const HEADER: nat := 4
  const MAX_FRAME: nat := 65535

  type Key = k: seq<byte> | |k| > 0 witness [0]

  /** The periodic key stream: byte j modulo the key length. */
  function K(key: Key, j: nat): byte {
    key[Wrap(j, |key|)]
  }

  /** The one-shot cipher: data under the key stream from position pos on. */
  function Masked(data: seq<byte>, key: Key, pos: nat): (r: seq<byte>)
    ensures |r| == |data|
  {
    seq(|data|, i requires 0 <= i < |data| => Xor(data[i], K(key, pos + i)))
  }

  /** A message with its length in front. */
  function Framed(b: seq<byte>): seq<byte> {
    BigEndian(ToU32(|b|), HEADER) + b
  }

  lemma KeyIsPeriodic(key: Key, pos: nat, i: nat)
    ensures K(key, Wrap(pos, |key|) + i) == K(key, pos + i)
  {
    WrapAdd(pos, i, |key|);
  }

  /** A frame in the clear: four bytes of length, the high byte first, and the message. */
  lemma FramedLayout(b: seq<byte>)
    requires |b| < 0x1_0000_0000
    ensures var f := Framed(b);
            && |f| == 4 + |b| && f[4..] == b
            && |b| == 0x100_0000 * f[0] as nat + 0x1_0000 * f[1] as nat + 0x100 * f[2] as nat + f[3] as nat
  {
    BigEndianDigits(|b|);
  }

  /** Only the cursor modulo the key length matters. */
  lemma MaskedModulo(data: seq<byte>, key: Key, pos: nat)
    ensures Masked(data, key, Wrap(pos, |key|)) == Masked(data, key, pos)
  {
    hide K, Xor, Wrap;
    var k := Wrap(pos, |key|);
    forall i | 0 <= i < |data|
      ensures Masked(data, key, k)[i] == Masked(data, key, pos)[i]
    {
      KeyIsPeriodic(key, pos, i);
    }
  }

  // ---------- The connection ----------

  /** What a Read does to the bytes arriving at cursor pos: the frame it decodes, or None for an error,
      the new cursor, and the bytes left. The payload starts again at the header's cursor. */
  datatype Outcome = Outcome(frame: Option<seq<byte>>, pos: nat, left: seq<byte>)

  function Decode(key: Key, pos: nat, incoming: seq<byte>): Outcome {
    if |incoming| < HEADER then Outcome(None, pos, [])
    else
      var length, rest := FromBigEndian(Masked(incoming[..HEADER], key, pos)), incoming[HEADER..];
      if length > MAX_FRAME then Outcome(None, pos, rest)
      else if |rest| < length then Outcome(None, pos, [])
      else Outcome(Some(Masked(rest[..length], key, pos)), pos + length, rest[length..])
  }

  /** XORs the data in place and returns the advanced cursor. */
  method Obfuscate(data: array<byte>, key: Key, keyPos: nat) returns (newPos: nat)
    requires keyPos < |key|
    modifies data
    ensures data[..] == Masked(old(data[..]), key, keyPos)
    ensures newPos == Wrap(keyPos + data.Length, |key|)
  {
    newPos := keyPos;
    for i := 0 to data.Length
      invariant newPos == Wrap(keyPos + i, |key|)
      invariant forall j | 0 <= j < i :: data[j] == Xor(old(data[j]), K(key, keyPos + j))
      invariant forall j | i <= j < data.Length :: data[j] == old(data[j])
    {
      data[i] := Xor(data[i], key[newPos]);
      WrapStep(newPos, |key|);
      WrapAdd(keyPos + i, 1, |key|);
      newPos := (newPos + 1) % |key|;
    }
  }

  class ObfuscatedConnection {
    const key: Key
    var keyPos: nat
    // Bytes that will arrive, and bytes handed to the network.
    var incoming: seq<byte>
    var outgoing: seq<byte>

    ghost predicate Valid()
      reads this
    {
      keyPos < |key|
    }

    constructor (key: Key, incoming: seq<byte>)
      ensures Valid() && this.key == key && keyPos == 0 && this.incoming == incoming && outgoing == []
    {
      this.key, keyPos, this.incoming, outgoing := key, 0, incoming, [];
    }

    /** io.ReadFull: on a short stream it consumes what there is and fails. */
    method ReadFull(buf: array<byte>) returns (ok: bool)
      modifies this`incoming, buf
      ensures ok == (|old(incoming)| >= buf.Length)
      ensures ok ==> buf[..] == old(incoming)[..buf.Length] && incoming == old(incoming)[buf.Length..]
      ensures !ok ==> incoming == []
    {
      if |incoming| < buf.Length {
        incoming := [];
        return false;
      }
      Put(buf, 0, incoming[..buf.Length]);
      assert buf[..] == buf[..buf.Length];
      incoming := incoming[buf.Length..];
      return true;
    }

    /** A frame longer than the caller's buffer is cut off, and the rest of it is lost. */
    method Read(b: array<byte>) returns (n: nat, ok: bool)
      requires Valid()
      modifies this`incoming, this`keyPos, b
      ensures Valid()
      ensures var d := Decode(key, old(keyPos), old(incoming));
              && ok == d.frame.Some?
              && incoming == d.left && keyPos == Wrap(d.pos, |key|)
              && n == (if ok then Min(b.Length, |d.frame.value|) else 0)
              && b[..] == (if ok then d.frame.value[..n] else []) + old(b[..])[n..]
    {
      hide Masked, K, Xor, FromBigEndian;
      var lenBuf := new byte[HEADER](_ => 0);
      var got := ReadFull(lenBuf);
      if !got {
        return 0, false;
      }
      var _ := Obfuscate(lenBuf, key, keyPos);
      var length := FromBigEndian(lenBuf[..]);
      if length > MAX_FRAME {
        return 0, false;
      }
      var data := new byte[length](_ => 0);
      got := ReadFull(data);
      if !got {
        return 0, false;
      }
      keyPos := Obfuscate(data, key, keyPos);
      n := Min(b.Length, data.Length);
      Put(b, 0, data[..n]);
      assert b[..] == b[..n] + b[n..];
      return n, true;
    }

    /** accepted is the network's answer; the cursor moves even when it refuses. */
    method Write(b: seq<byte>, accepted: bool) returns (n: nat, ok: bool)
      requires Valid()
      modifies this`keyPos, this`outgoing
      ensures Valid()
      ensures ok == accepted && n == if ok then |b| else 0
      ensures keyPos == CursorAfterWrite(key, old(keyPos), b)
      ensures outgoing == if accepted then old(outgoing) + Masked(Framed(b), key, old(keyPos)) else old(outgoing)
    {
      var packet := new byte[HEADER + |b|](_ => 0);
      Put(packet, 0, BigEndian(ToU32(|b|), HEADER));
      Put(packet, HEADER, b);
      assert packet[..] == packet[..HEADER + |b|] == Framed(b);
      keyPos := Obfuscate(packet, key, keyPos);
      if !accepted {
        return 0, false;
      }
      outgoing := outgoing + packet[..];
      return |b|, true;
    }
  }

  // ---------- Writing refines the one-shot cipher ----------

  /** The bytes on the wire after a run of successful Writes from cursor pos on. */
  function Written(key: Key, pos: nat, messages: seq<seq<byte>>): seq<byte>
    decreases |messages|
  {
    if messages == [] then []
    else Masked(Framed(messages[0]), key, pos)
         + Written(key, CursorAfterWrite(key, pos, messages[0]), messages[1..])
  }

  function CursorAfterWrite(key: Key, pos: nat, b: seq<byte>): nat {
    Wrap(pos + HEADER + |b|, |key|)
  }

  function CursorAfterWrites(key: Key, pos: nat, messages: seq<seq<byte>>): nat
    decreases |messages|
  {
    if messages == [] then pos else CursorAfterWrites(key, CursorAfterWrite(key, pos, messages[0]), messages[1..])
  }

  function Stream(messages: seq<seq<byte>>): seq<byte> {
    if messages == [] then [] else Framed(messages[0]) + Stream(messages[1..])
  }

  lemma MaskedConcat(a: seq<byte>, b: seq<byte>, key: Key, pos: nat)
    ensures Masked(a + b, key, pos) == Masked(a, key, pos) + Masked(b, key, pos + |a|)
  {
    hide K, Xor;
    var whole, parts := Masked(a + b, key, pos), Masked(a, key, pos) + Masked(b, key, pos + |a|);
    forall i | 0 <= i < |whole|
      ensures whole[i] == parts[i]
    {
      if i >= |a| {
        assert pos + |a| + (i - |a|) == pos + i;
      }
    }
    assert whole == parts;
  }

  lemma MaskedSplit(a: seq<byte>, b: seq<byte>, key: Key, pos: nat)
    ensures Masked(a + b, key, pos) == Masked(a, key, pos) + Masked(b, key, Wrap(pos + |a|, |key|))
  {
    hide Masked;
    MaskedModulo(b, key, pos + |a|);
    MaskedConcat(a, b, key, pos);
  }

  lemma CursorPassesFrame(key: Key, pos: nat, b: seq<byte>)
    ensures CursorAfterWrite(key, pos, b) == Wrap(pos + |Framed(b)|, |key|)
  {
    assert pos + HEADER + |b| == pos + |Framed(b)|;
  }

  lemma {:induction false} CursorIsTotal(key: Key, pos: nat, messages: seq<seq<byte>>)
    requires pos < |key|
    ensures CursorAfterWrites(key, pos, messages) == Wrap(pos + |Stream(messages)|, |key|)
    decreases |messages|
  {
    hide Framed, CursorAfterWrite;
    if messages != [] {
      var f, rest := Framed(messages[0]), Stream(messages[1..]);
      CursorPassesFrame(key, pos, messages[0]);
      CursorIsTotal(key, Wrap(pos + |f|, |key|), messages[1..]);
      WrapAdd(pos + |f|, |rest|, |key|);
      assert pos + |f| + |rest| == pos + |Stream(messages)|;
    }
  }

  lemma {:induction false} WrittenIsMasked(key: Key, pos: nat, messages: seq<seq<byte>>)
    ensures Written(key, pos, messages) == Masked(Stream(messages), key, pos)
    decreases |messages|
  {
    hide Framed, CursorAfterWrite, Masked, Wrap;
    if messages != [] {
      CursorPassesFrame(key, pos, messages[0]);
      WrittenIsMasked(key, CursorAfterWrite(key, pos, messages[0]), messages[1..]);
      MaskedSplit(Framed(messages[0]), Stream(messages[1..]), key, pos);
    }
  }

  /** The rolling cursor computes what masking the whole stream of frames at once would, and ends where
      that would end. */
  lemma WritesAreOneShot(key: Key, pos: nat, messages: seq<seq<byte>>)
    requires pos < |key|
    ensures Written(key, pos, messages) == Masked(Stream(messages), key, pos)
    ensures CursorAfterWrites(key, pos, messages) == Wrap(pos + |Stream(messages)|, |key|)
  {
    hide *;
    WrittenIsMasked(key, pos, messages);
    CursorIsTotal(key, pos, messages);
  }
}
