/** When reading undoes writing on the obfuscating transport: the reader decodes a payload from the
    header's cursor, the writer has moved on by four, and one cursor serves both directions. */
module Deobfuscation {
  import opened Bytes
  import opened Modular
  import opened Obfuscation

  predicate Same(key: Key, w: nat, r: nat, i: nat) {
    K(key, w + i) == K(key, r + i)
  }

  /** The key stream reads the same from w and from r on, for n bytes. */
  predicate KeysAgree(key: Key, w: nat, r: nat, n: nat) {
    forall i: nat | i < n :: Same(key, w, r, i)
  }

  /** The key stream serves a frame written at cursor w and read at cursor r. */
  predicate FrameAgrees(key: Key, w: nat, r: nat, b: seq<byte>) {
    KeysAgree(key, w, r, HEADER) && KeysAgree(key, w + HEADER, r, |b|)
  }

  lemma UnmaskIff(data: seq<byte>, key: Key, w: nat, r: nat)
    ensures Masked(Masked(data, key, w), key, r) == data <==> KeysAgree(key, w, r, |data|)
  {
    var back := Masked(Masked(data, key, w), key, r);
    forall i: nat | i < |data|
      ensures back[i] == data[i] <==> Same(key, w, r, i)
    {
      XorUndoIff(data[i], K(key, w + i), K(key, r + i));
    }
    if KeysAgree(key, w, r, |data|) {
      assert back == data;
    }
    if back == data {
      forall i: nat | i < |data|
        ensures Same(key, w, r, i)
      {
        assert back[i] == data[i];
      }
    }
  }

  // ---------- One frame ----------

  lemma FrameParts(key: Key, w: nat, b: seq<byte>, rest: seq<byte>)
    ensures var wire := Masked(Framed(b), key, w) + rest;
            && |wire| == HEADER + |b| + |rest|
            && wire[..HEADER] == Masked(BigEndian(ToU32(|b|), HEADER), key, w)
            && wire[HEADER..] == Masked(b, key, w + HEADER) + rest
  {
    hide Masked, BigEndian;
    var header := BigEndian(ToU32(|b|), HEADER);
    MaskedConcat(header, b, key, w);
    PartsOf(Masked(header, key, w), Masked(b, key, w + HEADER), rest);
  }

  lemma PartsOf(a: seq<byte>, b: seq<byte>, c: seq<byte>)
    ensures (a + b + c)[..|a|] == a && (a + b + c)[|a|..] == b + c
  {
  }

  /** The decoded length is the one written exactly when the key stream agrees on the header. */
  lemma HeaderReadsBackIff(key: Key, w: nat, r: nat, n: nat)
    requires n < 0x1_0000_0000
    ensures FromBigEndian(Masked(Masked(BigEndian(n, HEADER), key, w), key, r)) == n <==> KeysAgree(key, w, r, HEADER)
  {
    var header := BigEndian(n, HEADER);
    var back := Masked(Masked(header, key, w), key, r);
    Pow256Values();
    BigEndianRoundTrip(n, HEADER);
    FromBigEndianRoundTrip(back);
    UnmaskIff(header, key, w, r);
  }

  /** If the key stream agrees on the header, the payload is decoded as it should be found. */
  lemma HeaderAgrees(key: Key, w: nat, r: nat, b: seq<byte>, rest: seq<byte>)
    requires |b| <= 65535 && KeysAgree(key, w, r, HEADER)
    ensures Decode(key, r, Masked(Framed(b), key, w) + rest)
         == Outcome(Some(Masked(Masked(b, key, w + HEADER), key, r)), r + |b|, rest)
  {
    FrameParts(key, w, b, rest);
    HeaderReadsBackIff(key, w, r, |b|);
    var payload := Masked(b, key, w + HEADER);
    assert (payload + rest)[..|b|] == payload && (payload + rest)[|b|..] == rest;
  }

  /** If it does not, whatever is decoded has another length. */
  lemma HeaderDisagrees(key: Key, w: nat, r: nat, b: seq<byte>, rest: seq<byte>)
    requires |b| <= 65535 && !KeysAgree(key, w, r, HEADER)
    ensures var d := Decode(key, r, Masked(Framed(b), key, w) + rest);
            d.frame.Some? ==> |d.frame.value| != |b|
  {
    FrameParts(key, w, b, rest);
    HeaderReadsBackIff(key, w, r, |b|);
  }

  /** A frame written at cursor w and read at cursor r comes back exactly when the key stream agrees. */
  lemma FrameReadsBackIff(key: Key, w: nat, r: nat, b: seq<byte>, rest: seq<byte>)
    requires |b| <= 65535
    ensures var d := Decode(key, r, Masked(Framed(b), key, w) + rest);
            && (d.frame == Some(b) <==> FrameAgrees(key, w, r, b))
            && (FrameAgrees(key, w, r, b) ==> d == Outcome(Some(b), r + |b|, rest))
  {
    if KeysAgree(key, w, r, HEADER) {
      HeaderAgrees(key, w, r, b, rest);
      UnmaskIff(b, key, w + HEADER, r);
    } else {
      HeaderDisagrees(key, w, r, b, rest);
    }
  }

  /** Between equal cursors the length always comes back, and the payload comes back masked with the key
      stream against itself, four bytes on. */
  lemma EqualCursors(key: Key, k: nat, b: seq<byte>, rest: seq<byte>)
    requires |b| <= 65535
    ensures var d := Decode(key, k, Masked(Framed(b), key, k) + rest);
            && d.frame.Some? && |d.frame.value| == |b| && d.left == rest
            && forall i | 0 <= i < |b| ::
                 d.frame.value[i] == Xor(Xor(b[i], K(key, k + 4 + i)), K(key, k + i))
  {
    HeaderAgrees(key, k, k, b, rest);
  }

  /** A message of more than 65535 bytes is written, but refused by the reader, who has then consumed its
      length only: the next Read starts in the middle of the frame. */
  lemma LongMessageIsRefused(key: Key, k: nat, b: seq<byte>, rest: seq<byte>)
    requires 65535 < |b| < 0x1_0000_0000
    ensures Decode(key, k, Masked(Framed(b), key, k) + rest) == Outcome(None, k, Masked(b, key, k + 4) + rest)
  {
    FrameParts(key, k, b, rest);
    HeaderReadsBackIff(key, k, k, |b|);
  }

  /** A Read fails exactly on a stream of fewer than four bytes, on a length above 65535, or on fewer bytes than
      the length; a length too large costs the four bytes, a short stream everything. */
  lemma DecodesIff(key: Key, pos: nat, incoming: seq<byte>)
    ensures |incoming| < 4 ==> Decode(key, pos, incoming) == Outcome(None, pos, [])
    ensures |incoming| >= 4 ==>
              var d, n := Decode(key, pos, incoming), FromBigEndian(Masked(incoming[..4], key, pos));
              && (d.frame.Some? <==> n <= 65535 && 4 + n <= |incoming|)
              && (d.frame.Some? ==> |d.frame.value| == n && d.pos == pos + n && d.left == incoming[4 + n..])
              && (d.frame.None? ==> d.pos == pos && d.left == if n > 65535 then incoming[4..] else [])
  {
  }

  /** So Read does not undo Write in general: here 7 comes back as 6. */
  lemma ReadNeedNotUndoWrite()
    ensures var key: Key := [0, 1, 2];
            Decode(key, 0, Masked(Framed([7]), key, 0)).frame == Some([6])
  {
    var key: Key := [0, 1, 2];
    EqualCursors(key, 0, [7], []);
    assert Masked(Framed([7]), key, 0) + [] == Masked(Framed([7]), key, 0);
    assert Wrap(4, 3) == 1 && Wrap(0, 3) == 0;
    assert XorBits(1, 0) == 1 && XorBits(3, 0) == 3;
    assert XorBits(7, 1) == 6;
    assert XorBits(6, 0) == 6;
    var d := Decode(key, 0, Masked(Framed([7]), key, 0));
    assert d.frame.value[0] == 6;
    assert d.frame.value == [6];
  }

  // ---------- One direction: any sequence of messages ----------

  predicate Fit(messages: seq<seq<byte>>) {
    forall m | m in messages :: |m| <= 65535
  }

  function CursorAfterRead(key: Key, r: nat, b: seq<byte>): nat {
    Wrap(r + |b|, |key|)
  }

  /** Successive Reads, with large enough buffers, return exactly these messages. */
  predicate ReadsBack(key: Key, r: nat, incoming: seq<byte>, messages: seq<seq<byte>>)
    decreases |messages|
  {
    messages != [] ==>
      var d := Decode(key, r, incoming);
      d.frame == Some(messages[0]) && ReadsBack(key, Wrap(d.pos, |key|), d.left, messages[1..])
  }

  predicate Agrees(key: Key, w: nat, r: nat, messages: seq<seq<byte>>)
    decreases |messages|
  {
    messages != [] ==>
      && FrameAgrees(key, w, r, messages[0])
      && Agrees(key, CursorAfterWrite(key, w, messages[0]), CursorAfterRead(key, r, messages[0]), messages[1..])
  }

  lemma FirstReadsBackIff(key: Key, w: nat, r: nat, b: seq<byte>, tail: seq<byte>, messages: seq<seq<byte>>)
    requires messages != [] && messages[0] == b && |b| <= 65535
    ensures ReadsBack(key, r, Masked(Framed(b), key, w) + tail, messages) <==>
            FrameAgrees(key, w, r, b) && ReadsBack(key, CursorAfterRead(key, r, b), tail, messages[1..])
  {
    FrameReadsBackIff(key, w, r, b, tail);
  }

  /** A receiver at cursor r reads back what a sender at cursor w wrote exactly when the key stream
      agrees frame by frame. */
  lemma {:induction false} StreamReadsBackIff(key: Key, w: nat, r: nat, messages: seq<seq<byte>>)
    requires Fit(messages)
    ensures ReadsBack(key, r, Written(key, w, messages), messages) <==> Agrees(key, w, r, messages)
    decreases |messages|
  {
    if messages != [] {
      var b, rest := messages[0], messages[1..];
      assert b in messages;
      var w', r' := CursorAfterWrite(key, w, b), CursorAfterRead(key, r, b);
      var tail := Written(key, w', rest);
      FirstReadsBackIff(key, w, r, b, tail, messages);
      StreamReadsBackIff(key, w', r', rest);
    }
  }

  predicate TurnsAt(key: Key, i: nat) {
    K(key, i + HEADER) == K(key, i)
  }

  ghost predicate TurnsByFour(key: Key) {
    forall i: nat :: TurnsAt(key, i)
  }

  predicate ByteTurns(key: Key, i: nat)
    requires i < |key|
  {
    key[(i + 4) % |key|] == key[i]
  }

  /** The key is the same when turned by four bytes. */
  predicate KeyTurns(key: Key) {
    forall i | 0 <= i < |key| :: ByteTurns(key, i)
  }

  lemma TurnsWithin(key: Key, i: nat)
    requires i < |key|
    ensures TurnsAt(key, i) <==> ByteTurns(key, i)
  {
    WrapIsModulo(i + HEADER, |key|);
  }

  lemma TurnsBeyond(key: Key, x: nat)
    ensures TurnsAt(key, x) <==> TurnsAt(key, Wrap(x, |key|))
  {
    WrapAdd(x, HEADER, |key|);
  }

  /** Turning the key turns the whole periodic key stream. */
  lemma KeyTurnsIff(key: Key)
    ensures KeyTurns(key) <==> TurnsByFour(key)
  {
    hide TurnsAt, ByteTurns;
    if KeyTurns(key) {
      forall x: nat
        ensures TurnsAt(key, x)
      {
        var i := Wrap(x, |key|);
        assert ByteTurns(key, i);
        TurnsWithin(key, i);
        TurnsBeyond(key, x);
      }
    }
    if TurnsByFour(key) {
      forall i | 0 <= i < |key|
        ensures ByteTurns(key, i)
      {
        assert TurnsAt(key, i);
        TurnsWithin(key, i);
      }
    }
  }

  ghost predicate SamePhase(key: Key, w: nat, r: nat) {
    forall i: nat :: Same(key, w, r, i)
  }

  lemma PhasePassesHeader(key: Key, w: nat, r: nat)
    requires TurnsByFour(key) && SamePhase(key, w, r)
    ensures SamePhase(key, w + HEADER, r)
  {
    var w' := w + HEADER;
    forall i: nat
      ensures Same(key, w', r, i)
    {
      assert TurnsAt(key, w + i) && Same(key, w, r, i);
      assert w + HEADER + i == w + i + HEADER;
    }
  }

  lemma PhasePassesPayload(key: Key, w: nat, r: nat, n: nat)
    requires SamePhase(key, w, r)
    ensures SamePhase(key, Wrap(w + n, |key|), Wrap(r + n, |key|))
  {
    var w', r' := Wrap(w + n, |key|), Wrap(r + n, |key|);
    forall i: nat
      ensures Same(key, w', r', i)
    {
      WrapAdd(w + n, i, |key|);
      WrapAdd(r + n, i, |key|);
      assert Same(key, w, r, n + i);
      assert w + n + i == w + (n + i) && r + n + i == r + (n + i);
    }
  }

  lemma PhaseMoves(key: Key, w: nat, r: nat, n: nat)
    requires TurnsByFour(key) && SamePhase(key, w, r)
    ensures SamePhase(key, w + HEADER, r)
    ensures SamePhase(key, Wrap(w + HEADER + n, |key|), Wrap(r + n, |key|))
  {
    PhasePassesHeader(key, w, r);
    PhasePassesPayload(key, w + HEADER, r, n);
  }

  lemma PhaseServesFrame(key: Key, w: nat, r: nat, b: seq<byte>)
    requires TurnsByFour(key) && SamePhase(key, w, r)
    ensures FrameAgrees(key, w, r, b)
  {
    PhasePassesHeader(key, w, r);
  }

  lemma {:induction false} PhaseAgrees(key: Key, w: nat, r: nat, messages: seq<seq<byte>>)
    requires TurnsByFour(key) && SamePhase(key, w, r)
    ensures Agrees(key, w, r, messages)
    decreases |messages|
  {
    if messages != [] {
      PhaseMoves(key, w, r, |messages[0]|);
      PhaseAgrees(key, CursorAfterWrite(key, w, messages[0]), CursorAfterRead(key, r, messages[0]), messages[1..]);
    }
  }

  function Empties(n: nat): (r: seq<seq<byte>>)
    ensures |r| == n && forall m | m in r :: m == []
  {
    if n == 0 then [] else [[]] + Empties(n - 1)
  }

  /** Empty messages move the writer's cursor and leave the reader's where it is. */
  lemma {:induction false} EmptiesCompare(key: Key, m: nat, j: nat)
    requires Agrees(key, Wrap(HEADER * m, |key|), 0, Empties(j + 1))
    ensures KeysAgree(key, HEADER * (m + j), 0, HEADER)
    decreases j
  {
    var all := Empties(j + 1);
    assert all[0] == [] && all[1..] == Empties(j);
    if j == 0 {
      forall i: nat | i < HEADER
        ensures Same(key, HEADER * m, 0, i)
      {
        WrapAdd(HEADER * m, i, |key|);
        assert Same(key, Wrap(HEADER * m, |key|), 0, i);
      }
    } else {
      WrapAdd(HEADER * m, HEADER, |key|);
      assert CursorAfterWrite(key, Wrap(HEADER * m, |key|), []) == Wrap(HEADER * (m + 1), |key|);
      assert CursorAfterRead(key, 0, []) == 0;
      EmptiesCompare(key, m + 1, j - 1);
    }
  }

  /** Whatever a send-only end writes from cursor 0 on comes back at a receive-only end at cursor 0. */
  ghost predicate OneWayWorks(key: Key) {
    forall messages | Fit(messages) :: ReadsBack(key, 0, Written(key, 0, messages), messages)
  }

  lemma TurningKeyServesOneWay(key: Key)
    requires TurnsByFour(key)
    ensures OneWayWorks(key)
  {
    hide TurnsByFour, Fit, ReadsBack, Written, Agrees;
    forall messages | Fit(messages)
      ensures ReadsBack(key, 0, Written(key, 0, messages), messages)
    {
      PhaseAgrees(key, 0, 0, messages);
      StreamReadsBackIff(key, 0, 0, messages);
    }
  }

  lemma OneWayTurnsKey(key: Key, x: nat)
    requires OneWayWorks(key)
    ensures TurnsAt(key, x)
  {
    hide OneWayWorks;
    var m, i := x / HEADER, x % HEADER;
    EmptiesReadBack(key, m);
    EmptiesReadBack(key, m + 1);
    assert Same(key, HEADER * m, 0, i) && Same(key, HEADER * (m + 1), 0, i);
    assert HEADER * m + i == x && HEADER * (m + 1) + i == x + HEADER;
  }

  /** A receive-only end reads back whatever a send-only end writes, both from cursor 0, exactly when the
      key is the same when turned by four bytes. */
  lemma OneWayIff(key: Key)
    ensures KeyTurns(key) <==>
            forall messages | Fit(messages) :: ReadsBack(key, 0, Written(key, 0, messages), messages)
  {
    hide KeyTurns, TurnsAt, Fit, ReadsBack, Written;
    KeyTurnsIff(key);
    if TurnsByFour(key) {
      TurningKeyServesOneWay(key);
    }
    if OneWayWorks(key) {
      forall x: nat
        ensures TurnsAt(key, x)
      {
        OneWayTurnsKey(key, x);
      }
    }
  }

  lemma EmptiesReadBack(key: Key, m: nat)
    requires OneWayWorks(key)
    ensures KeysAgree(key, HEADER * m, 0, HEADER)
  {
    var all := Empties(m + 1);
    assert Fit(all);
    StreamReadsBackIff(key, 0, 0, all);
    assert Wrap(HEADER * 0, |key|) == 0;
    EmptiesCompare(key, 0, m);
  }

  // ---------- Both directions over one cursor ----------

  /** Two ends at a common cursor exchange a message each way, one after the other: the answer comes back
      and the cursors meet again. */
  predicate RoundWorks(key: Key, k: nat, ask: seq<byte>, answer: seq<byte>) {
    var near, far := CursorAfterWrite(key, k, ask), CursorAfterRead(key, k, ask);
    && Decode(key, k, Masked(Framed(ask), key, k)).frame == Some(ask)
    && Decode(key, near, Masked(Framed(answer), key, far)).frame == Some(answer)
    && CursorAfterRead(key, near, answer) == CursorAfterWrite(key, far, answer)
  }

  lemma AloneOnTheWire(key: Key, w: nat, r: nat, b: seq<byte>)
    requires |b| <= 65535
    ensures Decode(key, r, Masked(Framed(b), key, w)).frame == Some(b) <==> FrameAgrees(key, w, r, b)
  {
    FrameReadsBackIff(key, w, r, b, []);
    assert Masked(Framed(b), key, w) + [] == Masked(Framed(b), key, w);
  }

  lemma RoundWorksIfKeyTurns(key: Key, k: nat, ask: seq<byte>, answer: seq<byte>)
    requires TurnsByFour(key) && |ask| <= 65535 && |answer| <= 65535
    ensures RoundWorks(key, k, ask, answer)
  {
    hide TurnsByFour, SamePhase, FrameAgrees, Decode, Masked, Framed;
    var near, far := CursorAfterWrite(key, k, ask), CursorAfterRead(key, k, ask);
    SamePhaseIsReflexive(key, k);
    PhaseServesFrame(key, k, k, ask);
    AloneOnTheWire(key, k, k, ask);
    PhaseMoves(key, k, k, |ask|);
    SamePhaseIsSymmetric(key, near, far);
    PhaseServesFrame(key, far, near, answer);
    AloneOnTheWire(key, far, near, answer);
    CursorsMeet(key, k, |ask|, |answer|);
  }

  lemma SamePhaseIsReflexive(key: Key, k: nat)
    ensures SamePhase(key, k, k)
  {
  }

  lemma SamePhaseIsSymmetric(key: Key, w: nat, r: nat)
    requires SamePhase(key, w, r)
    ensures SamePhase(key, r, w)
  {
    forall i: nat
      ensures Same(key, r, w, i)
    {
      assert Same(key, w, r, i);
    }
  }

  lemma CursorsMeet(key: Key, k: nat, a: nat, b: nat)
    ensures Wrap(Wrap(k + HEADER + a, |key|) + b, |key|) == Wrap(Wrap(k + a, |key|) + HEADER + b, |key|)
  {
    WrapAdd(k + HEADER + a, b, |key|);
    WrapAdd(k + a, HEADER + b, |key|);
  }

  datatype Round = Round(ask: seq<byte>, answer: seq<byte>)

  predicate Fitting(rounds: seq<Round>) {
    forall r | r in rounds :: |r.ask| <= 65535 && |r.answer| <= 65535
  }

  /** The two ends' common cursor after a round that works. */
  function CursorAfterRound(key: Key, k: nat, r: Round): nat {
    CursorAfterRead(key, CursorAfterWrite(key, k, r.ask), r.answer)
  }

  predicate RoundsWork(key: Key, k: nat, rounds: seq<Round>)
    decreases |rounds|
  {
    rounds != [] ==>
      && RoundWorks(key, k, rounds[0].ask, rounds[0].answer)
      && RoundsWork(key, CursorAfterRound(key, k, rounds[0]), rounds[1..])
  }

  lemma {:induction false} RoundsWorkIfKeyTurns(key: Key, k: nat, rounds: seq<Round>)
    requires TurnsByFour(key) && Fitting(rounds)
    ensures RoundsWork(key, k, rounds)
    decreases |rounds|
  {
    hide TurnsByFour, RoundWorks;
    if rounds != [] {
      assert rounds[0] in rounds;
      RoundWorksIfKeyTurns(key, k, rounds[0].ask, rounds[0].answer);
      RoundsWorkIfKeyTurns(key, CursorAfterRound(key, k, rounds[0]), rounds[1..]);
    }
  }

  /** Empty rounds, each of which moves the common cursor by four, and then one that asks four bytes. */
  function Probe(n: nat): (r: seq<Round>)
    ensures Fitting(r) && r != []
  {
    if n == 0 then [Round([0, 0, 0, 0], [])] else [Round([], [])] + Probe(n - 1)
  }

  lemma {:induction false} ProbeCompares(key: Key, m: nat, n: nat, i: nat)
    requires RoundsWork(key, Wrap(HEADER * m, |key|), Probe(n)) && i < HEADER
    ensures TurnsAt(key, HEADER * (m + n) + i)
    decreases n
  {
    hide RoundWorks, TurnsAt;
    var k := Wrap(HEADER * m, |key|);
    if n == 0 {
      AskTurnsKey(key, HEADER * m, i);
    } else {
      assert Probe(n)[0] == Round([], []) && Probe(n)[1..] == Probe(n - 1);
      EmptyRoundMoves(key, m);
      ProbeCompares(key, m + 1, n - 1, i);
    }
  }

  lemma EmptyRoundMoves(key: Key, m: nat)
    ensures CursorAfterRound(key, Wrap(HEADER * m, |key|), Round([], [])) == Wrap(HEADER * (m + 1), |key|)
  {
    WrapAdd(HEADER * m, HEADER, |key|);
    WrapAdd(Wrap(HEADER * m, |key|) + HEADER, 0, |key|);
  }

  lemma AskTurnsKey(key: Key, x: nat, i: nat)
    requires RoundWorks(key, Wrap(x, |key|), [0, 0, 0, 0], []) && i < HEADER
    ensures TurnsAt(key, x + i)
  {
    hide Decode, Masked, Framed;
    var k := Wrap(x, |key|);
    AloneOnTheWire(key, k, k, [0, 0, 0, 0]);
    assert Same(key, k + HEADER, k, i);
    WrapAdd(x, i, |key|);
    WrapAdd(x, HEADER + i, |key|);
    assert k + HEADER + i == k + (HEADER + i) && x + i + HEADER == x + (HEADER + i);
  }

  /** Strictly alternating use of both directions works, for any sequence of rounds from cursor 0 on (and
      then from any common cursor), for the same keys. */
  lemma AlternatingIff(key: Key)
    ensures KeyTurns(key) <==> forall rounds | Fitting(rounds) :: RoundsWork(key, 0, rounds)
    ensures KeyTurns(key) ==> forall k: nat, rounds | Fitting(rounds) :: RoundsWork(key, k, rounds)
  {
    hide KeyTurns, TurnsAt, RoundsWork;
    KeyTurnsIff(key);
    if TurnsByFour(key) {
      forall k: nat, rounds | Fitting(rounds)
        ensures RoundsWork(key, k, rounds)
      {
        RoundsWorkIfKeyTurns(key, k, rounds);
      }
    }
    if forall rounds | Fitting(rounds) :: RoundsWork(key, 0, rounds) {
      forall x: nat
        ensures TurnsAt(key, x)
      {
        var n, i := x / HEADER, x % HEADER;
        assert Wrap(HEADER * 0, |key|) == 0;
        ProbeCompares(key, 0, n, i);
        assert HEADER * (0 + n) + i == x;
      }
    }
  }

  /** All bytes of the key are equal. */
  ghost predicate ConstantKey(key: Key) {
    forall i | 0 <= i < |key| :: key[i] == key[0]
  }

  /** An end that has written something before it reads what its peer wrote at the same time reads it back,
      whatever was written, exactly when all bytes of the key are equal: the two directions share one
      cursor and move it differently. */
  lemma CrossingIff(key: Key)
    ensures ConstantKey(key) <==>
            forall own: seq<byte>, b | |b| <= 65535 ::
              Decode(key, CursorAfterWrite(key, 0, own), Masked(Framed(b), key, 0)).frame == Some(b)
  {
    if ConstantKey(key) {
      forall own: seq<byte>, b: seq<byte> | |b| <= 65535
        ensures Decode(key, CursorAfterWrite(key, 0, own), Masked(Framed(b), key, 0)).frame == Some(b)
      {
        AloneOnTheWire(key, 0, CursorAfterWrite(key, 0, own), b);
      }
    }
    if forall own: seq<byte>, b | |b| <= 65535 ::
         Decode(key, CursorAfterWrite(key, 0, own), Masked(Framed(b), key, 0)).frame == Some(b)
    {
      forall x: nat | x < |key|
        ensures key[x] == key[0]
      {
        var own: seq<byte> := seq(|key| * 4 + x - HEADER, _ => 0);
        assert Decode(key, CursorAfterWrite(key, 0, own), Masked(Framed([]), key, 0)).frame == Some([]);
        EmptyFrameCompares(key, x, own);
      }
    }
  }

  lemma EmptyFrameCompares(key: Key, x: nat, own: seq<byte>)
    requires x < |key| && |own| == |key| * 4 + x - HEADER
    requires Decode(key, CursorAfterWrite(key, 0, own), Masked(Framed([]), key, 0)).frame == Some([])
    ensures key[x] == key[0]
  {
    WrapTimes(4, x, |key|);
    assert CursorAfterWrite(key, 0, own) == x;
    AloneOnTheWire(key, 0, x, []);
    assert Same(key, 0, x, 0);
  }
}
