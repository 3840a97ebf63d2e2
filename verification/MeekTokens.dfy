/** The buffers of the meek relay: each is always in one place, of the size its place says. */
module MeekTokens {
  import opened Bytes
  import opened MeekPadding
  import opened MeekRelay

  // ---------------------------------------------------------------- buffer tokens

  function Held(relay: Relay): Option<bytes> {
    if relay.InRound? then relay.r.held else None
  }

  /** The send buffer is in exactly one channel or held by exactly one party; it is dropped only in
      closing. */
  ghost predicate SendToken(s: SendSide, held: Option<bytes>, mayBeGone: bool) {
    && (forall k: Class :: s.ch.Slot(k).Some? <==> s.place == In(k))
    && (forall id | id in s.writers :: s.writers[id].Holds? <==> s.place == WithUser(id))
    && (s.place.WithUser? ==> s.place.id in s.writers)
    && (held.Some? <==> s.place.WithRelay?)
    && (s.place.Gone? ==> mayBeGone)
  }

  /** The length of the send buffer is that of the class of its channel. */
  ghost predicate SendSizes(c: Config, s: SendSide, held: Option<bytes>) {
    var p := |Placeholder(c)|;
    && (s.ch.empty.Some? ==> s.ch.empty.value == Placeholder(c))
    && (s.ch.partial.Some? ==> p < |s.ch.partial.value| < c.limit)
    && (s.ch.full.Some? ==> p < |s.ch.full.value| == c.limit)
    && (forall id | id in s.writers ::
          s.writers[id].rest != [] && (s.writers[id].Holds? ==> p <= |s.writers[id].buffer| < c.limit))
    && (held.Some? ==> p < |held.value| <= c.limit)
  }

  ghost predicate SendOk(c: Config, s: SendSide, held: Option<bytes>, mayBeGone: bool) {
    SendToken(s, held, mayBeGone) && SendSizes(c, s, held)
  }

  /** Once acknowledged, a round holds no send buffer; only an acknowledged round reads a response. */
  predicate RoundShape(relay: Relay) {
    relay.InRound? ==>
      && (relay.r.acked ==> relay.r.held.None? && relay.r.arrived)
      && (relay.r.stage.Reading? || relay.r.stage == Failed(false) ==> relay.r.acked)
      && (relay.r.stage.Sending? && relay.r.arrived ==> relay.r.tries > 0)
  }

  ghost predicate SendInv(c: Config, w: World) {
    RoundShape(w.relay) && SendOk(c, w.send, Held(w.relay), w.closed && w.relay.Stopped?)
  }

  predicate SameRequest(r: Round, r': Round) {
    && r'.body == r.body && r'.pad == r.pad && r'.payload == r.payload && r'.held == r.held
    && r'.acked == r.acked && r'.arrived == r.arrived && r'.start == r.start
  }

  /** Starting on a response body touches only the relay's own progress. */
  predicate OnlyRelayMoves(w: World, w': World) {
    && w'.recv == w.recv && w'.send == w.send && w'.srv == w.srv && w'.sent == w.sent
    && w'.requestPos == w.requestPos && w'.closed == w.closed
    && w.relay.InRound?
    && (w'.relay.InRound? ==> SameRequest(w.relay.r, w'.relay.r) && !w'.relay.r.stage.Failed?)
  }

  lemma ReceiveFrame(c: Config, w: World, r: Round, got: bytes, end: End)
    requires w.relay == InRound(r) && r.held.None? && r.acked && r.arrived
    ensures var w' := Receive(c, w, r, got, end);
      OnlyRelayMoves(w, w') && Held(w'.relay).None? && RoundShape(w'.relay)
  {
  }

  /** The send side and the readers see nothing of a step, or get a held send buffer back. */
  predicate AttemptMoves(c: Config, w: World, w': World) {
    && w'.recv == w.recv && w'.requestPos == w.requestPos && w'.closed == w.closed
    && (|| (w'.relay.InRound? && Held(w'.relay) == Held(w.relay) && w'.send == w.send)
        || (Held(w'.relay).None? && w'.send == if Held(w.relay).Some? then ReplaceTruncated(c, w.send) else w.send))
  }

  lemma StatusFrame(c: Config, w: World, srv: Server, got: bytes, end: End)
    requires w.relay.InRound?
    ensures var w2 := Acknowledge(c, Answer(w, srv));
      var w' := Receive(c, w2, w2.relay.r, got, end);
      AttemptMoves(c, w, w') && RoundShape(w'.relay)
  {
    var w2 := Acknowledge(c, Answer(w, srv));
    ReceiveFrame(c, w2, w2.relay.r, got, end);
  }

  /** What a request attempt leaves alone: it either changes nothing on the send side, or gives a
      held send buffer back. */
  lemma AttemptFrame(c: Config, w: World, net: Network)
    requires Enabled(c, w, Attempt(net))
    ensures AttemptMoves(c, w, AfterAttempt(c, w, w.relay.r, net))
    ensures RoundShape(w.relay) ==> RoundShape(AfterAttempt(c, w, w.relay.r, net).relay)
  {
    var r := w.relay.r;
    if net.Answered? && net.seen.Got? {
      var (srv, reply) := Serve(c, w.srv, RequestBody(r), Range(r), net.pump);
      if reply.Body? {
        StatusFrame(c, w, srv, reply.body[..net.seen.m], net.seen.end);
      }
    }
  }

  lemma ReplaceKeepsSendOk(c: Config, s: SendSide, held: Option<bytes>, mayBeGone: bool)
    requires ValidConfig(c) && SendOk(c, s, held, mayBeGone) && held.Some?
    ensures SendOk(c, ReplaceTruncated(c, s), None, mayBeGone)
  {
  }

  lemma WriterPutKeepsSendOk(c: Config, s: SendSide, id: nat, held: Option<bytes>, mayBeGone: bool)
    requires ValidConfig(c) && SendOk(c, s, held, mayBeGone) && id in s.writers && s.writers[id].Holds?
    ensures SendOk(c, PutWritten(c, s, id), held, mayBeGone)
  {
  }

  lemma StartRoundKeepsSendInv(c: Config, w: World, k: Class)
    requires ValidConfig(c) && SendInv(c, w) && Enabled(c, w, RelayTake(k))
    ensures SendInv(c, StartRound(c, w, k))
  {
    var s := w.send.(ch := w.send.ch.Set(k, None), place := WithRelay);
    assert SendOk(c, s, w.send.ch.Slot(k), false);
  }

  lemma WriterStepKeepsSendInv(c: Config, w: World, s: Step)
    requires ValidConfig(c) && SendInv(c, w) && Enabled(c, w, s)
    requires s.BeginWrite? || s.WriterTake? || s.WriterPut?
    ensures SendInv(c, Apply(c, w, s))
  {
    if s.WriterPut? {
      WriterPutKeepsSendOk(c, w.send, s.id, Held(w.relay), w.closed && w.relay.Stopped?);
    }
  }

  lemma EndRoundKeepsSendInv(c: Config, w: World, s: Step)
    requires ValidConfig(c) && SendInv(c, w) && Enabled(c, w, s) && (s.GiveUp? || s.Abort?)
    ensures SendInv(c, Apply(c, w, s))
  {
    if Held(w.relay).Some? {
      ReplaceKeepsSendOk(c, w.send, Held(w.relay), w.closed && w.relay.Stopped?);
    }
  }

  /** Every step keeps the send buffer in one place, of the right size. */
  lemma SendInvKept(c: Config, w: World, s: Step)
    requires ValidConfig(c) && SendInv(c, w) && Enabled(c, w, s)
    ensures SendInv(c, Apply(c, w, s))
  {
    if s.BeginWrite? || s.WriterTake? || s.WriterPut? {
      WriterStepKeepsSendInv(c, w, s);
    } else if s.GiveUp? || s.Abort? {
      EndRoundKeepsSendInv(c, w, s);
    } else if s.RelayTake? {
      StartRoundKeepsSendInv(c, w, s.k);
    } else if s.Attempt? {
      AttemptFrame(c, w, s.net);
      if Held(w.relay).Some? {
        ReplaceKeepsSendOk(c, w.send, Held(w.relay), false);
      }
    }
  }

  // ---------------------------------------------------------------- request bodies

  /** The longest request body: a full send buffer, or a poll with the most padding. */
  function LongestBody(c: Config): nat {
    if c.padded && PADDING_HEADER_SIZE + c.maxPadding > c.limit then PADDING_HEADER_SIZE + c.maxPadding else c.limit
  }

  predicate BodyFits(c: Config, relay: Relay) {
    relay.InRound? ==> |relay.r.body| <= LongestBody(c)
  }

  /** The response to a request changes nothing in the request. */
  lemma AttemptKeepsBody(c: Config, w: World, net: Network)
    requires Enabled(c, w, Attempt(net))
    ensures var w' := AfterAttempt(c, w, w.relay.r, net); w'.relay.InRound? ==> w'.relay.r.body == w.relay.r.body
  {
    var r := w.relay.r;
    if net.Answered? && net.seen.Got? {
      var (srv, reply) := Serve(c, w.srv, RequestBody(r), Range(r), net.pump);
      if reply.Body? {
        var w2 := Acknowledge(c, Answer(w, srv));
        ReceiveFrame(c, w2, w2.relay.r, reply.body[..net.seen.m], net.seen.end);
      }
    }
  }

  /** Every step keeps request bodies within the longest one. */
  lemma BodyFitsKept(c: Config, w: World, s: Step)
    requires ValidConfig(c) && SendInv(c, w) && BodyFits(c, w.relay) && Enabled(c, w, s)
    ensures BodyFits(c, Apply(c, w, s).relay)
  {
    if s.Attempt? {
      AttemptKeepsBody(c, w, s.net);
    }
  }

  lemma {:induction false} RunKeepsBodies(c: Config, w: World, run: seq<Step>)
    requires ValidConfig(c) && SendInv(c, w) && BodyFits(c, w.relay) && ValidRun(c, w, run)
    ensures BodyFits(c, Exec(c, w, run).relay)
    decreases |run|
  {
    if run != [] {
      SendInvKept(c, w, run[0]);
      BodyFitsKept(c, w, run[0]);
      RunKeepsBodies(c, Apply(c, w, run[0]), run[1..]);
    }
  }

  // ---------------------------------------------------------------- receive buffer

  ghost predicate ReceiveToken(s: ReceiveSide) {
    && (forall k: Class :: s.ch.Slot(k).Some? <==> s.place == In(k))
    && (forall id :: id in s.readers <==> s.place == WithUser(id))
    && (s.relay.Some? <==> s.place.WithRelay?)
    && !s.place.Gone?
  }

  ghost predicate ReceiveSizes(c: Config, s: ReceiveSide) {
    && (s.ch.empty.Some? ==> s.ch.empty.value == [])
    && (s.ch.partial.Some? ==> 0 < |s.ch.partial.value| < c.fullReceive)
    && (s.ch.full.Some? ==> c.fullReceive <= |s.ch.full.value|)
  }

  function ReceiveBuffer(s: ReceiveSide): bytes {
    match s.place
    case In(k) => if s.ch.Slot(k).Some? then s.ch.Slot(k).value else []
    case WithUser(id) => if id in s.readers then s.readers[id] else []
    case WithRelay => if s.relay.Some? then s.relay.value else []
    case Gone => []
  }

  ghost predicate ReceiveOk(c: Config, s: ReceiveSide) {
    ReceiveToken(s) && ReceiveSizes(c, s) && s.delivered == s.readOut + ReceiveBuffer(s)
  }

  ghost predicate ReceiveInv(c: Config, w: World) {
    && ReceiveOk(c, w.recv)
    && (w.recv.relay.Some? ==> w.relay.InRound? && w.relay.r.stage.Reading?)
  }

  lemma PutReadKeepsReceiveOk(c: Config, s: ReceiveSide, id: nat, size: nat)
    requires ValidConfig(c) && ReceiveOk(c, s) && id in s.readers
    ensures ReceiveOk(c, PutRead(c, s, id, size))
  {
    var buffer := s.readers[id];
    var n := ReadLength(buffer, size);
    assert buffer == buffer[..n] + buffer[n..];
  }

  lemma FillKeepsReceiveInv(c: Config, w: World)
    requires ValidConfig(c) && ReceiveInv(c, w) && Enabled(c, w, RelayFillReceive)
    ensures ReceiveInv(c, FillReceive(c, w, w.relay.r))
  {
    var part := NextChunk(c, w.relay.r.stage.left);
    assert w.recv.readOut + ReceiveBuffer(w.recv) + part == w.recv.readOut + (ReceiveBuffer(w.recv) + part);
  }

  lemma ReceiveInvKept(c: Config, w: World, s: Step)
    requires ValidConfig(c) && ReceiveInv(c, w) && Enabled(c, w, s)
    ensures ReceiveInv(c, Apply(c, w, s))
  {
    match s
    case ReaderTake(id, k) =>
    case ReaderPut(id, size) => PutReadKeepsReceiveOk(c, w.recv, id, size);
    case RelayTakeReceive(k) =>
    case RelayFillReceive => FillKeepsReceiveInv(c, w);
    case Attempt(net) => AttemptFrame(c, w, net);
    case _ =>
  }

  // ---------------------------------------------------------------- what the tokens promise

  /** The configured payload limit: traffic shaping picks it between two parameters. */
  function RequestPayloadLimit(shaped: bool, padded: bool, minLength: int, maxLength: int, pick: nat): (limit: nat) {
    if !shaped then MAX_REQUEST_PAYLOAD_LENGTH
    else
      var limit := RandomRange(CapLength(minLength), CapLength(maxLength), pick);
      if padded && limit == PREFIX_SIZE then limit + 1 else limit
  }

  function CapLength(length: int): int {
    if length > MAX_REQUEST_PAYLOAD_LENGTH then MAX_REQUEST_PAYLOAD_LENGTH else length
  }

  /** A random integer in [min, max], or min if the range is empty. */
  function RandomRange(min: int, max: int, pick: nat): (n: nat) {
    var min' := if min < 0 then 0 else min;
    if max < min' then min' else min' + pick % (max - min' + 1)
  }

  /** Every limit that can be picked leaves room for the prefix and a payload byte, and stays
      within the server's maximum, exactly if the configured minimum is positive. */
  lemma LimitSuffices(shaped: bool, padded: bool, minLength: int, maxLength: int)
    ensures (forall pick: nat ::
               (if padded then PREFIX_SIZE + 1 else 1)
               <= RequestPayloadLimit(shaped, padded, minLength, maxLength, pick) <= MAX_REQUEST_PAYLOAD_LENGTH)
            <==> !shaped || minLength >= 1
  {
    if shaped && minLength < 1 {
      assert RequestPayloadLimit(shaped, padded, minLength, maxLength, 0) < (if padded then PREFIX_SIZE + 1 else 1);
    }
  }

  /** One turn of the Write loop accepts a non-empty part from the front of what is left to write, and
      the call ends exactly when nothing is left. */
  lemma WriteTurn(c: Config, s: SendSide, id: nat, held: Option<bytes>, mayBeGone: bool)
    requires ValidConfig(c) && SendOk(c, s, held, mayBeGone) && id in s.writers && s.writers[id].Holds?
    ensures var s' := PutWritten(c, s, id);
      var left := if id in s'.writers then s'.writers[id].rest else [];
      && s.accepted < s'.accepted && s'.accepted + left == s.accepted + s.writers[id].rest
      && (id !in s'.writers <==> left == [])
      && (forall i :: i in s.writers && i != id ==> i in s'.writers && s'.writers[i] == s.writers[i])
  {
    var rest := s.writers[id].rest;
    var n := WriteLength(c, s.writers[id].buffer, rest);
    assert rest == rest[..n] + rest[n..];
  }

  /** In every state with the invariants, no party that holds a buffer can block in putting it
      back, a writer that takes the buffer appends to it, and the relay never finds a send buffer
      without a payload byte. */
  ghost predicate NeverBlocks(c: Config, w: World) {
    && (forall id | id in w.send.writers && w.send.writers[id].Holds? ::
          && Enabled(c, w, WriterPut(id))
          && WriteLength(c, w.send.writers[id].buffer, w.send.writers[id].rest) >= 1)
    && CanReplaceSend(w)
    && (forall id, size: nat | id in w.recv.readers :: Enabled(c, w, ReaderPut(id, size)))
    && (w.recv.relay.Some? ==> Enabled(c, w, RelayFillReceive))
    && (forall k | Enabled(c, w, RelayTake(k)) && !w.closed :: StartRound(c, w, k).relay.InRound?)
  }

  lemma WriterNeverBlocks(c: Config, w: World, id: nat)
    requires ValidConfig(c) && SendInv(c, w) && id in w.send.writers && w.send.writers[id].Holds?
    ensures Enabled(c, w, WriterPut(id)) && WriteLength(c, w.send.writers[id].buffer, w.send.writers[id].rest) >= 1
  {
    assert w.send.place == WithUser(id);
  }

  lemma RelayNeverBlocks(c: Config, w: World)
    requires ValidConfig(c) && SendInv(c, w)
    ensures CanReplaceSend(w)
    ensures forall k | Enabled(c, w, RelayTake(k)) && !w.closed :: StartRound(c, w, k).relay.InRound?
  {
    assert w.send.ch.Slot(Empty).Some? <==> w.send.place == In(Empty);
  }

  lemma ReceiveNeverBlocks(c: Config, w: World)
    requires ValidConfig(c) && ReceiveInv(c, w)
    ensures forall id, size: nat | id in w.recv.readers :: Enabled(c, w, ReaderPut(id, size))
    ensures w.recv.relay.Some? ==> Enabled(c, w, RelayFillReceive)
  {
    forall id, size: nat | id in w.recv.readers
      ensures Enabled(c, w, ReaderPut(id, size))
    {
      assert w.recv.place == WithUser(id);
    }
  }

  lemma InvariantsNeverBlock(c: Config, w: World)
    requires ValidConfig(c) && SendInv(c, w) && ReceiveInv(c, w)
    ensures NeverBlocks(c, w)
  {
    forall id | id in w.send.writers && w.send.writers[id].Holds?
      ensures Enabled(c, w, WriterPut(id)) && WriteLength(c, w.send.writers[id].buffer, w.send.writers[id].rest) >= 1
    {
      WriterNeverBlocks(c, w, id);
    }
    RelayNeverBlocks(c, w);
    ReceiveNeverBlocks(c, w);
  }

  lemma {:induction false} RunKeepsTokens(c: Config, w: World, run: seq<Step>)
    requires ValidConfig(c) && SendInv(c, w) && ReceiveInv(c, w) && ValidRun(c, w, run)
    ensures SendInv(c, Exec(c, w, run)) && ReceiveInv(c, Exec(c, w, run))
    decreases |run|
  {
    if run != [] {
      SendInvKept(c, w, run[0]);
      ReceiveInvKept(c, w, run[0]);
      RunKeepsTokens(c, Apply(c, w, run[0]), run[1..]);
    }
  }

  /** Buffer tokens: in every run, under every network behaviour, each buffer is in exactly one
      channel or with exactly one party, of the length its channel says; the send buffer is dropped
      only in closing; and nobody ever blocks with a buffer in hand. */
  lemma BufferTokens(c: Config, run: seq<Step>)
    requires ValidConfig(c) && ValidRun(c, Init(c), run)
    ensures var w := Exec(c, Init(c), run);
      && SendToken(w.send, Held(w.relay), w.closed) && SendSizes(c, w.send, Held(w.relay))
      && ReceiveToken(w.recv) && ReceiveSizes(c, w.recv)
      && NeverBlocks(c, w)
  {
    RunKeepsTokens(c, Init(c), run);
    InvariantsNeverBlock(c, Exec(c, Init(c), run));
  }
}
