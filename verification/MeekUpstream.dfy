/** Upstream delivery of the meek relay: what the server passes on is a prefix of what Write has
    accepted, each byte once and in order, as long as no request body has the checksum of the one
    before it. */
module MeekUpstream {
  import opened Bytes
  import opened MeekPadding
  import opened MeekRelay
  import opened MeekTokens

  function SendBuffer(s: SendSide, held: Option<bytes>): bytes {
    match s.place
    case In(k) => if s.ch.Slot(k).Some? then s.ch.Slot(k).value else []
    case WithUser(id) => if id in s.writers && s.writers[id].Holds? then s.writers[id].buffer else []
    case WithRelay => if held.Some? then held.value else []
    case Gone => []
  }

  /** The request body of a round is the payload of the send buffer it took, behind a padding
      header at the client's cipher position, and within the size limits. */
  ghost predicate RequestOk(c: Config, r: Round, requestPos: nat) {
    && ValidPadding(r.pad) && PreambleSize(r.pad) <= requestPos
    && r.body == Header(c.requestCipher, requestPos - PreambleSize(r.pad), r.pad) + r.payload
    && (if c.padded then r.pad.Bare? == (r.payload != []) else r.pad.Omitted?)
    && |r.body| <= MAX_REQUEST_PAYLOAD_LENGTH && (r.payload != [] ==> |r.body| <= c.limit)
    && (r.held.Some? ==> r.payload == Payload(c, r.held.value))
    && (r.held.None? && !r.acked ==> r.payload == [])
  }

  /** The server has passed on the round's payload, and moved its cipher on, exactly when a request
      of the round has reached it. */
  ghost predicate ServerInStep(c: Config, w: World, r: Round)
    requires PreambleSize(r.pad) <= w.requestPos
  {
    && w.srv.relayed == (if r.arrived && !r.acked then w.sent + r.payload else w.sent)
    && w.srv.requestRx == Receiver(if r.arrived then w.requestPos else w.requestPos - PreambleSize(r.pad), Prefix)
    && (r.arrived && r.body != [] ==> w.srv.last == Some(c.checksum(r.body)))
    && (w.srv.deleted ==> r.arrived && !r.stage.Reading? && r.stage != Failed(false))
  }

  ghost predicate UpInv(c: Config, w: World) {
    if w.relay.Stopped? then w.srv.relayed <= w.send.accepted
    else
      && w.send.accepted == w.sent + Payload(c, SendBuffer(w.send, Held(w.relay)))
      && if w.relay.Idle? then
           && w.srv.relayed == w.sent && !w.srv.deleted
           && w.srv.requestRx == Receiver(w.requestPos, Prefix)
         else
           RequestOk(c, w.relay.r, w.requestPos) && ServerInStep(c, w, w.relay.r)
  }

  /** The first request of a round to reach the server carries a body with the checksum of the
      last body the server took: the server takes it for a repeat. */
  predicate Collision(c: Config, w: World, s: Step) {
    && s.Attempt? && s.net.Answered? && w.relay.InRound? && !w.relay.r.arrived
    && w.relay.r.body != [] && w.srv.last == Some(c.checksum(w.relay.r.body))
  }

  /** pumpReads takes a new body whole: its payload is passed on and the ciphers are in step. */
  lemma PumpReadsTakes(c: Config, srv: Server, r: Round, requestPos: nat)
    requires ValidConfig(c) && RequestOk(c, r, requestPos) && !Skips(c, srv, r.body)
    requires srv.requestRx == Receiver(requestPos - PreambleSize(r.pad), Prefix)
    ensures PumpReads(c, srv, r.body)
         == (srv.(last := Some(c.checksum(r.body)), requestRx := Receiver(requestPos, Prefix),
                  relayed := srv.relayed + r.payload), true)
  {
    if c.padded {
      assert !r.pad.Omitted?;
      HeaderRoundTrip(c.requestCipher, requestPos - PreambleSize(r.pad), r.pad, r.payload, Eof);
    } else {
      assert r.body == r.payload;
    }
  }

  /** The request side of the handler is pumpReads, unless the session is gone. */
  lemma ServeRequestSide(c: Config, srv: Server, body: bytes, range: Option<nat>, pump: Pump)
    requires ValidPump(c, srv, pump)
    ensures var (srv', reply) := Serve(c, srv, body, range, pump);
      var srv1 := if srv.deleted then srv else PumpReads(c, srv, body).0;
      && srv'.last == srv1.last && srv'.requestRx == srv1.requestRx && srv'.relayed == srv1.relayed
      && (srv'.deleted <==> reply.NotFound?)
  {
  }

  /** The request side of a round that reaches the server for the first time with a new body. */
  lemma ServeTakes(c: Config, w: World, pump: Pump)
    requires ValidConfig(c) && UpInv(c, w) && w.relay.InRound? && ValidPump(c, w.srv, pump)
    requires !w.relay.r.arrived && !w.relay.r.acked && !Skips(c, w.srv, w.relay.r.body)
    ensures var r := w.relay.r;
      var srv := Serve(c, w.srv, RequestBody(r), Range(r), pump).0;
      srv.relayed == w.sent + r.payload && srv.requestRx == Receiver(w.requestPos, Prefix)
      && srv.last == Some(c.checksum(r.body))
  {
    var r := w.relay.r;
    ServeRequestSide(c, w.srv, RequestBody(r), Range(r), pump);
    PumpReadsTakes(c, w.srv, r, w.requestPos);
  }

  /** Later requests of a round, and bodies taken for a repeat, change nothing on the request side. */
  lemma ServeSkips(c: Config, w: World, pump: Pump)
    requires UpInv(c, w) && RoundShape(w.relay) && w.relay.InRound? && ValidPump(c, w.srv, pump)
    requires w.relay.r.arrived || Skips(c, w.srv, w.relay.r.body)
    ensures var r := w.relay.r;
      var srv := Serve(c, w.srv, RequestBody(r), Range(r), pump).0;
      srv.relayed == w.srv.relayed && srv.requestRx == w.srv.requestRx && srv.last == w.srv.last
  {
    var r := w.relay.r;
    ServeRequestSide(c, w.srv, RequestBody(r), Range(r), pump);
    assert PumpReads(c, w.srv, RequestBody(r)) == (w.srv, true);
  }

  /** A request that reaches the server leaves the server in step exactly if it is no collision. */
  lemma ServeUpstream(c: Config, w: World, pump: Pump, seen: Seen)
    requires ValidConfig(c) && UpInv(c, w) && RoundShape(w.relay) && Enabled(c, w, Attempt(Answered(pump, seen)))
    ensures var r := w.relay.r;
      var srv := Serve(c, w.srv, RequestBody(r), Range(r), pump).0;
      var reply := Serve(c, w.srv, RequestBody(r), Range(r), pump).1;
      && (ServerInStep(c, Answer(w, srv), Answer(w, srv).relay.r) <==> !Collision(c, w, Attempt(Answered(pump, seen))))
      && (srv.deleted <==> reply.NotFound?)
      && (Collision(c, w, Attempt(Answered(pump, seen))) ==>
            srv.relayed == w.sent && srv.requestRx == w.srv.requestRx)
  {
    var r := w.relay.r;
    var srv := Serve(c, w.srv, RequestBody(r), Range(r), pump).0;
    ServeRequestSide(c, w.srv, RequestBody(r), Range(r), pump);
    if !r.arrived && !Skips(c, w.srv, r.body) {
      ServeTakes(c, w, pump);
    } else {
      ServeSkips(c, w, pump);
    }
    AnswerInStep(c, w, srv);
  }

  /** What it takes for the server to be in step after a request of the round has reached it. */
  lemma AnswerInStep(c: Config, w: World, srv: Server)
    requires UpInv(c, w) && w.relay.InRound? && w.relay.r.stage.Sending?
    ensures var r := w.relay.r;
      && (r.body != [] ==> r.pad.Omitted? ==> r.payload != [])
      && (ServerInStep(c, Answer(w, srv), Answer(w, srv).relay.r) <==>
            && srv.relayed == (if !r.acked then w.sent + r.payload else w.sent)
            && srv.requestRx == Receiver(w.requestPos, Prefix)
            && (r.body != [] ==> srv.last == Some(c.checksum(r.body))))
  {
  }

  /** After the acknowledgement the upstream side no longer depends on how the response goes on. */
  lemma OnlyRelayMovesUpstream(c: Config, w: World, w': World)
    requires OnlyRelayMoves(w, w') && w.relay.r.acked && w.relay.r.arrived && w.relay.r.held.None? && !w.srv.deleted
    requires RequestOk(c, w.relay.r, w.requestPos)
    ensures UpInv(c, w) ==> UpInv(c, w')
    ensures !w'.relay.Stopped? && UpInv(c, w') ==>
              w.srv.relayed == w.sent && w.srv.requestRx == Receiver(w.requestPos, Prefix)
  {
    assert UpInv(c, w) ==> w.sent <= w.send.accepted;
  }

  /** The acknowledgement makes the round's payload count as sent, and empties the send buffer. */
  lemma AcknowledgeSend(c: Config, w: World)
    requires SendToken(w.send, Held(w.relay), false) && RequestOkHeld(c, w.relay)
    requires w.send.accepted == w.sent + Payload(c, SendBuffer(w.send, Held(w.relay)))
    ensures var w' := Acknowledge(c, w);
      w'.send.accepted == w'.sent + Payload(c, SendBuffer(w'.send, Held(w'.relay)))
  {
    assert Payload(c, Placeholder(c)) == [];
  }

  /** The payload of a round is that of the send buffer it holds until the acknowledgement. */
  predicate RequestOkHeld(c: Config, relay: Relay) {
    && relay.InRound?
    && (relay.r.acked ==> relay.r.held.None?)
    && (relay.r.held.Some? ==> relay.r.payload == Payload(c, relay.r.held.value))
    && (relay.r.held.None? && !relay.r.acked ==> relay.r.payload == [])
  }

  lemma AcknowledgeUpstream(c: Config, w: World)
    requires SendToken(w.send, Held(w.relay), false)
    requires w.relay.InRound? && w.relay.r.arrived && !w.srv.deleted && (w.relay.r.acked ==> w.relay.r.held.None?)
    requires RequestOk(c, w.relay.r, w.requestPos)
    requires w.send.accepted == w.sent + Payload(c, SendBuffer(w.send, Held(w.relay)))
    ensures var w' := Acknowledge(c, w);
      && RequestOk(c, w'.relay.r, w'.requestPos)
      && (ServerInStep(c, w, w.relay.r) && !w.relay.r.stage.Failed? ==> UpInv(c, w'))
      && w'.sent == w.sent + (if w.relay.r.acked then [] else w.relay.r.payload)
  {
    AcknowledgeSend(c, w);
  }

  /** A status code and the start of a response, from a server in any state srv. */
  lemma StatusUpstream(c: Config, w: World, srv: Server, got: bytes, end: End)
    requires ValidConfig(c) && SendInv(c, w) && UpInv(c, w) && w.relay.InRound? && w.relay.r.stage.Sending?
    requires !srv.deleted
    ensures var r := w.relay.r;
      var w2 := Acknowledge(c, Answer(w, srv));
      var w' := Receive(c, w2, w2.relay.r, got, end);
      && (ServerInStep(c, Answer(w, srv), Answer(w, srv).relay.r) ==> UpInv(c, w'))
      && (!w'.relay.Stopped? && UpInv(c, w') ==>
            && srv.relayed == w.sent + (if r.acked then [] else r.payload)
            && srv.requestRx == Receiver(w.requestPos, Prefix))
  {
    var w1 := Answer(w, srv);
    assert RequestOk(c, w1.relay.r, w.requestPos);
    AcknowledgeUpstream(c, w1);
    var w2 := Acknowledge(c, w1);
    ReceiveFrame(c, w2, w2.relay.r, got, end);
    OnlyRelayMovesUpstream(c, w2, Receive(c, w2, w2.relay.r, got, end));
  }

  /** An attempt that brings a status code. */
  lemma GotUpstream(c: Config, w: World, pump: Pump, m: nat, end: End)
    requires ValidConfig(c) && SendInv(c, w) && UpInv(c, w) && Enabled(c, w, Attempt(Answered(pump, Got(m, end))))
    ensures var s := Attempt(Answered(pump, Got(m, end)));
      var w' := AfterAttempt(c, w, w.relay.r, s.net);
      && (!Collision(c, w, s) ==> UpInv(c, w'))
      && (Collision(c, w, s) && !w'.relay.Stopped? ==> !UpInv(c, w'))
  {
    var r := w.relay.r;
    ServeUpstream(c, w, pump, Got(m, end));
    var (srv, reply) := Serve(c, w.srv, RequestBody(r), Range(r), pump);
    if reply.Body? {
      StatusUpstream(c, w, srv, reply.body[..m], end);
    }
  }

  /** The upstream invariant looks only at the send side, the server, and the round's request. */
  lemma SameUpstream(c: Config, w: World, w': World)
    requires UpInv(c, w) && w'.send == w.send && w'.srv == w.srv && w'.sent == w.sent && w'.requestPos == w.requestPos
    requires || w'.relay == w.relay
             || (&& w.relay.InRound? && w'.relay.InRound? && SameRequest(w.relay.r, w'.relay.r)
                 && (!w.srv.deleted || w'.relay.r.stage.Sending? || w'.relay.r.stage == Failed(true)))
             || (&& w.relay.InRound? && w'.relay.Idle? && w.relay.r.acked && w.relay.r.arrived
                 && Held(w.relay).None? && !w.srv.deleted)
    ensures UpInv(c, w')
  {
    assert Held(w'.relay) == Held(w.relay);
  }

  /** A request that reached the server, without an answer. */
  lemma LostUpstream(c: Config, w: World, srv: Server)
    requires UpInv(c, w) && w.relay.InRound? && w.relay.r.stage.Sending?
    ensures var w' := w.(srv := srv, relay := InRound(w.relay.r.(arrived := true, stage := Failed(true))));
      UpInv(c, w') <==> ServerInStep(c, Answer(w, srv), Answer(w, srv).relay.r)
  {
  }

  /** A request attempt keeps the upstream invariant exactly if it is no collision. */
  lemma AttemptUpstream(c: Config, w: World, net: Network)
    requires ValidConfig(c) && SendInv(c, w) && UpInv(c, w) && Enabled(c, w, Attempt(net))
    ensures var w' := AfterAttempt(c, w, w.relay.r, net);
      && (!Collision(c, w, Attempt(net)) ==> UpInv(c, w'))
      && (Collision(c, w, Attempt(net)) && !w'.relay.Stopped? ==> !UpInv(c, w'))
  {
    if net.Unreached? {
      SameUpstream(c, w, AfterAttempt(c, w, w.relay.r, net));
    } else if net.seen.Got? {
      GotUpstream(c, w, net.pump, net.seen.m, net.seen.end);
    } else {
      ServeUpstream(c, w, net.pump, net.seen);
      LostUpstream(c, w, Serve(c, w.srv, RequestBody(w.relay.r), Range(w.relay.r), net.pump).0);
    }
  }

  /** What a writer appends to the send buffer is what it has had accepted. */
  lemma PutWrittenUpstream(c: Config, s: SendSide, id: nat, held: Option<bytes>, sent: bytes)
    requires SendOk(c, s, held, false) && id in s.writers && s.writers[id].Holds?
    requires s.accepted == sent + Payload(c, SendBuffer(s, held))
    ensures PutWritten(c, s, id).accepted == sent + Payload(c, SendBuffer(PutWritten(c, s, id), held))
  {
    var writer := s.writers[id];
    var n := WriteLength(c, writer.buffer, writer.rest);
    assert SendBuffer(s, held) == writer.buffer;
    assert Payload(c, writer.buffer + writer.rest[..n]) == Payload(c, writer.buffer) + writer.rest[..n];
  }

  /** A change on the send side that keeps account of the bytes accepted. */
  lemma SendMovesUpstream(c: Config, w: World, s: SendSide)
    requires UpInv(c, w) && w.send.accepted <= s.accepted
    requires !w.relay.Stopped? ==> s.accepted == w.sent + Payload(c, SendBuffer(s, Held(w.relay)))
    ensures UpInv(c, w.(send := s))
  {
  }

  lemma WriterStepUpstream(c: Config, w: World, s: Step)
    requires ValidConfig(c) && SendInv(c, w) && UpInv(c, w) && Enabled(c, w, s)
    requires s.BeginWrite? || s.WriterTake? || s.WriterPut?
    ensures UpInv(c, Apply(c, w, s))
  {
    var s', held := Apply(c, w, s).send, Held(w.relay);
    if s.WriterPut? {
      if !w.relay.Stopped? {
        PutWrittenUpstream(c, w.send, s.id, held, w.sent);
      }
    } else {
      assert SendBuffer(s', held) == SendBuffer(w.send, held);
    }
    SendMovesUpstream(c, w, s');
  }

  lemma StartRoundUpstream(c: Config, w: World, s: Step)
    requires ValidConfig(c) && SendInv(c, w) && UpInv(c, w) && Enabled(c, w, s) && (s.RelayTake? || s.RelayPoll?)
    ensures UpInv(c, Apply(c, w, s))
  {
    var w' := Apply(c, w, s);
    if s.RelayTake? {
      assert SendBuffer(w.send, None) == w.send.ch.Slot(s.k).value;
      if w'.relay.InRound? {
        assert SendBuffer(w'.send, Held(w'.relay)) == w.send.ch.Slot(s.k).value;
      }
    } else {
      assert SendBuffer(w'.send, Held(w'.relay)) == SendBuffer(w.send, Held(w.relay));
    }
  }

  lemma EndRoundUpstream(c: Config, w: World, s: Step)
    requires ValidConfig(c) && SendInv(c, w) && UpInv(c, w) && Enabled(c, w, s) && (s.GiveUp? || s.Abort?)
    ensures UpInv(c, Apply(c, w, s))
  {
    if w.relay.InRound? && w.relay.r.held.Some? {
      assert SendBuffer(w.send, Held(w.relay)) == w.relay.r.held.value;
    }
    assert w.srv.relayed <= w.send.accepted;
  }

  lemma QuietStepUpstream(c: Config, w: World, s: Step)
    requires UpInv(c, w) && RoundShape(w.relay) && Enabled(c, w, s)
    requires s.Retry? || s.RelayTakeReceive? || s.RelayFillReceive? || s.ReaderTake? || s.ReaderPut? || s.Close?
    ensures UpInv(c, Apply(c, w, s))
  {
    SameUpstream(c, w, Apply(c, w, s));
  }

  /** Every step keeps the upstream invariant exactly if it is no collision. */
  lemma UpInvKept(c: Config, w: World, s: Step)
    requires ValidConfig(c) && SendInv(c, w) && UpInv(c, w) && Enabled(c, w, s)
    ensures !Collision(c, w, s) ==> UpInv(c, Apply(c, w, s))
    ensures Collision(c, w, s) && !Apply(c, w, s).relay.Stopped? ==> !UpInv(c, Apply(c, w, s))
  {
    if s.BeginWrite? || s.WriterTake? || s.WriterPut? {
      WriterStepUpstream(c, w, s);
    } else if s.RelayTake? || s.RelayPoll? {
      StartRoundUpstream(c, w, s);
    } else if s.Attempt? {
      AttemptUpstream(c, w, s.net);
    } else if s.GiveUp? || s.Abort? {
      EndRoundUpstream(c, w, s);
    } else {
      QuietStepUpstream(c, w, s);
    }
  }

  /** No step of the run is a collision. */
  predicate CollisionFree(c: Config, w: World, run: seq<Step>)
    requires ValidRun(c, w, run)
    decreases |run|
  {
    run == [] || (!Collision(c, w, run[0]) && CollisionFree(c, Apply(c, w, run[0]), run[1..]))
  }

  lemma {:induction false} RunKeepsUpInv(c: Config, w: World, run: seq<Step>)
    requires ValidConfig(c) && SendInv(c, w) && UpInv(c, w) && ValidRun(c, w, run) && CollisionFree(c, w, run)
    ensures SendInv(c, Exec(c, w, run)) && UpInv(c, Exec(c, w, run))
    decreases |run|
  {
    if run != [] {
      SendInvKept(c, w, run[0]);
      UpInvKept(c, w, run[0]);
      RunKeepsUpInv(c, Apply(c, w, run[0]), run[1..]);
    }
  }

  /** Only the padding of a poll can take a request body beyond the payload limit, and nothing beyond the
      server's maximum. */
  lemma BodyWithinLimit(c: Config, w: World)
    requires ValidConfig(c) && UpInv(c, w) && w.relay.InRound?
    ensures var r := w.relay.r;
      && |r.body| <= MAX_REQUEST_PAYLOAD_LENGTH
      && (|r.body| <= c.limit <==> !(r.pad.Padded? && PreambleSize(r.pad) + |r.pad.pad| > c.limit))
  {
  }

  /** Exactly-once upstream delivery: in every run of writers, relay, network failures and server
      without a checksum collision, the payloads the server has passed on are a prefix of the bytes
      accepted by Write, in order, without gap or repeat; and between rounds they are everything
      but the contents of the send buffer. */
  lemma UpstreamExactlyOnce(c: Config, run: seq<Step>)
    requires ValidConfig(c) && ValidRun(c, Init(c), run) && CollisionFree(c, Init(c), run)
    ensures var w := Exec(c, Init(c), run);
      && w.srv.relayed <= w.send.accepted
      && (w.relay.Idle? ==> w.send.accepted == w.srv.relayed + Payload(c, SendBuffer(w.send, None)))
      && (w.relay.InRound? ==>
            var r := w.relay.r;
            && |r.body| <= MAX_REQUEST_PAYLOAD_LENGTH && (r.payload != [] ==> |r.body| <= c.limit)
            && (|r.body| <= c.limit <==> !(r.pad.Padded? && PreambleSize(r.pad) + |r.pad.pad| > c.limit)))
  {
    RunKeepsUpInv(c, Init(c), run);
    var w := Exec(c, Init(c), run);
    if w.relay.InRound? {
      BodyWithinLimit(c, w);
    }
    if w.relay.InRound? && w.relay.r.held.Some? {
      assert SendBuffer(w.send, Held(w.relay)) == w.relay.r.held.value;
    }
  }
}
