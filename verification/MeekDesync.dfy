/** The converse of downstream delivery: every hazard leaves client and server out of step, unless the
    relay stops. A response that is not the round's own is given away by the bytes produced, or by the
    position of the padding cipher, which each preamble byte moves by one. */
module MeekDesync {
  import opened Bytes
  import opened MeekPadding
  import opened MeekRelay
  import opened MeekTokens
  import opened MeekUpstream
  import opened MeekDownstream

  function Min(a: nat, b: nat): nat {
    if a < b then a else b
  }

  /** How far reading a header moves the cipher: by each of its first three bytes, or by one byte for a
      bare prefix. */
  predicate Advances(from: nat, p: Consumed, size: nat) {
    match p.outcome
    case Incomplete => p.read == size && p.rx.pos == from + Min(size, 3)
    case Done => (p.read == 1 && p.rx.pos == from + 1) || (p.read >= 3 && p.rx.pos == from + 3)
    case ImmediateEof => size == 0
    case UnknownPrefix => true
  }

  lemma ConsumeAdvances(cipher: Cipher, from: nat, input: bytes, end: End)
    ensures Advances(from, Consume(cipher, Receiver(from, Prefix), input, end), |input|)
  {
    if |input| >= 1 {
      var (phase, done, known) := NextPhase(cipher, Receiver(from, Prefix), input[0]);
      if known && !done {
        assert phase == SizeByte1;
        AfterPrefix(cipher, from + 1, input[1..], end);
      }
    }
  }

  /** From the first size byte on. */
  lemma AfterPrefix(cipher: Cipher, from: nat, input: bytes, end: End)
    ensures var p := Consume(cipher, Receiver(from, SizeByte1), input, end);
      || (p.outcome.Incomplete? && p.read == |input| && p.rx.pos == from + Min(|input|, 2))
      || (p.outcome.Done? && p.read >= 2 && p.rx.pos == from + 2)
  {
    if |input| >= 1 {
      var high := NextPhase(cipher, Receiver(from, SizeByte1), input[0]).0.high;
      var second := Consume(cipher, Receiver(from + 1, SizeByte2(high)), input[1..], end);
      if |input| >= 2 {
        assert input[1..][1..] == input[2..];
        var size := NextPhase(cipher, Receiver(from + 1, SizeByte2(high)), input[1]).0;
        var third := Consume(cipher, Receiver(from + 2, size), input[2..], end);
        assert size.PaddingBytes? && third.rx.pos == from + 2;
        assert second == After(1, third);
      }
    }
  }

  /** Where the client's cipher is after j bytes of a response. */
  lemma RxPosition(c: Config, srv: Server, j: nat, rx: Receiver)
    requires CacheOk(c, srv) && RxAfter(c, srv.cache, j, rx) && j <= |srv.cache.stream|
    ensures rx.pos == srv.cache.start + Min(j, PreambleSize(srv.cache.pad))
  {
    var k := srv.cache;
    assert HeaderSize(k) == |Header(c.responseCipher, k.start, k.pad)|;
    if j < HeaderSize(k) {
      ConsumeAdvances(c.responseCipher, k.start, k.stream[..j], Failure);
    }
  }

  /** A client in step in the middle of a round: the round's response is the last one produced, and the
      cipher is as far as the bytes read so far have moved it. */
  lemma InRoundFacts(c: Config, w: World, r: Round)
    requires CacheOk(c, w.srv) && w.relay == InRound(r) && r.arrived && DownInv(c, w)
    ensures r.start + w.srv.cache.data == w.srv.produced
    ensures Position(r) <= |w.srv.cache.stream|
    ensures w.rx.pos == w.srv.cache.start + Min(Position(r), PreambleSize(w.srv.cache.pad))
    ensures r.morePadding == (c.padded && (Position(r) < HeaderSize(w.srv.cache) || HeaderSize(w.srv.cache) == 0))
  {
    RxPosition(c, w.srv, Position(r), w.rx);
  }

  /** The response is all that was produced since the round began, and the cipher is at its start. */
  predicate Fits(w: World, r: Round) {
    r.start + w.srv.cache.data == w.srv.produced && w.rx.pos == w.srv.cache.start
  }

  /** A round that has read nothing of its response yet. */
  ghost predicate AtStart(c: Config, w: World, r: Round) {
    && CacheOk(c, w.srv) && w.relay == InRound(r) && r.arrived && r.stage.Sending?
    && r.received == 0 && r.paddingSize == 0 && r.morePadding == c.padded
    && w.rx.phase.Prefix? && r.start == w.recv.delivered
  }

  /** The cipher positions of a client and of a response that agree after reading j bytes, as padding,
      agreed at the start. header is the size of the response's header, preamble of its preamble. */
  lemma SameStart(from: nat, start: nat, p: Consumed, size: nat, header: nat, preamble: nat)
    requires Advances(from, p, size) && (p.outcome.Incomplete? || p.outcome.Done?)
    requires p.rx.pos == start + Min(p.read, preamble)
    requires (preamble == 0 <==> header == 0) && (preamble == 1 ==> header == 1) && (preamble == 3 ==> header >= 3)
    requires preamble == 0 || preamble == 1 || preamble == 3
    requires header == 0 ==> size == 0
    requires p.outcome.Incomplete? <==> p.read < header || header == 0
    requires p.read == Min(p.read, header)
    ensures from == start
  {
  }

  /** A round that goes on after some padding. */
  lemma OnlyFittingGoesOn(c: Config, w: World, r: Round, got: bytes, p: Consumed, w': World)
    requires c.padded && AtStart(c, w, r) && p.read <= |got| && Advances(w.rx.pos, p, |got|)
    requires p.outcome.Incomplete? || p.outcome.Done?
    requires w'.relay.InRound? && w'.relay.r.arrived && w'.relay.r.start == r.start && w'.srv == w.srv && w'.rx == p.rx
    requires Position(w'.relay.r) == p.read && (w'.relay.r.morePadding <==> p.outcome.Incomplete?)
    requires w'.relay.r.paddingSize == p.read && (w.srv.cache.stream == [] ==> got == []) && DownInv(c, w')
    ensures Fits(w, r)
  {
    var k := w.srv.cache;
    assert HeaderSize(k) == |Header(c.responseCipher, k.start, k.pad)|;
    InRoundFacts(c, w', w'.relay.r);
    assert p.read == Min(p.read, HeaderSize(k));
    SameStart(w.rx.pos, k.start, p, |got|, HeaderSize(k), PreambleSize(k.pad));
  }

  /** A round that ends with an empty response. */
  lemma OnlyFittingNothing(c: Config, w: World, r: Round)
    requires AtStart(c, w, r) && w.srv.cache.stream == []
    ensures AtRest(w) ==> Fits(w, r)
  {
    var k := w.srv.cache;
    assert |Header(c.responseCipher, k.start, k.pad)| == 0 && k.data == [];
    assert PreambleSize(k.pad) == 0;
  }

  /** In padding mode, a client that starts on a response is in step afterwards only if it fits. */
  lemma OnlyFittingPadded(c: Config, w: World, r: Round, got: bytes, end: End, p: Consumed)
    requires c.padded && AtStart(c, w, r) && !w.srv.deleted && NextBytes(w, r, got, end)
    requires p.read <= |got| && Advances(w.rx.pos, p, |got|) && (p.outcome.ImmediateEof? ==> end.Eof?)
    ensures var w' := AfterPadding(c, w, r, got, end, p);
      !w'.relay.Stopped? && DownInv(c, w') ==> Fits(w, r)
  {
    var w' := AfterPadding(c, w, r, got, end, p);
    if p.outcome.ImmediateEof? {
      OnlyFittingNothing(c, w, r);
    } else if w'.relay.InRound? && DownInv(c, w') {
      OnlyFittingGoesOn(c, w, r, got, p, w');
    }
  }

  /** A client that starts on a response is in step afterwards only if the response fits. */
  lemma OnlyFitting(c: Config, w: World, r: Round, got: bytes, end: End)
    requires AtStart(c, w, r) && !w.srv.deleted && NextBytes(w, r, got, end)
    ensures var w' := Receive(c, w, r, got, end);
      !w'.relay.Stopped? && DownInv(c, w') ==> Fits(w, r)
  {
    var w' := Receive(c, w, r, got, end);
    if c.padded {
      ConsumeAdvances(c.responseCipher, w.rx.pos, got, end);
      OnlyFittingPadded(c, w, r, got, end, Consume(c.responseCipher, w.rx, got, end));
    } else if DownInv(c, w') {
      InRoundFacts(c, w', w'.relay.r);
    }
  }

  /** A lost answer leaves such a round in step only if it was. */
  lemma LostDecides(c: Config, w: World, r: Round)
    requires AtStart(c, w, r)
    ensures DownInv(c, w.(relay := InRound(r.(stage := Failed(true))))) ==> RoundDown(c, w, r)
  {
    var r' := r.(stage := Failed(true));
    var w' := w.(relay := InRound(r'));
    if DownInv(c, w') {
      InRoundFacts(c, w', r');
    }
    FreshRoundDown(c, w, r);
  }

  /** So does starting on a response. */
  lemma StartDecides(c: Config, w: World, r: Round, got: bytes, end: End)
    requires AtStart(c, w, r) && !w.srv.deleted && NextBytes(w, r, got, end)
    ensures var w2 := Acknowledge(c, w);
      var w' := Receive(c, w2, w2.relay.r, got, end);
      !w'.relay.Stopped? && DownInv(c, w') ==> RoundDown(c, w, r)
  {
    var w2 := Acknowledge(c, w);
    OnlyFitting(c, w2, w2.relay.r, got, end);
    FreshRoundDown(c, w, r);
  }

  /** A request that reached the server leaves the client in step only if the answer did, for a round
      that has read nothing yet. */
  lemma AnswerDecides(c: Config, w: World, pump: Pump, seen: Seen)
    requires ValidConfig(c) && UpInv(c, w) && RoundShape(w.relay) && CacheOk(c, w.srv) && DownInv(c, w)
    requires Enabled(c, w, Attempt(Answered(pump, seen))) && w.relay.r.received == 0 && !w.srv.deleted
    requires RequestAnswered(c, w, pump)
    ensures var w' := AfterAttempt(c, w, w.relay.r, Answered(pump, seen));
      var srv := Serve(c, w.srv, RequestBody(w.relay.r), Range(w.relay.r), pump).0;
      !w'.relay.Stopped? && DownInv(c, w') ==> RoundDown(c, Answer(w, srv), Answer(w, srv).relay.r)
  {
    var r := w.relay.r;
    var (srv, reply) := Serve(c, w.srv, RequestBody(r), Range(r), pump);
    var w1 := Answer(w, srv);
    ServeDownstream(c, w, pump, seen);
    UnreadRound(c, w, r);
    assert AtStart(c, w1, w1.relay.r);
    if seen.Lost? {
      LostDecides(c, w1, w1.relay.r);
    } else {
      StartDecides(c, w1, w1.relay.r, reply.body[..seen.m], seen.end);
    }
  }

  /** The reply is the whole of the response in the cache. */
  predicate RequestAnswered(c: Config, w: World, pump: Pump)
    requires w.relay.InRound? && ValidPump(c, w.srv, pump)
  {
    var (srv, reply) := Serve(c, w.srv, RequestBody(w.relay.r), Range(w.relay.r), pump);
    reply == Body(srv.cache.stream)
  }

  /** Every step keeps the downstream invariant exactly if it is no hazard, or the relay stops with it. */
  lemma DownInvExactly(c: Config, w: World, s: Step)
    requires ValidConfig(c) && SendInv(c, w) && UpInv(c, w) && CacheOk(c, w.srv) && DownInv(c, w) && Enabled(c, w, s)
    ensures !DownHazard(c, w, s) ==> DownInv(c, Apply(c, w, s))
    ensures DownHazard(c, w, s) && !Apply(c, w, s).relay.Stopped? ==> !DownInv(c, Apply(c, w, s))
  {
    if !DownHazard(c, w, s) {
      DownInvKept(c, w, s);
    } else if s.GiveUp? {
      CacheOkShape(c, w.srv);
      GiveUpDownstream(c, w);
    } else {
      HazardAnswered(c, w, s.net.pump, s.net.seen);
      AnswerDecides(c, w, s.net.pump, s.net.seen);
      ServeDownstream(c, w, s.net.pump, s.net.seen);
    }
  }

  /** In a hazard the server answers with a whole response. */
  lemma HazardAnswered(c: Config, w: World, pump: Pump, seen: Seen)
    requires ValidConfig(c) && UpInv(c, w) && RoundShape(w.relay) && CacheOk(c, w.srv) && DownInv(c, w)
    requires Enabled(c, w, Attempt(Answered(pump, seen)))
    requires var s := Attempt(Answered(pump, seen)); Stale(c, w, s) || Overflow(c, w, s)
    ensures w.relay.r.received == 0 && !w.srv.deleted && RequestAnswered(c, w, pump)
  {
    ServeCases(c, w, pump);
    assert w.srv.cache.stream[0..] == w.srv.cache.stream;
  }

  // ---------------------------------------------------------------- when the relay stops

  /** A client in step never takes a response for damaged. */
  lemma ReceiveGoesOn(c: Config, w: World, r: Round, got: bytes, end: End)
    requires ValidConfig(c) && CacheOk(c, w.srv) && w.relay == InRound(r) && RoundDown(c, w, r)
    requires r.arrived && r.stage.Sending? && NextBytes(w, r, got, end)
    ensures !Receive(c, w, r, got, end).relay.Stopped?
  {
    if r.morePadding {
      CacheOkShape(c, w.srv);
      if HeaderSize(w.srv.cache) > 0 {
        var p := ConsumeAt(c, w.srv.cache, r.received, w.rx, got, end);
      } else {
        assert Consume(c.responseCipher, w.rx, got, end).read == 0;
      }
    }
  }

  /** Nor a reply that answers from its position. */
  lemma ReplyGoesOn(c: Config, w: World, body: bytes, m: nat, end: End)
    requires ValidConfig(c) && CacheOk(c, w.srv) && w.relay.InRound? && RoundDown(c, w, w.relay.r)
    requires w.relay.r.arrived && w.relay.r.stage.Sending? && w.relay.r.received <= |w.srv.cache.stream|
    requires body == w.srv.cache.stream[w.relay.r.received..] && m <= |body| && (end.Eof? ==> m == |body|)
    ensures var w2 := Acknowledge(c, w); !Receive(c, w2, w2.relay.r, body[..m], end).relay.Stopped?
  {
    AcknowledgeDownstream(c, w);
    var w2 := Acknowledge(c, w);
    assert NextBytes(w2, w2.relay.r, body[..m], end);
    ReceiveGoesOn(c, w2, w2.relay.r, body[..m], end);
  }

  lemma AttemptGoesOn(c: Config, w: World, net: Network)
    requires ValidConfig(c) && UpInv(c, w) && RoundShape(w.relay) && CacheOk(c, w.srv) && DownInv(c, w)
    requires Enabled(c, w, Attempt(net)) && !DownHazard(c, w, Attempt(net))
    ensures var w' := AfterAttempt(c, w, w.relay.r, net); w'.relay.Stopped? ==> w'.srv.deleted
  {
    if net.Answered? && net.seen.Got? {
      var r := w.relay.r;
      ServeDownstream(c, w, net.pump, net.seen);
      var (srv, reply) := Serve(c, w.srv, RequestBody(r), Range(r), net.pump);
      if reply.Body? {
        ReplyGoesOn(c, Answer(w, srv), reply.body, net.seen.m, net.seen.end);
      }
    }
  }

  /** In runs without hazards, the relay stops only in closing, when the server has given up the session,
      or when it gives up a round whose requests failed: never for padding it cannot read or a send
      buffer it cannot use. */
  lemma StopsOnlyForCause(c: Config, w: World, s: Step)
    requires ValidConfig(c) && SendInv(c, w) && UpInv(c, w) && CacheOk(c, w.srv) && DownInv(c, w)
    requires Enabled(c, w, s) && !DownHazard(c, w, s) && !w.relay.Stopped? && Apply(c, w, s).relay.Stopped?
    ensures w.closed || (s.GiveUp? && w.relay.r.stage.err) || (s.Attempt? && Apply(c, w, s).srv.deleted)
  {
    if s.Attempt? {
      AttemptGoesOn(c, w, s.net);
    }
  }
}
