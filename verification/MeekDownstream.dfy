/** Downstream delivery of the meek relay: what Read returns is a prefix of what the server wrote
    into its responses, as long as no retry is answered with the wrong response and no round is
    given up before its response was read. */
module MeekDownstream {
  import opened Bytes
  import opened MeekPadding
  import opened MeekRelay
  import opened MeekTokens
  import opened MeekUpstream

  ghost predicate CacheOk(c: Config, srv: Server) {
    var k := srv.cache;
    && ValidPadding(k.pad) && k.stream == Header(c.responseCipher, k.start, k.pad) + k.data
    && (if !c.padded then k.pad.Omitted? else k.data != [] ==> k.pad.Bare?)
    && srv.responsePos == k.start + PreambleSize(k.pad)
    && (if k.stream == [] then k.kept == 0 else 1 <= k.kept <= |k.stream|)
  }

  /** Size of the padding header of the cached response. */
  function HeaderSize(k: Cache): nat {
    if |k.data| <= |k.stream| then |k.stream| - |k.data| else 0
  }

  /** The payload is the tail of the response, and there is a header unless padding is off or the
      response is empty. */
  ghost predicate CacheShape(c: Config, srv: Server) {
    var k := srv.cache;
    && |k.data| <= |k.stream| && k.stream[HeaderSize(k)..] == k.data
    && srv.responsePos == k.start + PreambleSize(k.pad)
    && (HeaderSize(k) == 0 <==> !c.padded || k.stream == [])
  }

  lemma CacheOkShape(c: Config, srv: Server)
    requires CacheOk(c, srv)
    ensures CacheShape(c, srv)
  {
    assert HeaderSize(srv.cache) == |Header(c.responseCipher, srv.cache.start, srv.cache.pad)|;
  }

  /** The payload among the first j bytes of the response. */
  function PayloadUpTo(k: Cache, j: nat): bytes {
    if HeaderSize(k) <= j <= HeaderSize(k) + |k.data| then k.data[..j - HeaderSize(k)] else []
  }

  /** The client's padding state after the first j bytes of the response. */
  ghost predicate RxAfter(c: Config, k: Cache, j: nat, rx: Receiver) {
    if j < HeaderSize(k) && j <= |k.stream| then
      var p := Consume(c.responseCipher, Receiver(k.start, Prefix), k.stream[..j], Failure);
      p.outcome.Incomplete? && p.rx == rx
    else rx == Receiver(k.start + PreambleSize(k.pad), Prefix)
  }

  /** Everything produced so far has been delivered, and the ciphers are in step. */
  predicate AtRest(w: World) {
    w.recv.delivered == w.srv.produced && w.rx == Receiver(w.srv.responsePos, Prefix)
  }

  /** Response bytes of this round that the client has read. */
  function Position(r: Round): nat {
    r.received + if r.stage.Reading? then r.stage.total else 0
  }

  /** The client has read the first j bytes of the cached response: the header part went to the
      padding state, the rest was delivered behind the bytes of earlier rounds. */
  ghost predicate InStep(c: Config, srv: Server, delivered: bytes, rx: Receiver,
                         start: bytes, morePadding: bool, paddingSize: nat, j: nat) {
    var k := srv.cache;
    && start + k.data == srv.produced
    && j <= |k.stream|
    && delivered == start + PayloadUpTo(k, j)
    && RxAfter(c, k, j, rx)
    && morePadding == (c.padded && (j < HeaderSize(k) || HeaderSize(k) == 0))
    && paddingSize == (if j < HeaderSize(k) then j else HeaderSize(k))
  }

  /** In the middle of a round, the client is in step at the position it has reached. */
  ghost predicate RoundDown(c: Config, w: World, r: Round) {
    if !r.arrived then
      && AtRest(w) && r.start == w.recv.delivered
      && r.received == 0 && r.paddingSize == 0 && r.morePadding == c.padded
      && !r.stage.Reading? && r.stage != Failed(false)
    else
      && InStep(c, w.srv, w.recv.delivered, w.rx, r.start, r.morePadding, r.paddingSize, Position(r))
      && (r.stage.Reading? || r.stage == Failed(false) ==> !r.morePadding)
      && (r.stage.Reading? ==>
            var k, j := w.srv.cache, Position(r);
            && j + |r.stage.left| <= |k.stream| && r.stage.left == k.stream[j..j + |r.stage.left|]
            && (r.stage.end.Eof? ==> j + |r.stage.left| == |k.stream|))
  }

  ghost predicate DownInv(c: Config, w: World) {
    match w.relay
    case Stopped => w.recv.delivered <= w.srv.produced
    case Idle => AtRest(w) && !w.srv.deleted
    case InRound(r) =>
      && RoundDown(c, w, r)
      && (w.srv.deleted ==> r.arrived && !r.stage.Reading? && r.stage != Failed(false))
  }

  /** A retry is the first request of its round to reach the server, which finds nothing new in it
      and answers with the complete response of an earlier round. */
  predicate Stale(c: Config, w: World, s: Step) {
    && s.Attempt? && s.net.Answered? && w.relay.InRound?
    && !w.relay.r.arrived && w.relay.r.tries > 0
    && Skips(c, w.srv, RequestBody(w.relay.r)) && HasPosition(w.srv.cache, 0)
  }

  /** A retry asks for the start of a response that the cache no longer holds: the server makes a
      new response and the old one is lost. */
  predicate Overflow(c: Config, w: World, s: Step) {
    && s.Attempt? && s.net.Answered? && w.relay.InRound?
    && w.relay.r.arrived && w.relay.r.received == 0 && !w.srv.deleted
    && w.srv.cache.stream != [] && !HasPosition(w.srv.cache, 0)
  }

  /** The relay gives up on a response without an error, and goes on, before all of it was read. */
  predicate Abandons(w: World, s: Step) {
    && s.GiveUp? && w.relay.InRound? && w.relay.r.stage == Failed(false)
    && w.relay.r.received < |w.srv.cache.stream|
  }

  predicate DownHazard(c: Config, w: World, s: Step) {
    Stale(c, w, s) || Overflow(c, w, s) || Abandons(w, s)
  }

  /** Inside the header, the padding state is that of one read of the first j bytes. */
  lemma RxInside(c: Config, k: Cache, j: nat, rx: Receiver)
    requires j < HeaderSize(k) && j <= |k.stream| && RxAfter(c, k, j, rx)
    ensures rx == Consume(c.responseCipher, Receiver(k.start, Prefix), k.stream[..j], Failure).rx
  {
  }

  /** The padding state after so many bytes more. */
  lemma RxNext(c: Config, k: Cache, j: nat, more: nat, p: Consumed)
    requires j < HeaderSize(k) && j + more <= |k.stream|
    requires if j + more < HeaderSize(k) then
               var once := Consume(c.responseCipher, Receiver(k.start, Prefix), k.stream[..j + more], Failure);
               once.outcome.Incomplete? && p == Consumed(more, Incomplete, once.rx)
             else p == Consumed(HeaderSize(k) - j, Done, Receiver(k.start + PreambleSize(k.pad), Prefix))
    ensures RxAfter(c, k, j + p.read, p.rx)
  {
  }

  /** Reading on inside the header, up to position n. */
  lemma ConsumeFrom(c: Config, k: Cache, j: nat, n: nat, rx: Receiver, end: End) returns (p: Consumed)
    requires ValidConfig(c) && ValidPadding(k.pad)
    requires k.stream == Header(c.responseCipher, k.start, k.pad) + k.data
    requires j < HeaderSize(k) && j <= n <= |k.stream| && (end.Eof? ==> n == |k.stream|)
    requires rx == Consume(c.responseCipher, Receiver(k.start, Prefix), k.stream[..j], Failure).rx
    ensures p == Consume(c.responseCipher, rx, k.stream[j..n], end)
    ensures if n < HeaderSize(k) then
              var once := Consume(c.responseCipher, Receiver(k.start, Prefix), k.stream[..n], Failure);
              once.outcome.Incomplete? && p == Consumed(n - j, Incomplete, once.rx)
            else p == Consumed(HeaderSize(k) - j, Done, Receiver(k.start + PreambleSize(k.pad), Prefix))
  {
    assert HeaderSize(k) == |Header(c.responseCipher, k.start, k.pad)|;
    HeaderResumes(c.responseCipher, k.start, k.pad, k.data, j, n, end);
    p := Consume(c.responseCipher, rx, k.stream[j..n], end);
  }

  /** Padding: what reading on from position j does, for a client in step. */
  lemma ConsumeAt(c: Config, k: Cache, j: nat, rx: Receiver, got: bytes, end: End) returns (p: Consumed)
    requires ValidConfig(c) && ValidPadding(k.pad)
    requires k.stream == Header(c.responseCipher, k.start, k.pad) + k.data
    requires j < HeaderSize(k) && j + |got| <= |k.stream| && got == k.stream[j..j + |got|]
    requires RxAfter(c, k, j, rx) && (end.Eof? ==> j + |got| == |k.stream|)
    ensures p == Consume(c.responseCipher, rx, got, end) && RxAfter(c, k, j + p.read, p.rx)
    ensures if j + |got| < HeaderSize(k) then p.outcome.Incomplete? && p.read == |got|
            else p.outcome.Done? && p.read == HeaderSize(k) - j
  {
    RxInside(c, k, j, rx);
    p := ConsumeFrom(c, k, j, j + |got|, rx, end);
    RxNext(c, k, j, |got|, p);
  }

  /** The bytes got are the next ones of the round's response, all of them if its end was seen. */
  ghost predicate NextBytes(w: World, r: Round, got: bytes, end: End) {
    var k, j := w.srv.cache, r.received;
    && j + |got| <= |k.stream| && got == k.stream[j..j + |got|]
    && (end.Eof? ==> j + |got| == |k.stream|)
  }

  /** Going on after some of the padding was consumed, for a client in step. */
  lemma PaddingDownstream(c: Config, w: World, r: Round, got: bytes, end: End, p: Consumed)
    requires w.relay == InRound(r) && RoundDown(c, w, r) && r.morePadding && p.read <= |got|
    requires r.arrived && r.stage.Sending? && !w.srv.deleted && NextBytes(w, r, got, end)
    requires r.received < HeaderSize(w.srv.cache) && |w.srv.cache.data| <= |w.srv.cache.stream|
    requires if r.received + |got| < HeaderSize(w.srv.cache) then p.outcome.Incomplete? && p.read == |got|
             else p.outcome.Done? && p.read == HeaderSize(w.srv.cache) - r.received
    requires RxAfter(c, w.srv.cache, r.received + p.read, p.rx)
    ensures DownInv(c, AfterPadding(c, w, r, got, end, p))
  {
    var k := w.srv.cache;
    assert PayloadUpTo(k, r.received + p.read) == [];
    assert p.outcome.Done? ==> got[p.read..] == k.stream[HeaderSize(k)..HeaderSize(k) + |got| - p.read];
  }

  /** An empty response without padding. */
  lemma NothingDownstream(c: Config, w: World, r: Round, got: bytes, end: End, p: Consumed)
    requires CacheShape(c, w.srv) && w.relay == InRound(r) && RoundDown(c, w, r) && r.morePadding
    requires r.arrived && r.stage.Sending? && !w.srv.deleted && NextBytes(w, r, got, end)
    requires w.srv.cache.stream == [] && p == Consumed(0, if end.Eof? then ImmediateEof else Incomplete, w.rx)
    ensures DownInv(c, AfterPadding(c, w, r, got, end, p))
  {
  }

  /** A round is where it should be once it is in step and what is left to read is right. */
  lemma AssembleRoundDown(c: Config, w: World, r: Round, srv: Server, delivered: bytes, rx: Receiver,
                          start: bytes, paddingSize: nat, j: nat)
    requires !srv.deleted && InStep(c, srv, delivered, rx, start, false, paddingSize, j)
    requires w.relay == InRound(r) && w.srv == srv && w.recv.delivered == delivered && w.rx == rx
    requires r.start == start && r.paddingSize == paddingSize && j == Position(r) && r.arrived && !r.morePadding
    requires r.stage.Reading? ==>
      && j + |r.stage.left| <= |srv.cache.stream| && r.stage.left == srv.cache.stream[j..j + |r.stage.left|]
      && (r.stage.end.Eof? ==> j + |r.stage.left| == |srv.cache.stream|)
    ensures DownInv(c, w)
  {
  }

  /** Starting on the next part of the response keeps the client in step. */
  lemma ReceiveDownstream(c: Config, w: World, r: Round, got: bytes, end: End)
    requires ValidConfig(c) && CacheOk(c, w.srv) && w.relay == InRound(r) && RoundDown(c, w, r)
    requires r.arrived && r.stage.Sending? && !w.srv.deleted && NextBytes(w, r, got, end)
    ensures DownInv(c, Receive(c, w, r, got, end))
  {
    if !r.morePadding {
      AssembleRoundDown(c, Receive(c, w, r, got, end), r.(stage := Reading(got, end, 0)),
                        w.srv, w.recv.delivered, w.rx, r.start, r.paddingSize, r.received);
    } else {
      ReceivePadding(c, w, r, got, end);
    }
  }

  lemma ReceivePadding(c: Config, w: World, r: Round, got: bytes, end: End)
    requires ValidConfig(c) && CacheOk(c, w.srv) && w.relay == InRound(r) && RoundDown(c, w, r) && r.morePadding
    requires r.arrived && r.stage.Sending? && !w.srv.deleted && NextBytes(w, r, got, end)
    ensures DownInv(c, AfterPadding(c, w, r, got, end, Consume(c.responseCipher, w.rx, got, end)))
  {
    if HeaderSize(w.srv.cache) > 0 {
      var p := ConsumeAt(c, w.srv.cache, r.received, w.rx, got, end);
      PaddingDownstream(c, w, r, got, end, p);
    } else {
      CacheOkShape(c, w.srv);
      NothingDownstream(c, w, r, got, end, Consume(c.responseCipher, w.rx, got, end));
    }
  }

  /** The server answers from its cache. */
  predicate AnswersFromCache(c: Config, srv: Server, r: Round) {
    r.tries > 0 && (r.received > 0 || (HasPosition(srv.cache, 0) && Skips(c, srv, RequestBody(r))))
  }

  predicate SameResponse(srv: Server, srv': Server) {
    srv'.cache == srv.cache && srv'.responsePos == srv.responsePos && srv'.produced == srv.produced
  }

  predicate NewResponse(c: Config, srv: Server, srv': Server, pump: Pump)
    requires ValidPump(c, srv, pump)
  {
    && srv'.cache == Cache(ResponseBody(c, srv, pump), pump.kept, pump.pad, srv.responsePos, pump.data)
    && srv'.responsePos == srv.responsePos + PreambleSize(pump.pad)
    && srv'.produced == srv.produced + pump.data
  }

  /** What the handler does downstream for a round whose requests the server can follow. */
  lemma ServeCases(c: Config, w: World, pump: Pump)
    requires ValidConfig(c) && UpInv(c, w) && w.relay.InRound? && ValidPump(c, w.srv, pump) && !w.srv.deleted
    ensures var r := w.relay.r;
      var (srv, reply) := Serve(c, w.srv, RequestBody(r), Range(r), pump);
      && (srv.deleted <==> reply.NotFound?)
      && if AnswersFromCache(c, w.srv, r) then
           && SameResponse(w.srv, srv)
           && reply == if HasPosition(w.srv.cache, r.received) then Body(w.srv.cache.stream[r.received..]) else NotFound
         else
           NewResponse(c, w.srv, srv, pump) && reply == Body(srv.cache.stream)
  {
    var r := w.relay.r;
    if !r.acked && !Skips(c, w.srv, r.body) {
      PumpReadsTakes(c, w.srv, r, w.requestPos);
    }
  }

  /** At the start of a response the client is in step when everything before was delivered. */
  lemma FreshRoundDown(c: Config, w: World, r: Round)
    requires CacheOk(c, w.srv) && r.arrived && r.stage.Sending? && r.received == 0 && r.paddingSize == 0
    requires r.start == w.recv.delivered && r.morePadding == c.padded
    ensures RoundDown(c, w, r) <==>
              r.start + w.srv.cache.data == w.srv.produced && w.rx == Receiver(w.srv.cache.start, Prefix)
  {
    var k := w.srv.cache;
    assert k.stream[..0] == [] && PayloadUpTo(k, 0) == [];
    assert HeaderSize(k) == |Header(c.responseCipher, k.start, k.pad)|;
  }

  /** A round that has read nothing yet. */
  lemma UnreadRound(c: Config, w: World, r: Round)
    requires CacheOk(c, w.srv) && RoundDown(c, w, r) && r.stage.Sending? && r.received == 0
    ensures r.start == w.recv.delivered && r.morePadding == c.padded && r.paddingSize == 0
    ensures if r.arrived then
              r.start + w.srv.cache.data == w.srv.produced && w.rx == Receiver(w.srv.cache.start, Prefix)
            else AtRest(w)
  {
    var k := w.srv.cache;
    assert k.stream[..0] == [] && PayloadUpTo(k, 0) == [];
    assert HeaderSize(k) == |Header(c.responseCipher, k.start, k.pad)|;
  }

  /** A new response suits a round that has had no response yet, or only an empty one. */
  lemma NewResponseDownstream(c: Config, w: World, srv: Server, pump: Pump)
    requires ValidConfig(c) && CacheOk(c, w.srv) && w.relay.InRound? && RoundDown(c, w, w.relay.r)
    requires ValidPump(c, w.srv, pump) && NewResponse(c, w.srv, srv, pump)
    requires w.relay.r.stage.Sending? && w.relay.r.received == 0
    ensures CacheOk(c, srv)
    ensures RoundDown(c, Answer(w, srv), Answer(w, srv).relay.r) <==>
              !w.relay.r.arrived || w.srv.cache.stream == []
  {
    var r, k := w.relay.r, w.srv.cache;
    UnreadRound(c, w, r);
    assert CacheOk(c, srv);
    FreshRoundDown(c, Answer(w, srv), Answer(w, srv).relay.r);
    if r.arrived {
      assert srv.produced == r.start + k.data + pump.data;
      assert k.stream != [] ==> k.data != [] || PreambleSize(k.pad) > 0;
      assert |srv.produced| == |r.start| + |k.data| + |pump.data|;
    }
  }

  /** The cached response suits a round that it was made for. */
  lemma SameResponseDownstream(c: Config, w: World, srv: Server)
    requires ValidConfig(c) && CacheOk(c, w.srv) && w.relay.InRound? && RoundDown(c, w, w.relay.r)
    requires SameResponse(w.srv, srv) && w.relay.r.stage.Sending? && w.srv.cache.stream != []
    ensures CacheOk(c, srv)
    ensures RoundDown(c, Answer(w, srv), Answer(w, srv).relay.r) <==> w.relay.r.arrived
  {
    var k := w.srv.cache;
    assert k.stream[..0] == [];
  }

  /** An answer from the cache is wrong for a round that the server sees for the first time; a new
      one is wrong for a round that has had a response. */
  lemma HazardCases(c: Config, w: World, pump: Pump, seen: Seen)
    requires UpInv(c, w) && RoundShape(w.relay) && DownInv(c, w) && !w.srv.deleted
    requires w.relay.InRound? && w.relay.r.stage.Sending?
    ensures var r, s := w.relay.r, Attempt(Answered(pump, seen));
      if AnswersFromCache(c, w.srv, r) then
        w.srv.cache.stream != [] && (Stale(c, w, s) || Overflow(c, w, s) <==> !r.arrived)
      else
        r.received == 0 && (Stale(c, w, s) || Overflow(c, w, s) <==> r.arrived && w.srv.cache.stream != [])
  {
    assert w.relay.r.arrived ==> Skips(c, w.srv, RequestBody(w.relay.r));
  }

  /** The server's answer leaves client and server in step exactly if it is neither stale nor made
      anew after an overflow; and then the body answers from the client's position. */
  lemma ServeDownstream(c: Config, w: World, pump: Pump, seen: Seen)
    requires ValidConfig(c) && UpInv(c, w) && RoundShape(w.relay) && CacheOk(c, w.srv) && DownInv(c, w)
    requires Enabled(c, w, Attempt(Answered(pump, seen)))
    ensures var r, s := w.relay.r, Attempt(Answered(pump, seen));
      var (srv, reply) := Serve(c, w.srv, RequestBody(r), Range(r), pump);
      && CacheOk(c, srv) && (srv.deleted <==> reply.NotFound?)
      && (RoundDown(c, Answer(w, srv), Answer(w, srv).relay.r) <==> !Stale(c, w, s) && !Overflow(c, w, s))
      && (reply.Body? && !Stale(c, w, s) && !Overflow(c, w, s) ==>
            r.received <= |srv.cache.stream| && reply.body == srv.cache.stream[r.received..])
  {
    var r := w.relay.r;
    var (srv, reply) := Serve(c, w.srv, RequestBody(r), Range(r), pump);
    if !w.srv.deleted {
      ServeCases(c, w, pump);
      HazardCases(c, w, pump, seen);
      if AnswersFromCache(c, w.srv, r) {
        SameResponseDownstream(c, w, srv);
      } else {
        NewResponseDownstream(c, w, srv, pump);
        assert srv.cache.stream[0..] == srv.cache.stream;
      }
    }
  }

  /** Where the round is in its response depends on its progress and on the two ends only. */
  lemma SameProgress(c: Config, w: World, r: Round, w': World, r': Round)
    requires RoundDown(c, w, r)
    requires w'.srv == w.srv && w'.recv == w.recv && w'.rx == w.rx
    requires r'.arrived == r.arrived && r'.received == r.received && r'.paddingSize == r.paddingSize
    requires r'.morePadding == r.morePadding && r'.start == r.start && r'.stage == r.stage
    ensures RoundDown(c, w', r')
  {
    assert Position(r') == Position(r);
  }

  /** The acknowledgement has no effect downstream. */
  lemma AcknowledgeDownstream(c: Config, w: World)
    requires w.relay.InRound? && RoundDown(c, w, w.relay.r)
    ensures var w' := Acknowledge(c, w);
      && w'.srv == w.srv && RoundDown(c, w', w'.relay.r) && w'.relay.r.stage == w.relay.r.stage
      && w'.relay.r.received == w.relay.r.received && w'.relay.r.arrived == w.relay.r.arrived
  {
    SameProgress(c, w, w.relay.r, Acknowledge(c, w), Acknowledge(c, w).relay.r);
  }

  lemma StoppedDownstream(c: Config, w: World, r: Round)
    requires RoundDown(c, w, r)
    ensures w.recv.delivered <= w.srv.produced
  {
    if r.arrived {
      var k, j := w.srv.cache, Position(r);
      assert PayloadUpTo(k, j) <= k.data;
      assert r.start + PayloadUpTo(k, j) <= r.start + k.data;
    }
  }

  /** A status code, and the next bytes of the round's response. */
  lemma StatusDownstream(c: Config, w: World, got: bytes, end: End)
    requires ValidConfig(c) && CacheOk(c, w.srv) && w.relay.InRound? && RoundDown(c, w, w.relay.r)
    requires w.relay.r.arrived && w.relay.r.stage.Sending? && !w.srv.deleted && NextBytes(w, w.relay.r, got, end)
    ensures var w2 := Acknowledge(c, w); DownInv(c, Receive(c, w2, w2.relay.r, got, end))
  {
    AcknowledgeDownstream(c, w);
    var w2 := Acknowledge(c, w);
    ReceiveDownstream(c, w2, w2.relay.r, got, end);
  }

  /** An attempt that brings a status code. */
  lemma GotDownstream(c: Config, w: World, pump: Pump, m: nat, end: End)
    requires ValidConfig(c) && UpInv(c, w) && RoundShape(w.relay) && CacheOk(c, w.srv) && DownInv(c, w)
    requires var s := Attempt(Answered(pump, Got(m, end))); Enabled(c, w, s) && !DownHazard(c, w, s)
    ensures var w' := AfterAttempt(c, w, w.relay.r, Answered(pump, Got(m, end))); CacheOk(c, w'.srv) && DownInv(c, w')
  {
    var r := w.relay.r;
    ServeDownstream(c, w, pump, Got(m, end));
    var (srv, reply) := Serve(c, w.srv, RequestBody(r), Range(r), pump);
    ReplyDownstream(c, Answer(w, srv), reply, m, end);
    var w' := AfterAttempt(c, w, r, Answered(pump, Got(m, end)));
    assert w'.srv == srv by {
      if reply.Body? {
        var w2 := Acknowledge(c, Answer(w, srv));
        ReceiveFrame(c, w2, w2.relay.r, reply.body[..m], end);
      }
    }
  }

  /** What the client does with a reply that answers from its position. */
  lemma ReplyDownstream(c: Config, w: World, reply: Reply, m: nat, end: End)
    requires ValidConfig(c) && CacheOk(c, w.srv) && w.relay.InRound? && RoundDown(c, w, w.relay.r)
    requires w.relay.r.arrived && w.relay.r.stage.Sending? && (w.srv.deleted <==> reply.NotFound?)
    requires reply.Body? ==>
      && w.relay.r.received <= |w.srv.cache.stream| && reply.body == w.srv.cache.stream[w.relay.r.received..]
      && m <= |reply.body| && (end.Eof? ==> m == |reply.body|)
    ensures reply.NotFound? ==> DownInv(c, Stop(c, w))
    ensures reply.Body? ==>
      var w2 := Acknowledge(c, w); DownInv(c, Receive(c, w2, w2.relay.r, reply.body[..m], end))
  {
    if reply.NotFound? {
      StoppedDownstream(c, w, w.relay.r);
    } else {
      assert NextBytes(w, w.relay.r, reply.body[..m], end);
      StatusDownstream(c, w, reply.body[..m], end);
    }
  }

  /** A request attempt without a hazard keeps the downstream invariant. */
  lemma AttemptDownstream(c: Config, w: World, net: Network)
    requires ValidConfig(c) && UpInv(c, w) && RoundShape(w.relay) && CacheOk(c, w.srv) && DownInv(c, w)
    requires Enabled(c, w, Attempt(net)) && !DownHazard(c, w, Attempt(net))
    ensures var w' := AfterAttempt(c, w, w.relay.r, net); CacheOk(c, w'.srv) && DownInv(c, w')
  {
    if net.Unreached? {
      LostDownstream(c, w);
    } else if net.seen.Got? {
      GotDownstream(c, w, net.pump, net.seen.m, net.seen.end);
    } else {
      ServeDownstream(c, w, net.pump, net.seen);
      LostDownstream(c, Answer(w, Serve(c, w.srv, RequestBody(w.relay.r), Range(w.relay.r), net.pump).0));
    }
  }

  /** A failed request leaves the client where it was in the response. */
  lemma LostDownstream(c: Config, w: World)
    requires w.relay.InRound? && RoundDown(c, w, w.relay.r) && w.relay.r.stage.Sending?
    requires w.srv.deleted ==> w.relay.r.arrived
    ensures DownInv(c, w.(relay := InRound(w.relay.r.(stage := Failed(true)))))
  {
  }

  /** The payload read so far, extended by the next bytes of the response. */
  lemma PayloadExtends(k: Cache, j: nat, part: bytes)
    requires |k.data| <= |k.stream| && k.stream[HeaderSize(k)..] == k.data
    requires HeaderSize(k) <= j && j + |part| <= |k.stream| && part == k.stream[j..j + |part|]
    ensures PayloadUpTo(k, j) + part == PayloadUpTo(k, j + |part|)
  {
    assert part == k.data[j - HeaderSize(k)..j - HeaderSize(k) + |part|];
  }

  /** Payload bytes, delivered in their place, keep the client in step. */
  lemma InStepAdvances(c: Config, srv: Server, delivered: bytes, rx: Receiver,
                       start: bytes, paddingSize: nat, j: nat, part: bytes)
    requires CacheShape(c, srv) && InStep(c, srv, delivered, rx, start, false, paddingSize, j)
    requires j >= HeaderSize(srv.cache)
    requires j + |part| <= |srv.cache.stream| && part == srv.cache.stream[j..j + |part|]
    ensures InStep(c, srv, delivered + part, rx, start, false, paddingSize, j + |part|)
    ensures j == |srv.cache.stream| ==> delivered == srv.produced && rx == Receiver(srv.responsePos, Prefix)
  {
    PayloadExtends(srv.cache, j, part);
    assert delivered + part == start + (PayloadUpTo(srv.cache, j) + part);
  }

  /** Reading on: the relay is at the next position of the response. */
  lemma FillGoesOn(c: Config, w: World, w': World, part: bytes)
    requires w.relay.InRound? && w.relay.r.stage.Reading? && w'.relay.InRound? && !w.srv.deleted
    requires w'.srv == w.srv && w'.rx == w.rx && w'.recv.delivered == w.recv.delivered + part
    requires w.relay.r.arrived && !w.relay.r.morePadding && FillsRound(w.relay.r, w'.relay.r, part)
    requires var r := w.relay.r;
      && InStep(c, w.srv, w.recv.delivered + part, w.rx, r.start, false, r.paddingSize, Position(r) + |part|)
      && Position(r) + |r.stage.left| <= |w.srv.cache.stream| && |part| <= |r.stage.left|
      && r.stage.left[|part|..] == w.srv.cache.stream[Position(r) + |part|..Position(r) + |r.stage.left|]
      && (r.stage.end.Eof? ==> Position(r) + |r.stage.left| == |w.srv.cache.stream|)
    ensures DownInv(c, w')
  {
    var r := w.relay.r;
    AssembleRoundDown(c, w', w'.relay.r, w.srv, w.recv.delivered + part, w.rx, r.start, r.paddingSize,
                      Position(r) + |part|);
  }

  /** Every chunk read from the response body goes, in place, behind what was delivered before; the
      body read to its end completes the round. */
  lemma FillDownstream(c: Config, w: World)
    requires c.chunk >= 1 && CacheShape(c, w.srv) && Enabled(c, w, RelayFillReceive)
    requires RoundDown(c, w, w.relay.r) && w.relay.r.arrived && !w.srv.deleted
    ensures DownInv(c, FillReceive(c, w, w.relay.r))
  {
    var r := w.relay.r;
    var j, part := Position(r), NextChunk(c, r.stage.left);
    ChunkSlices(c, w.srv.cache.stream, j, r.stage.left);
    assert InStep(c, w.srv, w.recv.delivered, w.rx, r.start, false, r.paddingSize, j);
    InStepAdvances(c, w.srv, w.recv.delivered, w.rx, r.start, r.paddingSize, j, part);
    FillEffect(c, w);
    var w' := FillReceive(c, w, r);
    if w'.relay.InRound? {
      FillGoesOn(c, w, w', part);
    } else {
      assert w.recv.delivered + part == w.recv.delivered;
    }
  }

  lemma ChunkSlices(c: Config, stream: bytes, j: nat, left: bytes)
    requires j + |left| <= |stream| && left == stream[j..j + |left|]
    ensures var part := NextChunk(c, left);
      part == stream[j..j + |part|] && left[|part|..] == stream[j + |part|..j + |left|]
  {
  }

  /** A round that goes on after a turn of readPayload. */
  predicate FillsRound(r: Round, r': Round, part: bytes)
    requires r.stage.Reading?
  {
    && r'.start == r.start && r'.paddingSize == r.paddingSize && r'.morePadding == r.morePadding
    && r'.arrived == r.arrived && Position(r') == Position(r) + |part|
    && (|| r'.stage == Failed(false)
        || (&& r'.stage.Reading? && |part| <= |r.stage.left| && r'.stage.left == r.stage.left[|part|..]
            && r'.stage.end == r.stage.end))
  }

  /** One turn of readPayload, seen from the relay. */
  lemma FillEffect(c: Config, w: World)
    requires c.chunk >= 1 && Enabled(c, w, RelayFillReceive)
    ensures var r, w' := w.relay.r, FillReceive(c, w, w.relay.r);
      var Reading(left, end, total) := r.stage;
      var part := NextChunk(c, left);
      && w'.srv == w.srv && w'.rx == w.rx && w'.recv.delivered == w.recv.delivered + part
      && (w'.relay.Idle? ==> left == [] && part == [] && end.Eof?)
      && (w'.relay.InRound? ==> FillsRound(r, w'.relay.r, part))
      && !w'.relay.Stopped?
  {
  }

  /** Giving up on a response keeps the streams in step exactly if all of it was read. */
  lemma GiveUpDownstream(c: Config, w: World)
    requires ValidConfig(c) && RoundShape(w.relay) && CacheShape(c, w.srv) && DownInv(c, w) && Enabled(c, w, GiveUp)
    ensures DownInv(c, Apply(c, w, GiveUp)) <==> !Abandons(w, GiveUp)
  {
    var r, k := w.relay.r, w.srv.cache;
    StoppedDownstream(c, w, r);
    if !r.stage.err {
      assert |w.recv.delivered| == |r.start| + r.received - HeaderSize(k);
      assert r.received == |k.stream| ==> PayloadUpTo(k, r.received) == k.data;
    }
  }

  /** Every step without a hazard keeps the downstream invariant. */
  lemma DownInvKept(c: Config, w: World, s: Step)
    requires ValidConfig(c) && SendInv(c, w) && UpInv(c, w) && CacheOk(c, w.srv) && DownInv(c, w)
    requires Enabled(c, w, s) && !DownHazard(c, w, s)
    ensures CacheOk(c, Apply(c, w, s).srv) && DownInv(c, Apply(c, w, s))
  {
    CacheOkShape(c, w.srv);
    if s.Attempt? {
      AttemptDownstream(c, w, s.net);
    } else if s.RelayFillReceive? {
      FillDownstream(c, w);
    } else if s.GiveUp? {
      GiveUpDownstream(c, w);
    } else {
      QuietStepDownstream(c, w, s);
    }
  }

  /** The downstream invariant looks only at the relay, the server, the padding state and what was
      delivered. */
  lemma SameDownstream(c: Config, w: World, w': World)
    requires DownInv(c, w)
    requires w'.relay == w.relay && w'.srv == w.srv && w'.rx == w.rx && w'.recv.delivered == w.recv.delivered
    ensures DownInv(c, w')
  {
  }

  lemma NewRoundDownstream(c: Config, w: World, s: Step)
    requires DownInv(c, w) && Enabled(c, w, s) && (s.RelayTake? || s.RelayPoll?)
    ensures DownInv(c, Apply(c, w, s))
  {
  }

  lemma RetryDownstream(c: Config, w: World)
    requires DownInv(c, w) && Enabled(c, w, Retry)
    ensures DownInv(c, Apply(c, w, Retry))
  {
  }

  lemma QuietStepDownstream(c: Config, w: World, s: Step)
    requires DownInv(c, w) && Enabled(c, w, s) && !s.Attempt? && !s.RelayFillReceive? && !s.GiveUp?
    ensures DownInv(c, Apply(c, w, s))
  {
    if s.RelayTake? || s.RelayPoll? {
      NewRoundDownstream(c, w, s);
    } else if s.Retry? {
      RetryDownstream(c, w);
    } else if s.Abort? {
      if w.relay.InRound? {
        StoppedDownstream(c, w, w.relay.r);
      }
    } else {
      SameDownstream(c, w, Apply(c, w, s));
    }
  }

  predicate HazardFree(c: Config, w: World, run: seq<Step>)
    requires ValidRun(c, w, run)
    decreases |run|
  {
    run == [] ||
    (!Collision(c, w, run[0]) && !DownHazard(c, w, run[0]) && HazardFree(c, Apply(c, w, run[0]), run[1..]))
  }

  lemma {:induction false} RunKeepsDownInv(c: Config, w: World, run: seq<Step>)
    requires ValidConfig(c) && SendInv(c, w) && ReceiveInv(c, w) && UpInv(c, w) && CacheOk(c, w.srv) && DownInv(c, w)
    requires ValidRun(c, w, run) && HazardFree(c, w, run)
    ensures ReceiveInv(c, Exec(c, w, run)) && CacheOk(c, Exec(c, w, run).srv) && DownInv(c, Exec(c, w, run))
    decreases |run|
  {
    if run != [] {
      SendInvKept(c, w, run[0]);
      ReceiveInvKept(c, w, run[0]);
      UpInvKept(c, w, run[0]);
      DownInvKept(c, w, run[0]);
      RunKeepsDownInv(c, Apply(c, w, run[0]), run[1..]);
    }
  }

  /** Downstream delivery: in every run without a hazard, the bytes returned by Read are a prefix of
      the bytes the server wrote into its responses, whatever was interrupted and resumed; between
      rounds all of them are delivered; and the Range offset of a retry counts the padding consumed
      and the payload delivered in this round. */
  lemma DownstreamResumes(c: Config, run: seq<Step>)
    requires ValidConfig(c) && ValidRun(c, Init(c), run) && HazardFree(c, Init(c), run)
    ensures var w := Exec(c, Init(c), run);
      && w.recv.readOut <= w.srv.produced
      && (w.relay.Idle? ==> w.recv.readOut + ReceiveBuffer(w.recv) == w.srv.produced)
      && (w.relay.InRound? && w.relay.r.stage.Sending? ==>
            var r := w.relay.r;
            r.start <= w.recv.delivered && r.received == r.paddingSize + |w.recv.delivered| - |r.start|)
  {
    RunKeepsDownInv(c, Init(c), run);
    var w := Exec(c, Init(c), run);
    assert w.recv.readOut <= w.recv.delivered;
    if w.relay.InRound? {
      StoppedDownstream(c, w, w.relay.r);
      if w.relay.r.stage.Sending? {
        CacheOkShape(c, w.srv);
        RangeOffset(c, w, w.relay.r);
      }
    }
  }

  lemma RangeOffset(c: Config, w: World, r: Round)
    requires CacheShape(c, w.srv) && RoundDown(c, w, r) && r.stage.Sending?
    ensures r.start <= w.recv.delivered && r.received == r.paddingSize + |w.recv.delivered| - |r.start|
  {
  }
}
