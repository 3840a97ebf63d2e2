/** The upstream collision and the three downstream hazards do happen: runs from the initial state
    in which bytes are lost or repeated and the relay goes on without an error. */
module MeekHazards {
  import opened Bytes
  import opened MeekPadding
  import opened MeekRelay
  import opened MeekTokens

  ghost predicate Runs(c: Config, w: World, run: seq<Step>, w': World) {
    ValidRun(c, w, run) && Exec(c, w, run) == w'
  }

  lemma OneStep(c: Config, w: World, s: Step)
    requires Enabled(c, w, s)
    ensures Runs(c, w, [s], Apply(c, w, s))
  {
    assert Runs(c, Apply(c, w, s), [s][1..], Apply(c, w, s));
  }

  lemma TwoSteps(c: Config, w: World, s: Step, s': Step)
    requires Enabled(c, w, s) && Enabled(c, Apply(c, w, s), s')
    ensures Runs(c, w, [s, s'], Apply(c, Apply(c, w, s), s'))
  {
    OneStep(c, Apply(c, w, s), s');
    assert [s, s'][1..] == [s'];
  }

  lemma {:induction false} RunsJoin(c: Config, w: World, a: seq<Step>, w1: World, b: seq<Step>, w2: World)
    requires Runs(c, w, a, w1) && Runs(c, w1, b, w2)
    ensures Runs(c, w, a + b, w2)
    decreases |a|
  {
    if a == [] {
      assert a + b == b;
    } else {
      RunsJoin(c, Apply(c, w, a[0]), a[1..], w1, b, w2);
      assert (a + b)[1..] == a[1..] + b;
    }
  }

  // ---------------------------------------------------------------- parts of runs, without padding

  const NONE := Channels(None, None, None)

  /** The client side of a relay at work: what a part of a run says about the world it leads to. */
  predicate Same(w: World, w': World) {
    w'.closed == w.closed && w'.sent == w.sent && w'.send == w.send && w'.recv == w.recv
  }

  function FillRun(k: Class): seq<Step> {
    [RelayTakeReceive(k), RelayFillReceive]
  }

  /** One turn of readPayload on a body no longer than a chunk. */
  lemma Fill(c: Config, w: World, k: Class, b: bytes) returns (w': World)
    requires w.relay.InRound? && w.relay.r.stage.Reading? && |w.relay.r.stage.left| < c.chunk && !k.Full?
    requires w.recv.ch == NONE.Set(k, Some(b)) && w.recv.relay.None?
    ensures Runs(c, w, FillRun(k), w')
    ensures w'.srv == w.srv && w'.send == w.send && w'.closed == w.closed && w'.recv.relay.None?
    ensures var Reading(left, end, total) := w.relay.r.stage;
      && w'.recv.delivered == w.recv.delivered + left
      && w'.recv.ch == NONE.Set(ReceiveClass(c, b + left), Some(b + left))
      && var r := w.relay.r;
         w'.relay == if end.Failure? then InRound(r.(received := r.received + total + |left|, stage := Failed(false)))
                     else if left == [] then Idle
                     else InRound(w.relay.r.(stage := Reading([], end, total + |left|)))
  {
    var left := w.relay.r.stage.left;
    assert left[|left|..] == [];
    TwoSteps(c, w, RelayTakeReceive(k), RelayFillReceive);
    w' := Exec(c, w, FillRun(k));
  }

  function PollRun(pump: Pump, seen: Seen): seq<Step> {
    [RelayPoll(Omitted), Attempt(Answered(pump, seen))]
  }

  /** A poll whose first request is answered. */
  lemma Poll(c: Config, w: World, pump: Pump, seen: Seen) returns (w': World)
    requires !c.padded && w.relay.Idle? && !w.srv.deleted && ValidPump(c, w.srv, pump)
    requires seen.Got? ==> seen.m <= |pump.data| && (seen.end.Eof? ==> seen.m == |pump.data|)
    ensures Runs(c, w, PollRun(pump, seen), w') && Same(w, w') && !w'.srv.deleted
    ensures w'.srv.cache == Cache(pump.data, pump.kept, Omitted, w.srv.responsePos, pump.data)
    ensures w'.srv.produced == w.srv.produced + pump.data && w'.srv.responsePos == w.srv.responsePos
    ensures w'.relay.InRound? && w'.relay.r.body == [] && w'.relay.r.received == 0 && w'.relay.r.retries == 0
    ensures w'.relay.r.held.None? && !w'.relay.r.morePadding
    ensures w'.relay.r.stage == if seen.Got? then Reading(pump.data[..seen.m], seen.end, 0) else Failed(true)
  {
    var w1 := Apply(c, w, RelayPoll(Omitted));
    assert Serve(c, w.srv, [], None, pump).1 == Body(pump.data);
    TwoSteps(c, w, RelayPoll(Omitted), Attempt(Answered(pump, seen)));
    w' := Exec(c, w, PollRun(pump, seen));
  }

  function RetryRun(pump: Pump, m: nat, end: End): seq<Step> {
    [Retry, Attempt(Answered(pump, Got(m, end)))]
  }

  /** A retry of a request without payload. */
  lemma TryAgain(c: Config, w: World, pump: Pump, m: nat, end: End, body: bytes) returns (w': World)
    requires !c.padded && w.relay.InRound? && w.relay.r.stage.Failed? && !w.srv.deleted && ValidPump(c, w.srv, pump)
    requires w.relay.r.body == [] && w.relay.r.held.None? && w.relay.r.received == 0 && !w.relay.r.morePadding
    requires body == (if HasPosition(w.srv.cache, 0) then w.srv.cache.stream else pump.data)
    requires m <= |body| && (end.Eof? ==> m == |body|)
    ensures Runs(c, w, RetryRun(pump, m, end), w') && w'.recv == w.recv && w'.relay.InRound?
    ensures w'.relay.r.retries == w.relay.r.retries + 1 && w'.relay.r.received == 0 && w'.relay.r.held.None?
    ensures w'.relay.r.stage == Reading(body[..m], end, 0)
    ensures w'.srv.produced == w.srv.produced + (if HasPosition(w.srv.cache, 0) then [] else pump.data)
  {
    var w1 := Apply(c, w, Retry);
    assert w.srv.cache.stream[0..] == w.srv.cache.stream;
    assert Serve(c, w.srv, [], Some(0), pump).1 == Body(body);
    TwoSteps(c, w, Retry, Attempt(Answered(pump, Got(m, end))));
    w' := Exec(c, w, RetryRun(pump, m, end));
  }

  // ---------------------------------------------------------------- downstream hazards

  const FIVE := Pump([5], Omitted, 1)
  const NOTHING := Pump([], Omitted, 0)

  /** A poll answered with byte 5, which is delivered. */
  function AnsweredPollRun(): seq<Step> {
    PollRun(FIVE, Got(1, Eof)) + FillRun(Empty) + FillRun(Partial)
  }

  lemma AnsweredPoll(c: Config) returns (w: World)
    requires !c.padded && c.fullReceive >= 2 && c.chunk >= 2
    ensures Runs(c, Init(c), AnsweredPollRun(), w) && w.relay.Idle? && !w.srv.deleted
    ensures w.recv.ch == NONE.Set(Partial, Some([5])) && w.recv.relay.None? && w.recv.delivered == [5]
    ensures w.srv.cache == Cache([5], 1, Omitted, 0, [5]) && w.srv.produced == [5]
  {
    var nothing: bytes, five: bytes := [], [5];
    assert five[..1] == five && nothing + five == five && five + nothing == five;
    var w1 := Poll(c, Init(c), FIVE, Got(1, Eof));
    var w2 := Fill(c, w1, Empty, []);
    RunsJoin(c, Init(c), PollRun(FIVE, Got(1, Eof)), w1, FillRun(Empty), w2);
    w := Fill(c, w2, Partial, [5]);
    RunsJoin(c, Init(c), PollRun(FIVE, Got(1, Eof)) + FillRun(Empty), w2, FillRun(Partial), w);
  }

  /** A poll whose first request does not reach the server. */
  function LostPollRun(): seq<Step> {
    [RelayPoll(Omitted), Attempt(Unreached)]
  }

  lemma LostPoll(c: Config, w: World) returns (w': World)
    requires !c.padded && w.relay.Idle?
    ensures Runs(c, w, LostPollRun(), w') && Same(w, w') && w'.srv == w.srv
    ensures w'.relay.InRound? && w'.relay.r.body == [] && w'.relay.r.received == 0 && w'.relay.r.stage == Failed(true)
    ensures w'.relay.r.held.None? && !w'.relay.r.morePadding
  {
    TwoSteps(c, w, RelayPoll(Omitted), Attempt(Unreached));
    w' := Exec(c, w, LostPollRun());
  }

  function LatePollRun(): seq<Step> {
    LostPollRun() + RetryRun(NOTHING, 1, Eof) + FillRun(Partial)
  }

  lemma LatePoll(c: Config, w: World) returns (w': World)
    requires !c.padded && c.chunk >= 2 && w.relay.Idle? && !w.srv.deleted
    requires w.recv.ch == NONE.Set(Partial, Some([5])) && w.recv.relay.None?
    requires w.srv.cache == Cache([5], 1, Omitted, 0, [5])
    ensures Runs(c, w, LatePollRun(), w')
    ensures w'.recv.delivered == w.recv.delivered + [5] && w'.srv.produced == w.srv.produced
  {
    var w1 := LostPoll(c, w);
    var w2 := TryAgain(c, w1, NOTHING, 1, Eof, [5]);
    RunsJoin(c, w, LostPollRun(), w1, RetryRun(NOTHING, 1, Eof), w2);
    w' := Fill(c, w2, Partial, [5]);
    RunsJoin(c, w, LostPollRun() + RetryRun(NOTHING, 1, Eof), w2, FillRun(Partial), w');
  }

  /** Stale: the retried poll gets the previous response again, so its byte is delivered twice. */
  lemma StaleRepeats(c: Config)
    requires !c.padded && c.fullReceive >= 2 && c.chunk >= 2
    ensures ValidRun(c, Init(c), AnsweredPollRun() + LatePollRun())
    ensures var w := Exec(c, Init(c), AnsweredPollRun() + LatePollRun());
      w.recv.delivered == [5, 5] && w.srv.produced == [5]
  {
    var w1 := AnsweredPoll(c);
    var w2 := LatePoll(c, w1);
    RunsJoin(c, Init(c), AnsweredPollRun(), w1, LatePollRun(), w2);
  }

  /** A response of two bytes, of which the cache keeps one, is lost on the way. */
  function OverflowRun(): seq<Step> {
    PollRun(Pump([5, 6], Omitted, 1), Lost) + RetryRun(Pump([9], Omitted, 1), 1, Eof) + FillRun(Empty)
  }

  /** Overflow: the retry gets the next response, and the first one is never delivered. */
  lemma OverflowLoses(c: Config)
    requires !c.padded && c.chunk >= 2
    ensures ValidRun(c, Init(c), OverflowRun())
    ensures var w := Exec(c, Init(c), OverflowRun());
      w.recv.delivered == [9] && w.srv.produced == [5, 6, 9]
  {
    var w1 := Poll(c, Init(c), Pump([5, 6], Omitted, 1), Lost);
    var w2 := TryAgain(c, w1, Pump([9], Omitted, 1), 1, Eof, [9]);
    RunsJoin(c, Init(c), PollRun(Pump([5, 6], Omitted, 1), Lost), w1, RetryRun(Pump([9], Omitted, 1), 1, Eof), w2);
    var w3 := Fill(c, w2, Empty, []);
    RunsJoin(c, Init(c), PollRun(Pump([5, 6], Omitted, 1), Lost) + RetryRun(Pump([9], Omitted, 1), 1, Eof), w2,
             FillRun(Empty), w3);
  }

  /** Reading the response body fails at once, and again on the retry; then the relay gives up. */
  function AbandonRun(): seq<Step> {
    PollRun(FIVE, Got(0, Failure)) + FillRun(Empty) + RetryRun(NOTHING, 0, Failure) + (FillRun(Empty) + [GiveUp])
  }

  /** Abandon: the relay goes on without an error, and the response is never delivered. */
  lemma AbandonLoses(c: Config)
    requires !c.padded && c.fullReceive >= 1 && c.chunk >= 1
    ensures ValidRun(c, Init(c), AbandonRun())
    ensures var w := Exec(c, Init(c), AbandonRun());
      w.relay.Idle? && w.recv.delivered == [] && w.srv.produced == [5]
  {
    var w1 := Poll(c, Init(c), FIVE, Got(0, Failure));
    var w2 := Fill(c, w1, Empty, []);
    RunsJoin(c, Init(c), PollRun(FIVE, Got(0, Failure)), w1, FillRun(Empty), w2);
    var w3 := TryAgain(c, w2, NOTHING, 0, Failure, [5]);
    RunsJoin(c, Init(c), PollRun(FIVE, Got(0, Failure)) + FillRun(Empty), w2, RetryRun(NOTHING, 0, Failure), w3);
    var w4 := Fill(c, w3, Empty, []);
    OneStep(c, w4, GiveUp);
    var w5 := Apply(c, w4, GiveUp);
    RunsJoin(c, w3, FillRun(Empty), w4, [GiveUp], w5);
    RunsJoin(c, Init(c), PollRun(FIVE, Got(0, Failure)) + FillRun(Empty) + RetryRun(NOTHING, 0, Failure), w3,
             FillRun(Empty) + [GiveUp], w5);
  }

  // ---------------------------------------------------------------- upstream collision

  /** Byte 7 is written, relayed and acknowledged with an empty response. */
  function WriteRun(): seq<Step> {
    [BeginWrite(0, [7]), WriterTake(0, Empty)] + [WriterPut(0), RelayTake(Partial)] +
    ([Attempt(Answered(NOTHING, Got(0, Eof)))] + FillRun(Empty))
  }

  predicate Quiet(w: World) {
    && w.relay.Idle? && !w.closed && !w.srv.deleted && w.send.ch == NONE.Set(Empty, Some([]))
    && w.send.writers == map[] && w.recv.ch == NONE.Set(Empty, Some([])) && w.recv.relay.None?
  }

  lemma WriteSteps(c: Config, w: World) returns (w': World)
    requires !c.padded && c.limit >= 2 && Quiet(w)
    ensures Runs(c, w, [BeginWrite(0, [7]), WriterTake(0, Empty)] + [WriterPut(0), RelayTake(Partial)], w')
    ensures w' == w.(relay := InRound(NewRound(c, w, [7], Omitted, [7], Some([7]))),
                     send := SendSide(NONE, map[], WithRelay, w.send.accepted + [7]))
  {
    TwoSteps(c, w, BeginWrite(0, [7]), WriterTake(0, Empty));
    var w1 := Exec(c, w, [BeginWrite(0, [7]), WriterTake(0, Empty)]);
    assert w1.send == SendSide(NONE, map[0 := Holds([], [7])], WithUser(0), w.send.accepted);
    var put := PutWritten(c, w1.send, 0);
    var nothing: bytes, seven: bytes := [], [7];
    assert seven[..1] == seven && nothing + seven == seven && map[0 := Holds(nothing, seven)] - {0} == map[];
    assert Filled(c, w1.send.writers[0]) == seven;
    assert put == SendSide(NONE.Set(Partial, Some([7])), map[], In(Partial), w.send.accepted + [7]);
    TwoSteps(c, w1, WriterPut(0), RelayTake(Partial));
    w' := Exec(c, w1, [WriterPut(0), RelayTake(Partial)]);
    RunsJoin(c, w, [BeginWrite(0, [7]), WriterTake(0, Empty)], w1, [WriterPut(0), RelayTake(Partial)], w');
  }

  lemma WriteRound(c: Config, w: World) returns (w': World)
    requires !c.padded && c.limit >= 2 && c.chunk >= 1 && c.fullReceive >= 1 && Quiet(w)
    ensures Runs(c, w, WriteRun(), w') && Quiet(w') && w'.send.accepted == w.send.accepted + [7]
    ensures w'.srv.last == Some(c.checksum([7]))
    ensures w'.srv.relayed == w.srv.relayed + if w.srv.last == Some(c.checksum([7])) then [] else [7]
  {
    var w1 := WriteSteps(c, w);
    var s := Attempt(Answered(NOTHING, Got(0, Eof)));
    assert Serve(c, w.srv, [7], None, NOTHING).1 == Body([]);
    OneStep(c, w1, s);
    var w2 := Apply(c, w1, s);
    w' := Fill(c, w2, Empty, []);
    RunsJoin(c, w1, [s], w2, FillRun(Empty), w');
    RunsJoin(c, w, [BeginWrite(0, [7]), WriterTake(0, Empty)] + [WriterPut(0), RelayTake(Partial)], w1,
             [s] + FillRun(Empty), w');
  }

  /** Collision: without padding, writing the same byte twice in two rounds loses the second one,
      whatever the checksum. */
  lemma CollisionLoses(c: Config)
    requires !c.padded && c.limit >= 2 && c.chunk >= 1 && c.fullReceive >= 1
    ensures ValidRun(c, Init(c), WriteRun() + WriteRun())
    ensures var w := Exec(c, Init(c), WriteRun() + WriteRun());
      w.relay.Idle? && w.send.accepted == [7, 7] && w.srv.relayed == [7] && w.send.ch.empty == Some([])
  {
    var w1 := WriteRound(c, Init(c));
    var w2 := WriteRound(c, w1);
    RunsJoin(c, Init(c), WriteRun(), w1, WriteRun(), w2);
  }

  // ---------------------------------------------------------------- polls beyond the payload limit

  /** The request in progress is within the payload limit. */
  predicate WithinLimit(c: Config, w: World) {
    w.relay.InRound? ==> |RequestBody(w.relay.r)| <= c.limit
  }

  /** A poll can carry more padding than the payload limit allows for payloads. */
  lemma PollExceedsLimit(c: Config)
    requires ValidConfig(c) && c.padded && PADDING_HEADER_SIZE + c.maxPadding > c.limit
    ensures var run := [RelayPoll(Padded(seq(c.maxPadding, _ => 0)))];
      ValidRun(c, Init(c), run) && !WithinLimit(c, Exec(c, Init(c), run))
  {
    OneStep(c, Init(c), RelayPoll(Padded(seq(c.maxPadding, _ => 0))));
  }

  /** Every request of every run is within the payload limit exactly if padding is off or the most
      padding, with its header, fits in it; and always within the server's maximum. */
  lemma RequestsWithinLimit(c: Config)
    requires ValidConfig(c)
    ensures forall run :: ValidRun(c, Init(c), run) ==>
      var w := Exec(c, Init(c), run);
      w.relay.InRound? ==> |RequestBody(w.relay.r)| <= MAX_REQUEST_PAYLOAD_LENGTH
    ensures (forall run :: ValidRun(c, Init(c), run) ==> WithinLimit(c, Exec(c, Init(c), run)))
            <==> !c.padded || PADDING_HEADER_SIZE + c.maxPadding <= c.limit
  {
    forall run | ValidRun(c, Init(c), run)
      ensures BodyFits(c, Exec(c, Init(c), run).relay)
    {
      RunKeepsBodies(c, Init(c), run);
    }
    if c.padded && PADDING_HEADER_SIZE + c.maxPadding > c.limit {
      PollExceedsLimit(c);
    }
  }
}
