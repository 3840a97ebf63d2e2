/** One establishment (psiphon/controller.go): the candidate generator and the workers, which share
    the dial counters under a mutex and the server affinity broadcast without one. */
module Establishment {
  import opened Bytes
  import opened ProtocolSelection

  datatype Candidate = Candidate(server: Server, affinity: bool)

  /** An accepted dial. forcedReplay: a replay under forced in-proxy selection. */
  datatype Dial = Dial(number: nat, protocol: Protocol, forcedReplay: bool)

  datatype Worker =
    | Waiting                                 // for a candidate
    | Has(c: Candidate)
    | Dialing(c: Candidate, dial: Dial)       // between the increment and the decrement
    | Leaving(c: Candidate)                   // done with the candidate, before closing the broadcast
    | Exited

  /** mark: the next candidate will be the server affinity candidate. */
  datatype Generator = Unstarted | Running(mark: bool) | Ended

  /** dials is history: all accepted dials. closes counts how often the broadcast was closed. */
  datatype World = World(
    workers: map<nat, Worker>, generator: Generator,
    connectTunnelCount: nat, concurrentIntensive: int, forceSelection: int,
    closes: nat, dials: seq<Dial>)

  function Init(workers: set<nat>, forceSelection: int): World {
    World(map id | id in workers :: Waiting, Unstarted, 0, 0, forceSelection, 0, [])
  }

  /** What a selection depends on outside of the shared state. limit is the intensive worker limit,
      read before the lock is taken; skipped: MakeDialParameters skips the candidate or fails for
      another reason. */
  datatype Choice = Choice(limit: int, stored: Option<Protocol>, prioritized: Option<Protocol>, limiter: Limiter,
                           chance: Chance, skipped: bool)

  datatype Step =
    | StartGenerator(applyAffinity: bool)
    | Offer(id: nat, server: Server)
    | EndGenerator                            // possibly with a candidate in hand
    | PassOver(id: nat, exit: bool)           // a tunnel to that server is active, or establishment stops
    | Select(id: nat, choice: Choice)
    | Return(id: nat)                         // ConnectTunnel returns, with or without a tunnel
    | Leave(id: nat, exit: bool)

  predicate Enabled(w: World, s: Step) {
    match s
    case StartGenerator(_) => w.generator.Unstarted?
    case Offer(id, _) => w.generator.Running? && id in w.workers && w.workers[id].Waiting?
    case EndGenerator => w.generator.Running?
    case PassOver(id, _) => id in w.workers && w.workers[id].Has?
    case Select(id, _) => id in w.workers && w.workers[id].Has?
    case Return(id) => id in w.workers && w.workers[id].Dialing?
    case Leave(id, _) => id in w.workers && w.workers[id].Leaving?
  }

  predicate ExcludesIntensive(w: World, limit: int) {
    limit > 0 && w.concurrentIntensive >= limit
  }

  predicate Forces(c: Constraints, w: World, excludeIntensive: bool, server: Server) {
    && !excludeIntensive && w.forceSelection > 0
    && HasInproxy(Supported(c, w.connectTunnelCount, excludeIntensive, server))
  }

  function Apply(c: Constraints, w: World, s: Step): World
    requires Enabled(w, s)
  {
    match s
    case StartGenerator(apply) =>
      w.(generator := Running(apply), closes := if apply then w.closes else w.closes + 1)
    case Offer(id, server) =>
      w.(generator := Running(false), workers := w.workers[id := Has(Candidate(server, w.generator.mark))])
    case EndGenerator => w.(generator := Ended)
    case PassOver(id, exit) => w.(workers := w.workers[id := if exit then Exited else Waiting])
    case Select(id, choice) => SelectStep(c, w, id, choice)
    case Return(id) =>
      w.(workers := w.workers[id := Leaving(w.workers[id].c)],
         concurrentIntensive := w.concurrentIntensive - if Intensive(w.workers[id].dial.protocol) then 1 else 0)
    case Leave(id, exit) =>
      w.(workers := w.workers[id := if exit then Exited else Waiting],
         closes := if w.workers[id].c.affinity then w.closes + 1 else w.closes)
  }

  /** The part of the worker under the mutex, from the limit check to the increments. */
  function SelectStep(c: Constraints, w: World, id: nat, choice: Choice): World
    requires id in w.workers && w.workers[id].Has?
  {
    var candidate, k := w.workers[id].c, w.connectTunnelCount;
    var exclude := ExcludesIntensive(w, choice.limit);
    var forced := Forces(c, w, exclude, candidate.server);
    var w1 := if forced then w.(forceSelection := w.forceSelection - 1) else w;
    var protocol := DialProtocol(c, k, exclude, forced, choice.stored, choice.prioritized, candidate.server,
                                 choice.limiter, choice.chance);
    if choice.skipped || protocol.None? then w1.(workers := w.workers[id := Leaving(candidate)])
    else
      var dial := Dial(k, protocol.value, forced && choice.stored == protocol && protocol.value.inproxy);
      w1.(workers := w.workers[id := Dialing(candidate, dial)], connectTunnelCount := k + 1,
          concurrentIntensive := w.concurrentIntensive + if Intensive(protocol.value) then 1 else 0,
          dials := w.dials + [dial])
  }

  // ---------------------------------------------------------------- intensive workers

  ghost function DialingIntensive(workers: map<nat, Worker>): set<nat> {
    set id | id in workers && workers[id].Dialing? && Intensive(workers[id].dial.protocol)
  }

  ghost predicate CapInv(w: World, limit: int) {
    w.concurrentIntensive == |DialingIntensive(w.workers)| <= limit
  }

  /** The limit read in this step is between 1 and the cap. */
  predicate WithinCap(s: Step, cap: int) {
    s.Select? ==> 0 < s.choice.limit <= cap
  }

  /** How the set of intensive dials changes with one worker. */
  lemma WorkerMoves(workers: map<nat, Worker>, id: nat, v: Worker)
    requires id in workers
    ensures DialingIntensive(workers[id := v]) ==
              if v.Dialing? && Intensive(v.dial.protocol) then DialingIntensive(workers) + {id}
              else DialingIntensive(workers) - {id}
  {
  }

  lemma SelectKeepsCap(c: Constraints, w: World, id: nat, choice: Choice, cap: int)
    requires CapInv(w, cap) && id in w.workers && w.workers[id].Has? && 0 < choice.limit <= cap
    ensures CapInv(SelectStep(c, w, id, choice), cap)
  {
    var w' := SelectStep(c, w, id, choice);
    WorkerMoves(w.workers, id, w'.workers[id]);
    assert id !in DialingIntensive(w.workers);
    if w'.workers[id].Dialing? {
      var exclude, server := ExcludesIntensive(w, choice.limit), w.workers[id].c.server;
      DialMeetsConstraints(c, w.connectTunnelCount, exclude, Forces(c, w, exclude, server), choice.stored,
                           choice.prioritized, server, choice.limiter, choice.chance);
    }
  }

  lemma CapKept(c: Constraints, w: World, s: Step, cap: int)
    requires CapInv(w, cap) && Enabled(w, s) && WithinCap(s, cap)
    ensures CapInv(Apply(c, w, s), cap)
  {
    match s
    case Offer(id, server) => WorkerMoves(w.workers, id, Has(Candidate(server, w.generator.mark)));
    case PassOver(id, exit) => WorkerMoves(w.workers, id, if exit then Exited else Waiting);
    case Select(id, choice) => SelectKeepsCap(c, w, id, choice, cap);
    case Return(id) => WorkerMoves(w.workers, id, Leaving(w.workers[id].c));
    case Leave(id, exit) => WorkerMoves(w.workers, id, if exit then Exited else Waiting);
    case _ =>
  }

  // ---------------------------------------------------------------- dial numbers and limits

  /** Dials are numbered in order, and each protocol is from the list in force for its number: the
      initial list for the first dials, and the general one after them. */
  ghost predicate DialInv(c: Constraints, w: World) {
    && w.connectTunnelCount == |w.dials|
    && (forall i :: 0 <= i < |w.dials| ==>
          && w.dials[i].number == i
          && var p := w.dials[i].protocol;
             (if w.dials[i].forcedReplay then p.inproxy
              else if c.initial != [] && i < c.initialCount then p in c.initial
              else if c.limit != [] then p in c.limit
              else p !in c.defaultDisabled))
    && (forall id :: id in w.workers && w.workers[id].Dialing? ==> w.workers[id].dial in w.dials)
    && (forall id, id' :: id in w.workers && id' in w.workers && id != id' ==>
          (w.workers[id].Dialing? && w.workers[id'].Dialing? ==>
             w.workers[id].dial.number != w.workers[id'].dial.number))
  }

  lemma DialKept(c: Constraints, w: World, s: Step)
    requires DialInv(c, w) && Enabled(w, s)
    ensures DialInv(c, Apply(c, w, s))
  {
    if s.Select? {
      var w' := Apply(c, w, s);
      if w'.workers[s.id].Dialing? {
        var exclude, server := ExcludesIntensive(w, s.choice.limit), w.workers[s.id].c.server;
        DialMeetsConstraints(c, w.connectTunnelCount, exclude, Forces(c, w, exclude, server), s.choice.stored,
                             s.choice.prioritized, server, s.choice.limiter, s.choice.chance);
      }
    }
  }

  // ---------------------------------------------------------------- forced selection

  function ForcedReplays(dials: seq<Dial>): nat {
    if dials == [] then 0
    else ForcedReplays(dials[..|dials| - 1]) + if dials[|dials| - 1].forcedReplay then 1 else 0
  }

  function AtLeastZero(n: int): nat {
    if n < 0 then 0 else n
  }

  /** Every forced replay has used up one forced selection. */
  ghost predicate ForceInv(w: World, forceSelection: int) {
    ForcedReplays(w.dials) + AtLeastZero(w.forceSelection) <= AtLeastZero(forceSelection)
  }

  lemma ForceKept(c: Constraints, w: World, s: Step, forceSelection: int)
    requires ForceInv(w, forceSelection) && Enabled(w, s)
    ensures ForceInv(Apply(c, w, s), forceSelection)
  {
    var w' := Apply(c, w, s);
    if w'.dials != w.dials {
      assert w'.dials[..|w'.dials| - 1] == w.dials;
    }
  }

  // ---------------------------------------------------------------- affinity broadcast

  predicate Marked(worker: Worker) {
    (worker.Has? || worker.Dialing? || worker.Leaving?) && worker.c.affinity
  }

  /** The duty to close the broadcast is with the generator, with one worker, or spent. */
  ghost predicate CloseInv(w: World) {
    && w.closes <= 1
    && (w.generator.Unstarted? ==> w.closes == 0)
    && (w.generator.Running? && w.generator.mark ==> w.closes == 0)
    && (forall id :: id in w.workers && Marked(w.workers[id]) ==>
          && w.closes == 0 && !w.generator.Unstarted? && !(w.generator.Running? && w.generator.mark)
          && forall id' :: id' in w.workers && Marked(w.workers[id']) ==> id' == id)
  }

  lemma CloseKept(c: Constraints, w: World, s: Step)
    requires CloseInv(w) && Enabled(w, s)
    ensures CloseInv(Apply(c, w, s))
  {
  }

  // ---------------------------------------------------------------- runs

  ghost predicate ValidRun(c: Constraints, w: World, run: seq<Step>)
    decreases |run|
  {
    run == [] || (Enabled(w, run[0]) && ValidRun(c, Apply(c, w, run[0]), run[1..]))
  }

  ghost function Exec(c: Constraints, w: World, run: seq<Step>): World
    requires ValidRun(c, w, run)
    decreases |run|
  {
    if run == [] then w else Exec(c, Apply(c, w, run[0]), run[1..])
  }

  lemma {:induction false} RunKeeps(c: Constraints, w: World, run: seq<Step>, cap: int, n: int)
    requires ValidRun(c, w, run) && DialInv(c, w) && CloseInv(w)
    ensures DialInv(c, Exec(c, w, run)) && CloseInv(Exec(c, w, run))
    ensures CapInv(w, cap) && (forall i :: 0 <= i < |run| ==> WithinCap(run[i], cap)) ==> CapInv(Exec(c, w, run), cap)
    ensures ForceInv(w, n) ==> ForceInv(Exec(c, w, run), n)
    decreases |run|
  {
    if run != [] {
      if ForceInv(w, n) {
        ForceKept(c, w, run[0], n);
      }
      DialKept(c, w, run[0]);
      CloseKept(c, w, run[0]);
      if CapInv(w, cap) && WithinCap(run[0], cap) {
        CapKept(c, w, run[0], cap);
      }
      RunKeeps(c, Apply(c, w, run[0]), run[1..], cap, n);
    }
  }

  /** Intensive worker cap: with a limit that stays between 1 and cap, the counter is the number of
      workers dialing an intensive protocol, and never exceeds cap, through fresh selection, replay,
      exchanged records and forced in-proxy selection. */
  lemma IntensiveWorkerCap(c: Constraints, workers: set<nat>, forceSelection: int, run: seq<Step>, cap: int)
    requires cap >= 0 && ValidRun(c, Init(workers, forceSelection), run)
    requires forall i :: 0 <= i < |run| ==> WithinCap(run[i], cap)
    ensures var w := Exec(c, Init(workers, forceSelection), run);
      w.concurrentIntensive == |DialingIntensive(w.workers)| <= cap
  {
    var w := Init(workers, forceSelection);
    assert DialingIntensive(w.workers) == {};
    RunKeeps(c, w, run, cap, forceSelection);
  }

  /** Accepted dials are numbered 0, 1, 2, … across all workers, and dial k uses a protocol from the
      list in force for k, or replays an in-proxy protocol under forced selection; there are no more
      of the latter than forced selections. */
  lemma LimitsInForce(c: Constraints, workers: set<nat>, forceSelection: int, run: seq<Step>)
    requires ValidRun(c, Init(workers, forceSelection), run)
    ensures var w := Exec(c, Init(workers, forceSelection), run);
      DialInv(c, w) && ForcedReplays(w.dials) <= AtLeastZero(forceSelection)
  {
    RunKeeps(c, Init(workers, forceSelection), run, 0, forceSelection);
  }

  /** In personal pairing mode every dial is in-proxy. */
  lemma PersonalPairing(initial: seq<Protocol>, initialCount: int, limit: seq<Protocol>, replayCount: int,
                        allInproxy: seq<Protocol>, defaultDisabled: seq<Protocol>,
                        workers: set<nat>, forceSelection: int, run: seq<Step>)
    requires allInproxy != [] && IsOnlyInproxy(allInproxy)
    requires var c := MakeConstraints(initial, initialCount, limit, replayCount, true, allInproxy, defaultDisabled);
      ValidRun(c, Init(workers, forceSelection), run)
    ensures var c := MakeConstraints(initial, initialCount, limit, replayCount, true, allInproxy, defaultDisabled);
      var w := Exec(c, Init(workers, forceSelection), run);
      forall i :: 0 <= i < |w.dials| ==> w.dials[i].protocol.inproxy
  {
    var c := MakeConstraints(initial, initialCount, limit, replayCount, true, allInproxy, defaultDisabled);
    LimitsInForce(c, workers, forceSelection, run);
    var w := Exec(c, Init(workers, forceSelection), run);
    forall i | 0 <= i < |w.dials|
      ensures w.dials[i].protocol.inproxy
    {
      PersonalLimits(initial, initialCount, limit, replayCount, allInproxy, defaultDisabled, i);
    }
  }

  /** The server affinity broadcast is closed at most once in an establishment: by the generator,
      and then no candidate is ever marked, or by the one worker with the marked candidate. */
  lemma ClosedAtMostOnce(c: Constraints, workers: set<nat>, forceSelection: int, run: seq<Step>)
    requires ValidRun(c, Init(workers, forceSelection), run)
    ensures var w := Exec(c, Init(workers, forceSelection), run); w.closes <= 1 && CloseInv(w)
  {
    RunKeeps(c, Init(workers, forceSelection), run, 0, forceSelection);
  }
}
