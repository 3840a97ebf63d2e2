/** The life of a dial parameters record (psiphon/dialParameters.go, psiphon/dataStore.go): placeholders
    for prioritized servers, records imported in an exchange, and records of successful dials; and
    when a dial is marked as a replay. */
module ReplayRecords {
  import opened Bytes
  import ServerEntries

  /** The fields of a record that its life depends on. Hashes stand for the config state and the
      server entry at the last use; prioritized: it goes back to a dial from a placeholder. */
  datatype Record = Record(
    pendingSince: Option<int>, isExchanged: bool, lastUsed: Option<int>, config: nat, server: nat, prioritized: bool)

  /** History: what wrote a record. */
  datatype Writer = ByPrioritize | ByExchange | BySuccess(ip: bytes, network: bytes, at: int, server: nat)

  /** A dial made by MakeDialParameters. ttl and source, the writer of the record it replays, are
      history. */
  datatype Dial = Dial(ip: bytes, network: bytes, at: int, isReplay: bool, lastUsed: Option<int>,
                       config: nat, server: nat, prioritized: bool, ttl: int, source: Option<Writer>)

  /** What MakeDialParameters finds around it. unreadable: the stored record does not unmarshal; unfit:
      it has values that are no longer supported; steered: another steering IP than at the last
      use; skipped: no protocol is selected, or the candidate is skipped for another reason. */
  datatype Env = Env(
    now: int, ttl: int, placeholderTTL: int, config: nat, server: nat, ignoreChangedConfig: bool, unreadable: bool,
    unfit: bool, disableReplay: bool, canReplay: bool, steered: bool, skipped: bool)

  datatype Store = Store(records: map<bytes, Record>, writers: map<bytes, Writer>)

  // ---------------------------------------------------------------- operations

  function Put(s: Store, key: bytes, r: Record, writer: Writer): Store {
    Store(s.records[key := r], s.writers[key := writer])
  }

  function Remove(s: Store, key: bytes): Store {
    Store(s.records - {key}, s.writers - {key})
  }

  /** dslPrioritizeDialServerEntry */
  function Prioritize(s: Store, ip: bytes, network: bytes, now: int): Store {
    var key := ServerEntries.DialKey(ip, network);
    if key in s.records then s else Put(s, key, Record(Some(now), false, None, 0, 0, false), ByPrioritize)
  }

  /** Import of an exchange payload with dial parameters. */
  function Exchange(s: Store, ip: bytes, network: bytes, now: int, config: nat, server: nat): Store {
    Put(s, ServerEntries.DialKey(ip, network), Record(None, true, Some(now), config, server, false), ByExchange)
  }

  /** A stored record that is expired, or does not fit the current state, is not used again. */
  predicate Outdated(r: Record, env: Env) {
    || env.ttl <= 0
    || r.lastUsed.None? || r.lastUsed.value < env.now - env.ttl
    || (!env.ignoreChangedConfig && r.config != env.config)
    || r.server != env.server
    || env.unfit
  }

  predicate PlaceholderExpired(since: int, env: Env) {
    env.placeholderTTL > 0 && since < env.now - env.placeholderTTL
  }

  /** The replay gate of MakeDialParameters. */
  function MakeDial(s: Store, ip: bytes, network: bytes, env: Env): (Store, Option<Dial>) {
    var key := ServerEntries.DialKey(ip, network);
    var stored := if key in s.records && !env.unreadable then Some(s.records[key]) else None;
    var pending := stored.Some? && stored.value.pendingSince.Some?;
    var outdated := stored.Some? && !pending && Outdated(stored.value, env);
    var expired := pending && PlaceholderExpired(stored.value.pendingSince.value, env);
    var s' := if expired || outdated then Remove(s, key) else s;
    var used := stored.Some? && !pending && !outdated && !env.disableReplay && env.canReplay;
    var replays := used && !stored.value.isExchanged;
    if env.skipped then (s', None)
    else
      (s', Some(Dial(ip, network, env.now, replays && !env.steered, if env.ttl > 0 then Some(env.now) else None,
                     env.config, env.server, pending || (replays && stored.value.prioritized), env.ttl,
                     if used && key in s.writers then Some(s.writers[key]) else None)))
  }

  /** Succeeded: without a TTL nothing is stored. */
  function Succeed(s: Store, d: Dial): Store {
    if d.lastUsed.None? then s
    else Put(s, ServerEntries.DialKey(d.ip, d.network),
             Record(None, false, d.lastUsed, d.config, d.server, d.prioritized),
             BySuccess(d.ip, d.network, d.lastUsed.value, d.server))
  }

  /** Failed. The retain flags are the outcomes of the coin flips. */
  function Fail(s: Store, d: Dial, retainReplay: bool, retainPrioritized: bool): Store {
    if (d.isReplay && !retainReplay) || (d.prioritized && !d.isReplay && !retainPrioritized)
    then Remove(s, ServerEntries.DialKey(d.ip, d.network)) else s
  }

  /** Prioritizing never overwrites a record, of whatever kind. */
  lemma PrioritizeKeepsRecords(s: Store, ip: bytes, network: bytes, now: int)
    ensures var s' := Prioritize(s, ip, network, now);
      && (forall key :: key in s.records ==> key in s'.records && s'.records[key] == s.records[key])
      && ServerEntries.DialKey(ip, network) in s'.records
      && s'.records.Keys == s.records.Keys + {ServerEntries.DialKey(ip, network)}
  {
  }

  /** What a dial, its success and its failure do is done to the record of their own key. */
  lemma OwnRecordOnly(s: Store, ip: bytes, network: bytes, env: Env, d: Dial, retainReplay: bool,
                      retainPrioritized: bool, key: bytes)
    requires key != ServerEntries.DialKey(ip, network) && d.ip == ip && d.network == network && key in s.records
    ensures forall s' ::
      s' in {MakeDial(s, ip, network, env).0, Succeed(s, d), Fail(s, d, retainReplay, retainPrioritized)} ==>
        key in s'.records && s'.records[key] == s.records[key]
  {
  }

  /** A record that could be replayed stays, also when this dial may not use it; a dial that fails
      takes its record exactly if it was a replay or goes back to a placeholder, and is not retained. */
  lemma FreshRecordsStay(s: Store, ip: bytes, network: bytes, env: Env, d: Dial, retainReplay: bool,
                         retainPrioritized: bool)
    ensures var key := ServerEntries.DialKey(ip, network);
      key in s.records && s.records[key].pendingSince.None? && !Outdated(s.records[key], env) ==>
        MakeDial(s, ip, network, env).0 == s
    ensures !d.isReplay && !d.prioritized ==> Fail(s, d, retainReplay, retainPrioritized) == s
    ensures ServerEntries.DialKey(d.ip, d.network) in Fail(s, d, retainReplay, retainPrioritized).records <==>
              && ServerEntries.DialKey(d.ip, d.network) in s.records
              && (if d.isReplay then retainReplay else !d.prioritized || retainPrioritized)
  {
  }

  /** A record that could be replayed, and may be by this dial. */
  predicate Replays(r: Record, env: Env) {
    && r.pendingSince.None? && !r.isExchanged && !env.unreadable && !Outdated(r, env)
    && !env.disableReplay && env.canReplay
  }

  /** What a failed dial does to the record it found: a replayed one goes unless retained; one that was
      replayed but steered elsewhere goes exactly if it goes back to a placeholder and is not retained,
      as does a placeholder; any other stays as the dial left it. */
  lemma FailedDialTakes(s: Store, ip: bytes, network: bytes, env: Env, retainReplay: bool, retainPrioritized: bool)
    requires MakeDial(s, ip, network, env).1.Some? && ServerEntries.DialKey(ip, network) in s.records
    ensures var key := ServerEntries.DialKey(ip, network);
      var (r, s', d) := (s.records[key], MakeDial(s, ip, network, env).0, MakeDial(s, ip, network, env).1.value);
      Fail(s', d, retainReplay, retainPrioritized) ==
        if Replays(r, env) && !env.steered then if retainReplay then s' else Remove(s', key)
        else if (Replays(r, env) && r.prioritized) || (r.pendingSince.Some? && !env.unreadable) then
          if retainPrioritized then s' else Remove(s', key)
        else s'
  {
  }

  /** Success and the next replay: the record goes back to a placeholder exactly if the first dial came
      from one or from a record that did. */
  lemma PrioritizedHandedDown(s: Store, d: Dial, env: Env)
    requires d.lastUsed.Some?
    ensures var s' := Succeed(s, d);
      var r := s'.records[ServerEntries.DialKey(d.ip, d.network)];
      var next := MakeDial(s', d.ip, d.network, env).1;
      next.Some? ==>
        && (next.value.prioritized <==> Replays(r, env) && d.prioritized)
        && (next.value.isReplay <==> Replays(r, env) && !env.steered)
  {
  }

  // ---------------------------------------------------------------- runs

  datatype World = World(s: Store, dials: map<nat, Dial>)

  datatype Step =
    | PrioritizeStep(ip: bytes, network: bytes, now: int)
    | ExchangeStep(ip: bytes, network: bytes, now: int, config: nat, server: nat)
    | DialStep(id: nat, ip: bytes, network: bytes, env: Env)
    | SucceedStep(id: nat)
    | FailStep(id: nat, retainReplay: bool, retainPrioritized: bool)
    | DeleteStep(key: bytes)                  // with its server entry

  predicate Enabled(w: World, step: Step) {
    match step
    case DialStep(id, _, _, _) => id !in w.dials
    case SucceedStep(id) => id in w.dials
    case FailStep(id, _, _) => id in w.dials
    case _ => true
  }

  function Apply(w: World, step: Step): World
    requires Enabled(w, step)
  {
    match step
    case PrioritizeStep(ip, network, now) => w.(s := Prioritize(w.s, ip, network, now))
    case ExchangeStep(ip, network, now, config, server) => w.(s := Exchange(w.s, ip, network, now, config, server))
    case DialStep(id, ip, network, env) =>
      var (s, d) := MakeDial(w.s, ip, network, env);
      World(s, if d.Some? then w.dials[id := d.value] else w.dials)
    case SucceedStep(id) => w.(s := Succeed(w.s, w.dials[id]))
    case FailStep(id, retainReplay, retainPrioritized) =>
      w.(s := Fail(w.s, w.dials[id], retainReplay, retainPrioritized))
    case DeleteStep(key) => w.(s := Remove(w.s, key))
  }

  ghost predicate ValidRun(w: World, run: seq<Step>)
    decreases |run|
  {
    run == [] || (Enabled(w, run[0]) && ValidRun(Apply(w, run[0]), run[1..]))
  }

  ghost function Exec(w: World, run: seq<Step>): World
    requires ValidRun(w, run)
    decreases |run|
  {
    if run == [] then w else Exec(Apply(w, run[0]), run[1..])
  }

  const START := World(Store(map[], map[]), map[])

  /** A server and a network. */
  datatype Pair = Pair(ip: bytes, network: bytes)

  /** Different pairs have different keys. */
  ghost predicate NoCollisions(pairs: set<Pair>) {
    forall p, q :: p in pairs && q in pairs ==>
      (ServerEntries.DialKey(p.ip, p.network) == ServerEntries.DialKey(q.ip, q.network) ==> p == q)
  }

  predicate Uses(step: Step, pairs: set<Pair>) {
    match step
    case PrioritizeStep(ip, network, _) => Pair(ip, network) in pairs
    case ExchangeStep(ip, network, _, _, _) => Pair(ip, network) in pairs
    case DialStep(_, ip, network, _) => Pair(ip, network) in pairs
    case _ => true
  }

  /** The record is what its writer leaves. */
  predicate WrittenBy(key: bytes, r: Record, writer: Writer, pairs: set<Pair>) {
    match writer
    case ByPrioritize => r.pendingSince.Some?
    case ByExchange => r.pendingSince.None? && r.isExchanged
    case BySuccess(ip, network, at, server) =>
      && r.pendingSince.None? && !r.isExchanged && r.lastUsed == Some(at) && r.server == server
      && key == ServerEntries.DialKey(ip, network) && Pair(ip, network) in pairs
  }

  /** A dial marked as replay used a record last written by a success of the same server and network,
      no older than the TTL, with the same server entry hash. */
  predicate Truthful(d: Dial) {
    d.isReplay ==>
      && d.source.Some? && d.source.value.BySuccess?
      && var writer := d.source.value;
         && writer.ip == d.ip && writer.network == d.network
         && d.ttl > 0 && writer.at >= d.at - d.ttl && writer.server == d.server
  }

  ghost predicate StoreInv(s: Store, pairs: set<Pair>) {
    && s.records.Keys == s.writers.Keys
    && (forall key :: key in s.records ==> WrittenBy(key, s.records[key], s.writers[key], pairs))
  }

  ghost predicate Inv(w: World, pairs: set<Pair>) {
    && StoreInv(w.s, pairs)
    && (forall id :: id in w.dials ==> Truthful(w.dials[id]) && Pair(w.dials[id].ip, w.dials[id].network) in pairs)
  }

  lemma MakeDialTruthful(s: Store, ip: bytes, network: bytes, env: Env, pairs: set<Pair>)
    requires StoreInv(s, pairs) && NoCollisions(pairs) && Pair(ip, network) in pairs
    ensures var (s', d) := MakeDial(s, ip, network, env);
      StoreInv(s', pairs) && (d.Some? ==> Truthful(d.value) && d.value.ip == ip && d.value.network == network)
  {
    var (s', d) := MakeDial(s, ip, network, env);
    if d.Some? && d.value.isReplay {
      var writer := s.writers[ServerEntries.DialKey(ip, network)];
      assert writer.BySuccess? && Pair(writer.ip, writer.network) == Pair(ip, network);
    }
  }

  lemma InvKept(w: World, step: Step, pairs: set<Pair>)
    requires Inv(w, pairs) && NoCollisions(pairs) && Enabled(w, step) && Uses(step, pairs)
    ensures Inv(Apply(w, step), pairs)
  {
    if step.DialStep? {
      MakeDialTruthful(w.s, step.ip, step.network, step.env, pairs);
    }
  }

  lemma {:induction false} RunKeepsInv(w: World, run: seq<Step>, pairs: set<Pair>)
    requires Inv(w, pairs) && NoCollisions(pairs) && ValidRun(w, run)
    requires forall i :: 0 <= i < |run| ==> Uses(run[i], pairs)
    ensures Inv(Exec(w, run), pairs)
    decreases |run|
  {
    if run != [] {
      InvKept(w, run[0], pairs);
      RunKeepsInv(Apply(w, run[0]), run[1..], pairs);
    }
  }

  ghost predicate AllTruthful(run: seq<Step>)
    requires ValidRun(START, run)
  {
    var w := Exec(START, run);
    forall id :: id in w.dials ==> Truthful(w.dials[id])
  }

  ghost predicate RunOver(run: seq<Step>, pairs: set<Pair>) {
    ValidRun(START, run) && forall i :: 0 <= i < |run| ==> Uses(run[i], pairs)
  }

  /** Two pairs with one key: a dial to the second server is marked as a replay of the first. */
  function CollisionRun(a: Pair, b: Pair): seq<Step> {
    var env := Env(0, 1, 0, 0, 0, false, false, false, false, true, false, false);
    [DialStep(0, a.ip, a.network, env), SucceedStep(0), DialStep(1, b.ip, b.network, env)]
  }

  lemma CollisionMisleads(a: Pair, b: Pair)
    requires ServerEntries.DialKey(a.ip, a.network) == ServerEntries.DialKey(b.ip, b.network) && a != b
    ensures ValidRun(START, CollisionRun(a, b)) && !AllTruthful(CollisionRun(a, b))
  {
    var run := CollisionRun(a, b);
    var w1 := Apply(START, run[0]);
    var w2 := Apply(w1, run[1]);
    var w3 := Apply(w2, run[2]);
    assert run[1..][1..] == run[2..] && run[2..][1..] == [];
    assert ValidRun(w2, run[2..]) && Exec(w2, run[2..]) == w3;
    assert ValidRun(w1, run[1..]) && Exec(w1, run[1..]) == w3;
    assert Exec(START, run) == w3;
    assert 1 in w3.dials && !Truthful(w3.dials[1]);
  }

  /** Replay truth: over all runs of prioritizing, exchange, dials, successes, failures and deletions
      for some pairs of servers and networks, every dial marked as a replay is one, exactly if no
      two of the pairs have the same key. */
  lemma ReplayTruth(pairs: set<Pair>)
    ensures NoCollisions(pairs) <==> forall run :: RunOver(run, pairs) ==> AllTruthful(run)
  {
    if NoCollisions(pairs) {
      forall run | RunOver(run, pairs)
        ensures AllTruthful(run)
      {
        RunKeepsInv(START, run, pairs);
      }
    } else {
      var a, b :| a in pairs && b in pairs && a != b
        && ServerEntries.DialKey(a.ip, a.network) == ServerEntries.DialKey(b.ip, b.network);
      CollisionMisleads(a, b);
      assert RunOver(CollisionRun(a, b), pairs);
    }
  }

  // ---------------------------------------------------------------- in place

  class DialParametersStore {
    var records: map<bytes, Record>
    ghost var writers: map<bytes, Writer>

    ghost function State(): Store
      reads this
    {
      Store(records, writers)
    }

    constructor ()
      ensures State() == START.s
    {
      records, writers := map[], map[];
    }

    /** The replay gate, step by step; what it leaves in the store, whether the dial is a replay,
        and whether it goes back to a placeholder. */
    method MakeDialParameters(ip: bytes, network: bytes, env: Env)
      returns (made: bool, isReplay: bool, prioritized: bool)
      modifies this
      ensures State() == MakeDial(old(State()), ip, network, env).0
      ensures var d := MakeDial(old(State()), ip, network, env).1;
        made == d.Some? && (made ==> isReplay == d.value.isReplay && prioritized == d.value.prioritized)
    {
      var key := ServerEntries.DialKey(ip, network);
      var dialParams := if key in records && !env.unreadable then Some(records[key]) else None;
      var pending := dialParams.Some? && dialParams.value.pendingSince.Some?;
      if pending {
        if env.placeholderTTL > 0 && dialParams.value.pendingSince.value < env.now - env.placeholderTTL {
          records, writers := records - {key}, writers - {key};
        }
        dialParams := None;
      }
      if dialParams.Some? {
        var r := dialParams.value;
        if env.ttl <= 0 || r.lastUsed.None? || r.lastUsed.value < env.now - env.ttl
           || (!env.ignoreChangedConfig && r.config != env.config) || r.server != env.server || env.unfit {
          records, writers := records - {key}, writers - {key};
          dialParams := None;
        }
      }
      if dialParams.Some? && (env.disableReplay || !env.canReplay) {
        dialParams := None;
      }
      isReplay := dialParams.Some?;
      if isReplay && dialParams.value.isExchanged {
        isReplay := false;
      }
      prioritized := pending || (isReplay && dialParams.value.prioritized);
      if env.steered {
        isReplay := false;
      }
      made := !env.skipped;
    }
  }
}
