/** Tunnel protocol selection for one dial (psiphon/controller.go, psiphon/dialParameters.go): the
    protocol limits in force, replay, forced in-proxy selection and the in-proxy rate limiter. */
module ProtocolSelection {
  import opened Bytes

  /** heavy stands for meek, QUIC and refraction networking. */
  datatype Protocol = Protocol(id: nat, inproxy: bool, heavy: bool)

  predicate Intensive(p: Protocol) {
    p.heavy || p.inproxy
  }

  /** A server entry, with the protocols that pass all checks but the limit lists. */
  datatype Server = Server(capable: seq<Protocol>)

  datatype Constraints = Constraints(
    initial: seq<Protocol>, initialCount: int, limit: seq<Protocol>,
    replayCount: int, personal: bool, defaultDisabled: seq<Protocol>)

  // ---------------------------------------------------------------- protocol lists

  function Filter(s: seq<Protocol>, f: Protocol -> bool): (r: seq<Protocol>)
    ensures forall p :: p in r <==> p in s && f(p)
  {
    if s == [] then [] else (if f(s[0]) then [s[0]] else []) + Filter(s[1..], f)
  }

  function OnlyInproxyOf(s: seq<Protocol>): seq<Protocol> {
    Filter(s, (p: Protocol) => p.inproxy)
  }

  function NoInproxyOf(s: seq<Protocol>): seq<Protocol> {
    Filter(s, (p: Protocol) => !p.inproxy)
  }

  predicate HasInproxy(s: seq<Protocol>) {
    exists p :: p in s && p.inproxy
  }

  predicate IsOnlyInproxy(s: seq<Protocol>) {
    forall p :: p in s ==> p.inproxy
  }

  /** The constraints of an establishment. In personal pairing mode only in-proxy protocols remain. */
  function MakeConstraints(initial: seq<Protocol>, initialCount: int, limit: seq<Protocol>, replayCount: int,
                           personal: bool, allInproxy: seq<Protocol>, defaultDisabled: seq<Protocol>): Constraints {
    if !personal then Constraints(initial, initialCount, limit, replayCount, false, defaultDisabled)
    else
      var pruned := OnlyInproxyOf(limit);
      Constraints(OnlyInproxyOf(initial), initialCount, if pruned == [] then allInproxy else pruned,
                  replayCount, true, defaultDisabled)
  }

  /** The list in force for dial number k. */
  function Limits(c: Constraints, k: nat): seq<Protocol> {
    if c.initial != [] && c.initialCount > k then c.initial else c.limit
  }

  /** GetSupportedProtocols under the limits in force. */
  function Supported(c: Constraints, k: nat, excludeIntensive: bool, server: Server): seq<Protocol> {
    var limits := Limits(c, k);
    Filter(server.capable, (p: Protocol) =>
      && (if limits != [] then p in limits else p !in c.defaultDisabled)
      && !(excludeIntensive && Intensive(p)))
  }

  // ---------------------------------------------------------------- one dial

  /** The in-proxy rate limiter and what it asks for before a token is taken. */
  datatype Limiter = NoLimiter | Limiter(haveSpecs: bool, haveCompartments: bool, allows: bool)

  /** The random choices of one selection. */
  datatype Chance = Chance(coin: bool, pick: nat, secondPick: nat)

  function SelectProtocol(c: Constraints, k: nat, excludeIntensive: bool, prefer: bool, prioritized: Option<Protocol>,
                          server: Server, limiter: Limiter, chance: Chance): Option<Protocol> {
    var supported := Supported(c, k, excludeIntensive, server);
    var candidates := if prefer && HasInproxy(supported) then OnlyInproxyOf(supported) else supported;
    if candidates == [] then None
    else
      var selected :=
        if prioritized.Some? && prioritized.value in candidates then prioritized.value
        else candidates[chance.pick % |candidates|];
      if !selected.inproxy || limiter.NoLimiter? then Some(selected)
      else if prefer || c.personal || IsOnlyInproxy(Limits(c, k)) then
        if limiter.haveSpecs && (c.personal || limiter.haveCompartments) && limiter.allows then Some(selected) else None
      else if limiter.haveSpecs && limiter.haveCompartments && limiter.allows then Some(selected)
      else
        var others := NoInproxyOf(candidates);
        if others == [] then None else Some(others[chance.secondPick % |others|])
  }

  /** The canReplay callback. */
  predicate CanReplay(c: Constraints, k: nat, excludeIntensive: bool, forced: bool, server: Server, p: Protocol) {
    if forced then p.inproxy
    else (c.replayCount == -1 || k <= c.replayCount) && p in Supported(c, k, excludeIntensive, server)
  }

  /** The protocol MakeDialParameters settles on. stored is the protocol of an unexpired record, from
      a previous success or from an exchange. */
  function DialProtocol(c: Constraints, k: nat, excludeIntensive: bool, forced: bool, stored: Option<Protocol>,
                        prioritized: Option<Protocol>, server: Server, limiter: Limiter,
                        chance: Chance): Option<Protocol> {
    if stored.Some? && CanReplay(c, k, excludeIntensive, forced, server, stored.value) then stored
    else SelectProtocol(c, k, excludeIntensive, forced || chance.coin, prioritized, server, limiter, chance)
  }

  /** Every way of settling on a protocol ends inside the supported list, except for the replay of
      an in-proxy protocol under forced selection. */
  lemma DialMeetsConstraints(c: Constraints, k: nat, excludeIntensive: bool, forced: bool, stored: Option<Protocol>,
                             prioritized: Option<Protocol>, server: Server, limiter: Limiter, chance: Chance)
    ensures var dial := DialProtocol(c, k, excludeIntensive, forced, stored, prioritized, server, limiter, chance);
      dial.Some? && !(forced && stored == dial && dial.value.inproxy) ==>
        && dial.value in server.capable && !(excludeIntensive && Intensive(dial.value))
        && (if Limits(c, k) != [] then dial.value in Limits(c, k) else dial.value !in c.defaultDisabled)
  {
    var dial := DialProtocol(c, k, excludeIntensive, forced, stored, prioritized, server, limiter, chance);
    if dial.Some? && !(forced && stored == dial && dial.value.inproxy) {
      assert dial.value in Supported(c, k, excludeIntensive, server);
    }
  }

  /** A dial's protocol is outside of the supported list exactly if the selection is forced and there is
      a stored in-proxy protocol that is outside. */
  lemma OutsideExactly(c: Constraints, k: nat, excludeIntensive: bool, forced: bool, stored: Option<Protocol>,
                       prioritized: Option<Protocol>, server: Server, limiter: Limiter, chance: Chance)
    ensures var dial := DialProtocol(c, k, excludeIntensive, forced, stored, prioritized, server, limiter, chance);
      dial.Some? ==>
        (dial.value !in Supported(c, k, excludeIntensive, server) <==>
           forced && stored.Some? && stored.value.inproxy && stored.value !in Supported(c, k, excludeIntensive, server))
  {
    var dial := DialProtocol(c, k, excludeIntensive, forced, stored, prioritized, server, limiter, chance);
    if dial.Some? && !(forced && stored == dial && dial.value.inproxy) {
      DialMeetsConstraints(c, k, excludeIntensive, forced, stored, prioritized, server, limiter, chance);
    }
  }

  lemma OnlyInproxy(s: seq<Protocol>)
    ensures IsOnlyInproxy(OnlyInproxyOf(s)) && (HasInproxy(s) ==> OnlyInproxyOf(s) != [])
  {
    if HasInproxy(s) {
      var p :| p in s && p.inproxy;
      assert p in OnlyInproxyOf(s);
    }
  }

  /** A preferred in-proxy protocol is selected, if anything is, when the server supports one. */
  lemma PreferredInproxy(c: Constraints, k: nat, excludeIntensive: bool, prioritized: Option<Protocol>,
                         server: Server, limiter: Limiter, chance: Chance)
    requires HasInproxy(Supported(c, k, excludeIntensive, server))
    ensures var dial := SelectProtocol(c, k, excludeIntensive, true, prioritized, server, limiter, chance);
      dial.Some? ==> dial.value.inproxy
  {
    OnlyInproxy(Supported(c, k, excludeIntensive, server));
  }

  /** A forced selection for a server with a supported in-proxy protocol dials in-proxy or not at all,
      by replay or anew. */
  lemma ForcedDialsInproxy(c: Constraints, k: nat, excludeIntensive: bool, stored: Option<Protocol>,
                           prioritized: Option<Protocol>, server: Server, limiter: Limiter, chance: Chance)
    requires HasInproxy(Supported(c, k, excludeIntensive, server))
    ensures var dial := DialProtocol(c, k, excludeIntensive, true, stored, prioritized, server, limiter, chance);
      dial.Some? ==> dial.value.inproxy
  {
    PreferredInproxy(c, k, excludeIntensive, prioritized, server, limiter, chance);
  }

  /** Forced selection can replay a protocol outside of the list in force. */
  lemma ForcedReplayEscapes()
    ensures var x, y := Protocol(0, true, false), Protocol(1, true, false);
      var c := Constraints([], 0, [y], -1, false, []);
      DialProtocol(c, 0, false, true, Some(x), None, Server([x, y]), NoLimiter, Chance(false, 0, 0)) == Some(x)
      && x !in Limits(c, 0)
  {
  }

  /** In personal pairing mode the list in force is never empty and holds in-proxy protocols only. */
  lemma PersonalLimits(initial: seq<Protocol>, initialCount: int, limit: seq<Protocol>, replayCount: int,
                       allInproxy: seq<Protocol>, defaultDisabled: seq<Protocol>, k: nat)
    requires allInproxy != [] && IsOnlyInproxy(allInproxy)
    ensures var c := MakeConstraints(initial, initialCount, limit, replayCount, true, allInproxy, defaultDisabled);
      Limits(c, k) != [] && IsOnlyInproxy(Limits(c, k))
  {
  }
}
