/** The runTunnels event loop (psiphon/controller.go), interleaved with SignalTunnelFailure and
    with establishment, which connects tunnels and sets the target pool size in the background.

    The loop holds no lock: between any two of its steps, tunnels may fail, and when the failure
    channel has no room a failed tunnel leaves the pool at once. */
module RunTunnels {
  import opened TunnelPools

  /** Where the loop is. last: this connected tunnel will complete the pool. */
  datatype Point =
    | Begin                                   // before the first startEstablishing
    | Head                                    // at the select
    | Restarting                              // establishment stopped for a restart
    | Failing(t: Tunnel)                      // took t from failedTunnels
    | Failed                                  // terminated it
    | Taken(t: Tunnel)                        // took t from connectedTunnels
    | Counted(t: Tunnel, last: bool)          // numTunnels says there is room
    | Activating(t: Tunnel, last: bool)       // stopped establishing if last
    | Activated(t: Tunnel, last: bool)
    | Discarding(last: bool)
    | Registered
    | Complete                                // isFullyEstablished said yes
    | Finished

  /** launching: establishment has not yet set the pool size and started its workers. */
  datatype World = World(pool: Pool, establishing: bool, launching: bool,
                         failed: seq<Tunnel>, connected: seq<Tunnel>, point: Point)

  const INITIAL := World(Pool([], 0, 1), false, false, [], [], Begin)

  datatype Step =
    | Loop(activated: bool)                   // the loop's next step; activated is Activate's result
    | TakeRestart                             // the select receives a signal
    | TakeFailed
    | TakeConnected
    | TakeDone
    | Launch(size: int)                       // establishment sets the pool size and starts workers
    | Connect(t: Tunnel)                      // a worker delivers a connected tunnel
    | Signal(t: Tunnel)                       // SignalTunnelFailure
    | Dial                                    // getNextActiveTunnel for a port forward

  predicate Enabled(w: World, s: Step) {
    match s
    case Loop(_) => !w.point.Head? && !w.point.Finished?
    case TakeRestart => w.point.Head?
    case TakeFailed => w.point.Head? && w.failed != []
    case TakeConnected => w.point.Head? && w.connected != []
    case TakeDone => w.point.Head?
    case Launch(_) => w.establishing && w.launching
    case Connect(t) => w.establishing && !w.launching && |w.connected| < MAX_TUNNEL_POOL_SIZE
    case Signal(_) => true
    case Dial => true
  }

  function Started(w: World): World {
    if w.establishing then w else w.(establishing := true, launching := true)
  }

  function Stopped(w: World): World {
    w.(establishing := false, launching := false)
  }

  function Apply(w: World, s: Step): World
    requires w.pool.next <= |w.pool.tunnels| && Enabled(w, s)
  {
    match s
    case Loop(activated) => LoopStep(w, activated)
    case TakeRestart => if w.establishing then Stopped(w).(point := Restarting) else w
    case TakeFailed => w.(failed := w.failed[1..], point := Failing(w.failed[0]))
    case TakeConnected => w.(connected := w.connected[1..], point := Taken(w.connected[0]))
    case TakeDone => Stopped(w).(pool := Pool([], 0, w.pool.size), point := Finished)
    case Launch(size) => w.(pool := SetSize(w.pool, size), launching := false)
    case Connect(t) => w.(connected := w.connected + [t])
    case Signal(t) =>
      if |w.failed| < MAX_TUNNEL_POOL_SIZE then w.(failed := w.failed + [t])
      else w.(pool := Terminate(w.pool, t))
    case Dial => w.(pool := Pick(w.pool).1)
  }

  function LoopStep(w: World, activated: bool): World
    requires w.pool.next <= |w.pool.tunnels|
  {
    match w.point
    case Begin => Started(w).(point := Head)
    case Restarting => Started(w).(point := Head)
    case Failing(t) => w.(pool := Terminate(w.pool, t), point := Failed)
    case Failed => Started(w).(point := Head)
    case Taken(t) =>
      var outstanding := w.pool.size - |w.pool.tunnels|;
      if outstanding <= 0 then w.(point := Head) else w.(point := Counted(t, outstanding == 1))
    case Counted(t, last) => (if last then Stopped(w) else w).(point := Activating(t, last))
    case Activating(t, last) => w.(point := if activated then Activated(t, last) else Discarding(last))
    case Activated(t, last) =>
      var (pool, ok) := Register(w.pool, t);
      w.(pool := pool, point := if ok then Registered else Discarding(last))
    case Discarding(last) => (if last then Started(w) else w).(point := Head)
    case Registered => w.(point := if Full(w.pool) then Complete else Head)
    case Complete => Stopped(w).(point := Head)
    case Head => w
    case Finished => w
  }

  /** A pool that is not full is being filled: establishment is running, or a failure is waiting
      that will start it. */
  predicate Filling(w: World) {
    Full(w.pool) || w.establishing || w.failed != []
  }

  /** The pool lacks at most one tunnel, or a failure is waiting. */
  predicate OneShort(w: World) {
    |w.pool.tunnels| >= w.pool.size - 1 || w.failed != []
  }

  /** What the loop relies on at each point. */
  predicate Relies(w: World) {
    match w.point
    case Counted(_, last) => if last then OneShort(w) else Filling(w)
    case Activating(_, last) => if last then OneShort(w) && !w.establishing else Filling(w)
    case Activated(_, last) => if last then OneShort(w) && !w.establishing else Filling(w)
    case Discarding(last) => last || Filling(w)
    case Complete => Full(w.pool) || w.failed != []
    case Begin => true
    case Restarting => true
    case Failing(_) => true
    case Failed => true
    case Finished => true
    case _ => Filling(w)
  }

  ghost predicate Inv(w: World) {
    Valid(w.pool) && Relies(w)
  }

  /** Establishment enlarges the pool after the loop has decided to stop it. */
  predicate Grows(w: World, s: Step) {
    && s.Launch? && w.failed == []
    && var size := SetSize(w.pool, s.size).size;
       || (w.point.Counted? && w.point.last && |w.pool.tunnels| < size - 1)
       || (w.point.Complete? && |w.pool.tunnels| < size)
  }

  /** The loop's steps with a connected tunnel that is needed and activated: count it, stop establishing
      for the last one, activate, and then register. */
  function Handled(w: World): (r: World)
    requires w.pool.next <= |w.pool.tunnels| && w.point.Taken? && !Full(w.pool)
    ensures r.pool == Register(w.pool, w.point.t).0
    ensures if Register(w.pool, w.point.t).1 then r.point.Registered? else r.point.Discarding?
  {
    var counted := LoopStep(w, true);
    assert counted.point.Counted? && counted.point.t == w.point.t && counted.pool == w.pool;
    var stopped := LoopStep(counted, true);
    assert stopped.point.Activating? && stopped.point.t == w.point.t && stopped.pool == w.pool;
    var activated := LoopStep(stopped, true);
    assert activated.point.Activated? && activated.point.t == w.point.t && activated.pool == w.pool;
    LoopStep(activated, true)
  }

  /** With no room a connected tunnel is left alone. Otherwise it ends up in the pool exactly if no
      tunnel there has its server, and establishment has then been stopped exactly if the pool is full;
      if it is refused, the pool is as before and still being filled. */
  lemma OnlyNeededTunnels(w: World, activated: bool)
    requires w.pool.next <= |w.pool.tunnels| && w.point.Taken?
    ensures LoopStep(w, activated).point.Counted? <==> !Full(w.pool)
    ensures Full(w.pool) ==> LoopStep(w, activated) == w.(point := Head)
    ensures !Full(w.pool) && !HasServer(w.pool.tunnels, w.point.t.ip) ==>
      && Handled(w).point.Registered? && Handled(w).pool.tunnels == w.pool.tunnels + [w.point.t]
      && Handled(w).establishing == (w.establishing && !Full(Handled(w).pool))
    ensures !Full(w.pool) && HasServer(w.pool.tunnels, w.point.t.ip) ==>
      && Handled(w).pool == w.pool && Handled(w).point.Discarding?
      && (Filling(w) ==> Filling(LoopStep(Handled(w), activated)))
  {
  }

  lemma ValidKept(w: World, s: Step)
    requires Valid(w.pool) && Enabled(w, s)
    ensures Valid(Apply(w, s).pool)
  {
    match s
    case Signal(t) => TerminateKeepsOrder(w.pool, t);
    case Dial =>
      if w.pool.tunnels != [] {
        PickRotates(w.pool);
      }
    case Loop(_) =>
      if w.point.Failing? {
        TerminateKeepsOrder(w.pool, w.point.t);
      } else if w.point.Activated? {
        RegisterKeepsOrder(w.pool, w.point.t);
      }
    case _ =>
  }

  lemma LoopKeepsRelies(w: World, activated: bool)
    requires w.pool.next <= |w.pool.tunnels| && Relies(w) && Enabled(w, Loop(activated))
    ensures Relies(LoopStep(w, activated))
  {
  }

  /** Every step keeps the invariant, except exactly for the pool growing after the decision to
      stop establishing. */
  lemma InvKept(w: World, s: Step)
    requires Inv(w) && Enabled(w, s)
    ensures Inv(Apply(w, s)) <==> !Grows(w, s)
  {
    ValidKept(w, s);
    if s.Loop? {
      LoopKeepsRelies(w, s.activated);
    }
  }

  ghost predicate ValidRun(w: World, run: seq<Step>)
    decreases |run|
  {
    w.pool.next <= |w.pool.tunnels| && (run == [] || (Enabled(w, run[0]) && ValidRun(Apply(w, run[0]), run[1..])))
  }

  ghost function Exec(w: World, run: seq<Step>): World
    requires ValidRun(w, run)
    decreases |run|
  {
    if run == [] then w else Exec(Apply(w, run[0]), run[1..])
  }

  ghost predicate NeverGrows(w: World, run: seq<Step>)
    requires ValidRun(w, run)
    decreases |run|
  {
    run == [] || (!Grows(w, run[0]) && NeverGrows(Apply(w, run[0]), run[1..]))
  }

  lemma {:induction false} RunKeepsInv(w: World, run: seq<Step>)
    requires Inv(w) && ValidRun(w, run) && NeverGrows(w, run)
    ensures Inv(Exec(w, run))
    decreases |run|
  {
    if run != [] {
      InvKept(w, run[0]);
      RunKeepsInv(Apply(w, run[0]), run[1..]);
    }
  }

  /** Nothing has been connected yet, and nothing is until a pool size is set. */
  predicate Fresh(w: World) {
    && w.connected == [] && w.pool.tunnels == [] && (w.establishing ==> w.launching)
    && (|| w.point.Begin? || w.point.Head? || w.point.Restarting?
        || w.point.Failing? || w.point.Failed? || w.point.Finished?)
  }

  /** Establishment always asks for the same pool size. */
  predicate ConstantTarget(n: int, run: seq<Step>) {
    forall i :: 0 <= i < |run| && run[i].Launch? ==> run[i].size == n
  }

  lemma {:induction false} ConstantNeverGrows(w: World, n: int, run: seq<Step>)
    requires Inv(w) && ValidRun(w, run) && ConstantTarget(n, run)
    requires Fresh(w) || w.pool.size == SetSize(w.pool, n).size
    ensures NeverGrows(w, run)
    decreases |run|
  {
    if run != [] {
      var w' := Apply(w, run[0]);
      InvKept(w, run[0]);
      assert Fresh(w') || w'.pool.size == SetSize(w'.pool, n).size;
      ConstantNeverGrows(w', n, run[1..]);
    }
  }

  /** In every run the pool has distinct servers, at most 32 tunnels, and its cursor in range. */
  lemma {:induction false} PoolAlwaysValid(w: World, run: seq<Step>)
    requires Valid(w.pool) && ValidRun(w, run)
    ensures Valid(Exec(w, run).pool)
    decreases |run|
  {
    if run != [] {
      ValidKept(w, run[0]);
      PoolAlwaysValid(Apply(w, run[0]), run[1..]);
    }
  }

  /** No stalled pool: in every run in which the pool does not grow after a decision to stop, whenever
      the loop waits the pool is full, or establishment is running, or a failure is waiting. */
  lemma NoStalledPool(run: seq<Step>)
    requires ValidRun(INITIAL, run) && NeverGrows(INITIAL, run)
    ensures var w := Exec(INITIAL, run); w.point.Head? ==> Filling(w)
  {
    RunKeepsInv(INITIAL, run);
  }

  /** With a constant target size no run stalls. */
  lemma ConstantSizeNeverStalls(n: int, run: seq<Step>)
    requires ValidRun(INITIAL, run) && ConstantTarget(n, run)
    ensures var w := Exec(INITIAL, run); w.point.Head? ==> Filling(w)
  {
    ConstantNeverGrows(INITIAL, n, run);
    NoStalledPool(run);
  }

  // ---------------------------------------------------------------- a pool that grows can stall

  const A := Tunnel(0, 0)
  const B := Tunnel(1, 1)

  /** Two tunnels connect for a pool of one, and the first is used. */
  function FirstTunnel(): seq<Step> {
    [Loop(false), Launch(1), Connect(A), Connect(B), TakeConnected, Loop(false), Loop(false), Loop(true), Loop(false),
     Loop(false), Loop(false)]
  }

  /** It fails, establishment starts again, and the second tunnel is taken while establishment is
      still launching. */
  function SecondTunnel(): seq<Step> {
    [Signal(A), TakeFailed, Loop(false), Loop(false), TakeConnected, Loop(false)]
  }

  /** Establishment sets a pool size of two, and is stopped as no longer needed. */
  function Growth(): seq<Step> {
    [Launch(2), Loop(false), Loop(true), Loop(false), Loop(false)]
  }

  lemma {:induction false} ExecJoin(w: World, a: seq<Step>, b: seq<Step>)
    requires ValidRun(w, a) && ValidRun(Exec(w, a), b)
    ensures ValidRun(w, a + b) && Exec(w, a + b) == Exec(Exec(w, a), b)
    decreases |a|
  {
    if a == [] {
      assert a + b == b;
    } else {
      ExecJoin(Apply(w, a[0]), a[1..], b);
      assert (a + b)[1..] == a[1..] + b;
    }
  }

  /** The worlds ws follow each other by the steps of the run. */
  ghost predicate Trace(ws: seq<World>, run: seq<Step>) {
    |ws| == |run| + 1 && forall i :: 0 <= i < |run| ==> Next(ws[i], run[i], ws[i + 1])
  }

  predicate Next(w: World, s: Step, w': World) {
    w.pool.next <= |w.pool.tunnels| && Enabled(w, s) && Apply(w, s) == w'
  }

  lemma {:induction false} TraceRuns(ws: seq<World>, run: seq<Step>)
    requires Trace(ws, run) && ws[|run|].pool.next <= |ws[|run|].pool.tunnels|
    ensures ValidRun(ws[0], run) && Exec(ws[0], run) == ws[|run|]
    decreases |run|
  {
    if run != [] {
      assert Next(ws[0], run[0], ws[1]);
      forall i | 0 <= i < |run| - 1
        ensures Next(ws[1..][i], run[1..][i], ws[1..][i + 1])
      {
        assert Next(ws[i + 1], run[i + 1], ws[i + 1 + 1]);
      }
      TraceRuns(ws[1..], run[1..]);
    }
  }

  function FirstTunnelTrace(): seq<World> {
    [INITIAL,
     World(Pool([], 0, 1), true, true, [], [], Head),
     World(Pool([], 0, 1), true, false, [], [], Head),
     World(Pool([], 0, 1), true, false, [], [A], Head),
     World(Pool([], 0, 1), true, false, [], [A, B], Head),
     World(Pool([], 0, 1), true, false, [], [B], Taken(A)),
     World(Pool([], 0, 1), true, false, [], [B], Counted(A, true)),
     World(Pool([], 0, 1), false, false, [], [B], Activating(A, true)),
     World(Pool([], 0, 1), false, false, [], [B], Activated(A, true)),
     World(Pool([A], 0, 1), false, false, [], [B], Registered),
     World(Pool([A], 0, 1), false, false, [], [B], Complete),
     World(Pool([A], 0, 1), false, false, [], [B], Head)]
  }

  lemma FirstTunnelStep(i: nat)
    requires i < 11
    ensures Next(FirstTunnelTrace()[i], FirstTunnel()[i], FirstTunnelTrace()[i + 1])
  {
    var ws, run := FirstTunnelTrace(), FirstTunnel();
    if i == 0 {
      assert Next(ws[0], run[0], ws[1]);
    } else if i == 1 {
      assert Next(ws[1], run[1], ws[2]);
    } else if i == 2 {
      assert Next(ws[2], run[2], ws[3]);
    } else if i == 3 {
      assert Next(ws[3], run[3], ws[4]);
    } else if i == 4 {
      assert Next(ws[4], run[4], ws[5]);
    } else if i == 5 {
      assert Next(ws[5], run[5], ws[6]);
    } else if i == 6 {
      assert Next(ws[6], run[6], ws[7]);
    } else if i == 7 {
      assert Next(ws[7], run[7], ws[8]);
    } else if i == 8 {
      assert Register(ws[8].pool, A).0.tunnels == [A];
      assert Next(ws[8], run[8], ws[9]);
    } else if i == 9 {
      assert Next(ws[9], run[9], ws[10]);
    } else if i == 10 {
      assert Next(ws[10], run[10], ws[11]);
    }
  }

  function SecondTunnelTrace(): seq<World> {
    [World(Pool([A], 0, 1), false, false, [], [B], Head),
     World(Pool([A], 0, 1), false, false, [A], [B], Head),
     World(Pool([A], 0, 1), false, false, [], [B], Failing(A)),
     World(Pool([], 0, 1), false, false, [], [B], Failed),
     World(Pool([], 0, 1), true, true, [], [B], Head),
     World(Pool([], 0, 1), true, true, [], [], Taken(B)),
     World(Pool([], 0, 1), true, true, [], [], Counted(B, true))]
  }

  lemma SecondTunnelStep(i: nat)
    requires i < 6
    ensures Next(SecondTunnelTrace()[i], SecondTunnel()[i], SecondTunnelTrace()[i + 1])
  {
    var ws, run := SecondTunnelTrace(), SecondTunnel();
    if i == 0 {
      assert Next(ws[0], run[0], ws[1]);
    } else if i == 1 {
      assert Next(ws[1], run[1], ws[2]);
    } else if i == 2 {
      assert [A][1..] == [] && Without([A], A) == [];
      assert Terminate(ws[2].pool, A) == ws[3].pool;
      assert Next(ws[2], run[2], ws[3]);
    } else if i == 3 {
      assert Next(ws[3], run[3], ws[4]);
    } else if i == 4 {
      assert Next(ws[4], run[4], ws[5]);
    } else if i == 5 {
      assert Next(ws[5], run[5], ws[6]);
    }
  }

  function GrowthTrace(): seq<World> {
    [World(Pool([], 0, 1), true, true, [], [], Counted(B, true)),
     World(Pool([], 0, 2), true, false, [], [], Counted(B, true)),
     World(Pool([], 0, 2), false, false, [], [], Activating(B, true)),
     World(Pool([], 0, 2), false, false, [], [], Activated(B, true)),
     World(Pool([B], 0, 2), false, false, [], [], Registered),
     World(Pool([B], 0, 2), false, false, [], [], Head)]
  }

  lemma GrowthStep(i: nat)
    requires i < 5
    ensures Next(GrowthTrace()[i], Growth()[i], GrowthTrace()[i + 1])
  {
    var ws, run := GrowthTrace(), Growth();
    if i == 0 {
      assert Next(ws[0], run[0], ws[1]);
    } else if i == 1 {
      assert Next(ws[1], run[1], ws[2]);
    } else if i == 2 {
      assert Next(ws[2], run[2], ws[3]);
    } else if i == 3 {
      assert Next(ws[3], run[3], ws[4]);
    } else if i == 4 {
      assert Next(ws[4], run[4], ws[5]);
    }
  }

  /** The loop then waits with room in the pool, no establishment and no failure to start it. */
  lemma GrowthStalls()
    ensures ValidRun(INITIAL, FirstTunnel() + SecondTunnel() + Growth())
    ensures var w := Exec(INITIAL, FirstTunnel() + SecondTunnel() + Growth()); w.point.Head? && !Filling(w)
  {
    forall i: nat | i < 11 { FirstTunnelStep(i); }
    forall i: nat | i < 6 { SecondTunnelStep(i); }
    forall i: nat | i < 5 { GrowthStep(i); }
    TraceRuns(FirstTunnelTrace(), FirstTunnel());
    TraceRuns(SecondTunnelTrace(), SecondTunnel());
    TraceRuns(GrowthTrace(), Growth());
    ExecJoin(INITIAL, FirstTunnel(), SecondTunnel());
    ExecJoin(INITIAL, FirstTunnel() + SecondTunnel(), Growth());
  }
}
