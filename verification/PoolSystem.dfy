/**
 * One server's connection pool as a system of interleaved steps. A task between two await points does one step;
 * cancellation, failed connects, failed health checks, dropped guards and `close_idle` are steps like the others.
 */
module PoolSystem {
  import opened Bytes

  /** A pooled connection; `armed` is its drop guard, `good` that it is ready and connected. */
  datatype Pooled = Pooled(id: nat, good: bool, armed: bool)

  /** Where a task stands. Only `Waiting`, `Uncounting` and `Gone` are without a permit. */
  datatype Task =
    | Waiting
    | HasPermit
    | HealthCheck(pooled: Pooled)
    | Creating
    | CheckedOut(pooled: Pooled, counted: bool)
    | Returning(counted: bool)
    | Uncounting
    | Gone

  /**
   * `lock` is which async task is inside a downloader's critical section on the server, and `active` the server's
   * `connections_active`; `leaked` counts the guards dropped while still counted.
   */
  datatype Pool = Pool(
    limit: nat, permits: nat, idle: seq<Pooled>, created: nat,
    tasks: seq<Task>, lock: Option<nat>, active: nat, leaked: nat)

  datatype Action =
    | Start
    | GiveUp(t: nat)
    | Grab(t: nat)
    | Pop(t: nat, stale: bool)
    | PingOk(t: nat)
    | PingFail(t: nat)
    | Connected(t: nat)
    | ConnectFailed(t: nat)
    | Cancel(t: nat)
    | Use(t: nat, good: bool)
    | CountUp(t: nat)
    | Park(t: nat)
    | Discard(t: nat)
    | AddPermit(t: nat)
    | Uncount(t: nat)
    | DropGuard(t: nat)
    | CloseIdle

  predicate At(s: Pool, t: nat) {
    t < |s.tasks|
  }

  predicate Enabled(s: Pool, a: Action) {
    match a
    case Start => true
    case GiveUp(t) => At(s, t) && s.tasks[t].Waiting?
    case Grab(t) => At(s, t) && s.tasks[t].Waiting? && s.permits > 0
    case Pop(t, _) => At(s, t) && s.tasks[t].HasPermit?
    case PingOk(t) => At(s, t) && s.tasks[t].HealthCheck?
    case PingFail(t) => At(s, t) && s.tasks[t].HealthCheck?
    case Connected(t) => At(s, t) && s.tasks[t].Creating?
    case ConnectFailed(t) => At(s, t) && s.tasks[t].Creating?
    case Cancel(t) => At(s, t) && (s.tasks[t].HasPermit? || s.tasks[t].HealthCheck? || s.tasks[t].Creating?)
    case Use(t, _) => At(s, t) && s.tasks[t].CheckedOut?
    case CountUp(t) => At(s, t) && s.tasks[t].CheckedOut? && !s.tasks[t].counted && s.lock == None
    case Park(t) => At(s, t) && s.tasks[t].CheckedOut? && (s.tasks[t].counted ==> s.lock == None)
    case Discard(t) => At(s, t) && s.tasks[t].CheckedOut? && (s.tasks[t].counted ==> s.lock == None)
    case AddPermit(t) => At(s, t) && s.tasks[t].Returning?
    case Uncount(t) => At(s, t) && s.tasks[t].Uncounting?
    case DropGuard(t) => At(s, t) && s.tasks[t].CheckedOut?
    case CloseIdle => true
  }

  function Become(s: Pool, t: nat, to: Task): Pool
    requires At(s, t)
  {
    s.(tasks := s.tasks[t := to])
  }

  function Last(idle: seq<Pooled>): Pooled
    requires idle != []
  {
    idle[|idle| - 1]
  }

  function Step(s: Pool, a: Action): Pool
    requires Enabled(s, a)
  {
    match a
    case Start => s.(tasks := s.tasks + [Waiting])
    case GiveUp(t) => Become(s, t, Gone)
    case Grab(t) => Become(s.(permits := s.permits - 1), t, HasPermit)
    case Pop(t, stale) =>
      if s.idle == [] then Become(s, t, Creating)
      else
        var pooled, rest := Last(s.idle), s.(idle := s.idle[..|s.idle| - 1]);
        if !pooled.good then Become(rest, t, Creating)
        else if stale then Become(rest, t, HealthCheck(pooled))
        else Become(rest, t, CheckedOut(pooled.(armed := true), false))
    case PingOk(t) => Become(s, t, CheckedOut(s.tasks[t].pooled.(armed := true), false))
    case PingFail(t) => Become(s, t, Creating)
    case Connected(t) => Become(s.(created := s.created + 1), t, CheckedOut(Pooled(s.created, true, true), false))
    case ConnectFailed(t) => Become(s.(created := s.created + 1, permits := s.permits + 1), t, Gone)
    case Cancel(t) => Become(s.(permits := s.permits + 1), t, Gone)
    case Use(t, good) => Become(s, t, s.tasks[t].(pooled := s.tasks[t].pooled.(good := good)))
    case CountUp(t) => Become(s.(active := s.active + 1), t, s.tasks[t].(counted := true))
    case Park(t) =>
      var pooled, counted := s.tasks[t].pooled.(armed := false), s.tasks[t].counted;
      var parked := if pooled.good then s.(idle := s.idle + [pooled]) else s;
      Become(parked.(lock := if counted then Some(t) else s.lock), t, Returning(counted))
    case Discard(t) =>
      Become(s.(lock := if s.tasks[t].counted then Some(t) else s.lock), t, Returning(s.tasks[t].counted))
    case AddPermit(t) => Become(s.(permits := s.permits + 1), t, if s.tasks[t].counted then Uncounting else Gone)
    case Uncount(t) => Become(s.(active := if s.active == 0 then 0 else s.active - 1, lock := None), t, Gone)
    case DropGuard(t) =>
      var lost := if s.tasks[t].counted then s.leaked + 1 else s.leaked;
      Become(s.(permits := if s.tasks[t].pooled.armed then s.permits + 1 else s.permits, leaked := lost), t, Gone)
    case CloseIdle => s.(idle := [])
  }

  // ----- counting tasks -----

  function Total(tasks: seq<Task>, w: Task -> nat): nat {
    if tasks == [] then 0 else Total(tasks[..|tasks| - 1], w) + w(tasks[|tasks| - 1])
  }

  lemma {:induction false} TotalUpdate(tasks: seq<Task>, t: nat, to: Task, w: Task -> nat)
    requires t < |tasks|
    ensures Total(tasks[t := to], w) + w(tasks[t]) == Total(tasks, w) + w(to)
  {
    var n := |tasks| - 1;
    if t == n {
      assert tasks[t := to][..n] == tasks[..n];
    } else {
      assert tasks[t := to][..n] == tasks[..n][t := to];
      TotalUpdate(tasks[..n], t, to, w);
    }
  }

  lemma TotalAppend(tasks: seq<Task>, to: Task, w: Task -> nat)
    ensures Total(tasks + [to], w) == Total(tasks, w) + w(to)
  {
    assert (tasks + [to])[..|tasks|] == tasks;
  }

  lemma {:induction false} TotalSum(tasks: seq<Task>, a: Task -> nat, b: Task -> nat, c: Task -> nat)
    requires forall i :: 0 <= i < |tasks| ==> a(tasks[i]) <= b(tasks[i]) + c(tasks[i])
    ensures Total(tasks, a) <= Total(tasks, b) + Total(tasks, c)
  {
    if tasks != [] {
      TotalSum(tasks[..|tasks| - 1], a, b, c);
    }
  }

  lemma {:induction false} TotalZero(tasks: seq<Task>, w: Task -> nat)
    requires forall i :: 0 <= i < |tasks| ==> w(tasks[i]) == 0
    ensures Total(tasks, w) == 0
  {
    if tasks != [] {
      TotalZero(tasks[..|tasks| - 1], w);
    }
  }

  function Bit(b: bool): nat {
    if b then 1 else 0
  }

  /** Tasks that hold a slot of the semaphore, as an owned permit, in a drop guard, or on its way back. */
  function Holds(task: Task): nat {
    Bit(!task.Waiting? && !task.Uncounting? && !task.Gone?)
  }

  /** Tasks that account for an open connection outside the pool. */
  function Opens(task: Task): nat {
    Bit(task.HealthCheck? || task.Creating? || task.CheckedOut?)
  }

  /** Tasks whose slot is not matched by an open connection of their own. */
  function Spare(task: Task): nat {
    Bit(task.HasPermit? || task.Returning?)
  }

  /** Tasks between their increment and their decrement of `connections_active`. */
  function Counted(task: Task): nat {
    Bit((task.CheckedOut? && task.counted) || (task.Returning? && task.counted) || task.Uncounting?)
  }

  /** Tasks that have a given connection. */
  function Owns(id: nat): Task -> nat {
    (task: Task) => Bit((task.HealthCheck? || task.CheckedOut?) && task.pooled.id == id)
  }

  function Parked(idle: seq<Pooled>, id: nat): nat {
    if idle == [] then 0 else Parked(idle[..|idle| - 1], id) + Bit(Last(idle).id == id)
  }

  function Places(s: Pool, id: nat): nat {
    Parked(s.idle, id) + Total(s.tasks, Owns(id))
  }

  /** Connections parked, being checked, being created or checked out. */
  function OpenConnections(s: Pool): nat {
    |s.idle| + Total(s.tasks, Opens)
  }

  // ----- the invariant -----

  ghost predicate GuardsRight(s: Pool) {
    && (forall i :: 0 <= i < |s.idle| ==> !s.idle[i].armed && s.idle[i].good)
    && (forall t :: 0 <= t < |s.tasks| ==>
          && (s.tasks[t].HealthCheck? ==> !s.tasks[t].pooled.armed && s.tasks[t].pooled.good)
          && (s.tasks[t].CheckedOut? ==> s.tasks[t].pooled.armed))
  }

  predicate InSection(task: Task) {
    (task.Returning? && task.counted) || task.Uncounting?
  }

  ghost predicate LockRight(s: Pool) {
    && (s.lock.Some? ==> At(s, s.lock.value) && InSection(s.tasks[s.lock.value]))
    && (forall t :: 0 <= t < |s.tasks| && InSection(s.tasks[t]) ==> s.lock == Some(t))
  }

  ghost predicate NoSharing(s: Pool) {
    forall id: nat :: Places(s, id) <= if id < s.created then 1 else 0
  }

  /** Slots are conserved, and every parked connection has a slot nobody uses. */
  predicate SlotsRight(s: Pool) {
    s.permits + Total(s.tasks, Holds) == s.limit && |s.idle| <= s.permits + Total(s.tasks, Spare)
  }

  /** The counter is exact up to leaks, and the counted tasks fit the limit. */
  predicate CounterRight(s: Pool) {
    s.active == Total(s.tasks, Counted) + s.leaked && Total(s.tasks, Counted) <= s.limit
  }

  ghost predicate Inv(s: Pool) {
    SlotsRight(s) && CounterRight(s) && GuardsRight(s) && LockRight(s) && NoSharing(s)
  }

  function Initial(limit: nat): Pool {
    Pool(limit, limit, [], 0, [], None, 0, 0)
  }

  lemma InitialInv(limit: nat)
    ensures Inv(Initial(limit))
  {
  }

  /** Which task takes a step, if it is one already there. */
  function ActorOf(a: Action): Option<nat> {
    if a.Start? || a.CloseIdle? then None else Some(a.t)
  }

  lemma ParkedPush(idle: seq<Pooled>, p: Pooled, id: nat)
    ensures Parked(idle + [p], id) == Parked(idle, id) + Bit(p.id == id)
  {
    assert (idle + [p])[..|idle|] == idle;
  }

  lemma NoneInSection(s: Pool)
    requires LockRight(s) && s.lock == None
    ensures Total(s.tasks, Counted) <= Total(s.tasks, Holds)
  {
    TotalSum(s.tasks, Counted, Holds, (task: Task) => 0);
    TotalZero(s.tasks, (task: Task) => 0);
  }

  /**
   * What a step throws away: a connection discarded, dropped, found dead or abandoned in its health check, one that is
   * parked or popped in a bad state, and whatever is parked when the idle ones are closed.
   */
  function Lost(s: Pool, a: Action, id: nat): nat
    requires Enabled(s, a)
  {
    match a
    case Discard(t) => Bit(s.tasks[t].pooled.id == id)
    case DropGuard(t) => Bit(s.tasks[t].pooled.id == id)
    case PingFail(t) => Bit(s.tasks[t].pooled.id == id)
    case Cancel(t) => Bit(s.tasks[t].HealthCheck? && s.tasks[t].pooled.id == id)
    case Park(t) => Bit(!s.tasks[t].pooled.good && s.tasks[t].pooled.id == id)
    case Pop(t, _) => Bit(s.idle != [] && !Last(s.idle).good && Last(s.idle).id == id)
    case CloseIdle => Parked(s.idle, id)
    case _ => 0
  }

  function Made(s: Pool, a: Action, id: nat): nat {
    Bit(a.Connected? && id == s.created)
  }

  /** Conservation of connections: a step moves them, but for those it throws away and the one it makes. */
  lemma PlacesExactly(s: Pool, a: Action, id: nat)
    requires Enabled(s, a)
    ensures Places(Step(s, a), id) + Lost(s, a, id) == Places(s, id) + Made(s, a, id)
  {
    hide Total, Parked;
    if a.Start? {
      TotalAppend(s.tasks, Waiting, Owns(id));
    } else if a.CloseIdle? {
      NoneParked(id);
    } else {
      TotalUpdate(s.tasks, a.t, Step(s, a).tasks[a.t], Owns(id));
      if a.Park? {
        ParkedPush(s.idle, s.tasks[a.t].pooled.(armed := false), id);
      } else if a.Pop? && s.idle != [] {
        var rest := s.idle[..|s.idle| - 1];
        assert s.idle == rest + [Last(s.idle)];
        ParkedPush(rest, Last(s.idle), id);
      }
    }
  }

  lemma NoneParked(id: nat)
    ensures Parked([], id) == 0
  {
  }

  /** A connection given back in a good state is parked last, and the next one to look at the idle list gets it. */
  lemma ParkedIsReused(s: Pool, t: nat, u: nat)
    requires Enabled(s, Park(t)) && s.tasks[t].pooled.good && At(s, u) && u != t && s.tasks[u].HasPermit?
    ensures var after, pooled := Step(s, Park(t)), s.tasks[t].pooled;
      && after.idle == s.idle + [pooled.(armed := false)]
      && Enabled(after, Pop(u, false)) && Step(after, Pop(u, false)).idle == s.idle
      && Step(after, Pop(u, false)).tasks[u] == CheckedOut(pooled.(armed := true), false)
      && Step(after, Pop(u, true)).tasks[u] == HealthCheck(pooled.(armed := false))
  {
    var pooled := s.tasks[t].pooled.(armed := false);
    assert (s.idle + [pooled])[..|s.idle|] == s.idle && Last(s.idle + [pooled]) == pooled;
  }

  lemma StepKeepsPlaces(s: Pool, a: Action)
    requires Enabled(s, a) && ActorOf(a).Some? && NoSharing(s)
    ensures NoSharing(Step(s, a))
  {
    hide Places, Lost;
    forall id: nat
      ensures Places(Step(s, a), id) <= if id < Step(s, a).created then 1 else 0
    {
      PlacesExactly(s, a, id);
    }
  }

  lemma StepKeepsGuards(s: Pool, a: Action)
    requires Enabled(s, a) && GuardsRight(s)
    ensures GuardsRight(Step(s, a))
  {
  }

  lemma StepKeepsLock(s: Pool, a: Action)
    requires Enabled(s, a) && LockRight(s)
    ensures LockRight(Step(s, a))
  {
    var after := Step(s, a);
    forall t | 0 <= t < |after.tasks| && InSection(after.tasks[t])
      ensures after.lock == Some(t)
    {
      LockHolder(s, a, t);
    }
  }

  /** A task inside the section after a step was there before it, or took the lock with it. */
  lemma LockHolder(s: Pool, a: Action, t: nat)
    requires Enabled(s, a) && LockRight(s) && At(Step(s, a), t) && InSection(Step(s, a).tasks[t])
    ensures Step(s, a).lock == Some(t)
  {
    assert ActorOf(a) != Some(t) ==> t < |s.tasks| && InSection(s.tasks[t]);
  }

  lemma StepKeepsSlots(s: Pool, a: Action)
    requires Enabled(s, a) && ActorOf(a).Some? && SlotsRight(s) && GuardsRight(s)
    ensures SlotsRight(Step(s, a))
  {
    hide Total;
    var to := Step(s, a).tasks[a.t];
    TotalUpdate(s.tasks, a.t, to, Holds);
    TotalUpdate(s.tasks, a.t, to, Spare);
  }

  lemma StepKeepsCounter(s: Pool, a: Action)
    requires Enabled(s, a) && ActorOf(a).Some? && CounterRight(s)
    requires a.CountUp? ==> SlotsRight(Step(s, a)) && LockRight(Step(s, a))
    ensures CounterRight(Step(s, a))
  {
    hide Total, LockRight;
    var after := Step(s, a);
    TotalUpdate(s.tasks, a.t, after.tasks[a.t], Counted);
    if a.CountUp? {
      NoneInSection(after);
    }
  }

  lemma StartKeeps(s: Pool)
    requires Inv(s)
    ensures Inv(Step(s, Start))
  {
    hide Total;
    TotalAppend(s.tasks, Waiting, Holds);
    TotalAppend(s.tasks, Waiting, Spare);
    TotalAppend(s.tasks, Waiting, Counted);
    forall id: nat
      ensures Places(Step(s, Start), id) == Places(s, id)
    {
      TotalAppend(s.tasks, Waiting, Owns(id));
    }
  }

  lemma CloseIdleKeeps(s: Pool)
    requires Inv(s)
    ensures Inv(Step(s, CloseIdle))
  {
    forall id: nat
      ensures Places(Step(s, CloseIdle), id) <= Places(s, id)
    {
    }
  }

  /** Every enabled step keeps the invariant. */
  lemma StepKeeps(s: Pool, a: Action)
    requires Inv(s) && Enabled(s, a)
    ensures Inv(Step(s, a))
  {
    if a.Start? {
      StartKeeps(s);
    } else if a.CloseIdle? {
      CloseIdleKeeps(s);
    } else {
      hide Step, Enabled;
      StepKeepsGuards(s, a);
      StepKeepsLock(s, a);
      StepKeepsSlots(s, a);
      StepKeepsCounter(s, a);
      StepKeepsPlaces(s, a);
    }
  }

  // ----- every run -----

  predicate Legal(s: Pool, run: seq<Action>)
    decreases |run|
  {
    run != [] ==> Enabled(s, run[0]) && Legal(Step(s, run[0]), run[1..])
  }

  function After(s: Pool, run: seq<Action>): Pool
    requires Legal(s, run)
    decreases |run|
  {
    if run == [] then s else After(Step(s, run[0]), run[1..])
  }

  lemma {:induction false} RunKeeps(s: Pool, run: seq<Action>)
    requires Inv(s) && Legal(s, run)
    ensures Inv(After(s, run))
    ensures After(s, run).limit == s.limit
    decreases |run|
  {
    hide Inv, Step, Enabled;
    if run != [] {
      StepKeeps(s, run[0]);
      StepFrame(s, run[0]);
      RunKeeps(Step(s, run[0]), run[1..]);
    }
  }

  /** What a step leaves alone: the limit, and every task but its own. */
  lemma StepFrame(s: Pool, a: Action)
    requires Enabled(s, a)
    ensures Step(s, a).limit == s.limit && |s.tasks| <= |Step(s, a).tasks|
    ensures forall t :: 0 <= t < |s.tasks| && ActorOf(a) != Some(t) ==> Step(s, a).tasks[t] == s.tasks[t]
  {
  }

  /**
   * The open-connection bound. After any run from a fresh pool, the connections parked, being checked, being
   * created or checked out are at most the limit, although a parked one holds no permit.
   */
  lemma OpenConnectionBound(limit: nat, run: seq<Action>)
    requires Legal(Initial(limit), run)
    ensures OpenConnections(After(Initial(limit), run)) <= limit
  {
    hide Step, Enabled;
    InitialInv(limit);
    RunKeeps(Initial(limit), run);
    var s := After(Initial(limit), run);
    TotalSplit(s.tasks);
  }

  /** A task that holds a slot either accounts for an open connection or has the slot to spare. */
  lemma {:induction false} TotalSplit(tasks: seq<Task>)
    ensures Total(tasks, Holds) == Total(tasks, Opens) + Total(tasks, Spare)
  {
    if tasks != [] {
      TotalSplit(tasks[..|tasks| - 1]);
    }
  }

  /**
   * Permit conservation: slots are never made or lost, parked connections are ready and disarmed, and at rest every
   * permit is free.
   */
  lemma PermitConservation(limit: nat, run: seq<Action>)
    requires Legal(Initial(limit), run)
    ensures var s := After(Initial(limit), run);
      && s.permits + Total(s.tasks, Holds) == limit
      && (forall i :: 0 <= i < |s.idle| ==> !s.idle[i].armed && s.idle[i].good)
      && ((forall t :: 0 <= t < |s.tasks| ==> s.tasks[t].Waiting? || s.tasks[t].Gone?) ==> s.permits == limit)
  {
    hide Step, Enabled;
    InitialInv(limit);
    RunKeeps(Initial(limit), run);
    var s := After(Initial(limit), run);
    if forall t :: 0 <= t < |s.tasks| ==> s.tasks[t].Waiting? || s.tasks[t].Gone? {
      TotalZero(s.tasks, Holds);
    }
  }

  /** What a run has thrown away of a connection, and made of it. */
  function LostIn(s: Pool, run: seq<Action>, id: nat): nat
    requires Legal(s, run)
    decreases |run|
  {
    if run == [] then 0 else Lost(s, run[0], id) + LostIn(Step(s, run[0]), run[1..], id)
  }

  function MadeIn(s: Pool, run: seq<Action>, id: nat): nat
    requires Legal(s, run)
    decreases |run|
  {
    if run == [] then 0 else Made(s, run[0], id) + MadeIn(Step(s, run[0]), run[1..], id)
  }

  lemma {:induction false} RunPlaces(s: Pool, run: seq<Action>, id: nat)
    requires Legal(s, run)
    ensures Places(After(s, run), id) + LostIn(s, run, id) == Places(s, id) + MadeIn(s, run, id)
    decreases |run|
  {
    hide Step, Enabled, Lost, Made, Places;
    if run != [] {
      PlacesExactly(s, run[0], id);
      RunPlaces(Step(s, run[0]), run[1..], id);
    }
  }

  /** Conservation over every run: a connection once made is somewhere, in exactly one place, until it is thrown away. */
  lemma ConnectionsConserved(limit: nat, run: seq<Action>, id: nat)
    requires Legal(Initial(limit), run)
    ensures Places(After(Initial(limit), run), id) + LostIn(Initial(limit), run, id) == MadeIn(Initial(limit), run, id)
    ensures Places(After(Initial(limit), run), id) <= 1
  {
    RunPlaces(Initial(limit), run, id);
    NoConnectionShared(limit, run, id);
  }

  /** No connection is ever in two places: parked twice, or with two tasks, or parked and with a task. */
  lemma NoConnectionShared(limit: nat, run: seq<Action>, id: nat)
    requires Legal(Initial(limit), run)
    ensures Places(After(Initial(limit), run), id) <= 1
  {
    hide Step, Enabled;
    InitialInv(limit);
    RunKeeps(Initial(limit), run);
  }

  /** The step drops the guard of a connection that is still counted. */
  predicate DropsCounted(s: Pool, a: Action)
    requires Enabled(s, a)
  {
    a.DropGuard? && s.tasks[a.t].counted
  }

  /** How often a run does that. */
  function Drops(s: Pool, run: seq<Action>): nat
    requires Legal(s, run)
    decreases |run|
  {
    if run == [] then 0 else Bit(DropsCounted(s, run[0])) + Drops(Step(s, run[0]), run[1..])
  }

  lemma StepLeaks(s: Pool, a: Action)
    requires Enabled(s, a)
    ensures Step(s, a).leaked == s.leaked + Bit(DropsCounted(s, a))
  {
  }

  lemma {:induction false} RunLeaks(s: Pool, run: seq<Action>)
    requires Legal(s, run)
    ensures After(s, run).leaked == s.leaked + Drops(s, run)
    decreases |run|
  {
    hide Step, Enabled, DropsCounted;
    if run != [] {
      StepLeaks(s, run[0]);
      RunLeaks(Step(s, run[0]), run[1..]);
    }
  }

  /**
   * `connections_active` counts the tasks between their increment and their decrement, one too many for each counted
   * guard the run has dropped. So it is exact exactly when the run has dropped none, and is then within the limit and
   * back at zero when no task is counted.
   */
  lemma ActiveCountExact(limit: nat, run: seq<Action>)
    requires Legal(Initial(limit), run)
    ensures var s, drops := After(Initial(limit), run), Drops(Initial(limit), run);
      && s.active == Total(s.tasks, Counted) + drops
      && (s.active == Total(s.tasks, Counted) <==> drops == 0)
      && (drops == 0 ==> s.active <= limit)
      && ((forall t :: 0 <= t < |s.tasks| ==> Counted(s.tasks[t]) == 0) ==> s.active == drops)
  {
    hide Step, Enabled;
    InitialInv(limit);
    RunKeeps(Initial(limit), run);
    RunLeaks(Initial(limit), run);
    var s := After(Initial(limit), run);
    if forall t :: 0 <= t < |s.tasks| ==> Counted(s.tasks[t]) == 0 {
      TotalZero(s.tasks, Counted);
    }
  }

  /** Runs compose. */
  lemma {:induction false} LegalAppend(s: Pool, run: seq<Action>, more: seq<Action>)
    requires Legal(s, run) && Legal(After(s, run), more)
    ensures Legal(s, run + more) && After(s, run + more) == After(After(s, run), more)
    ensures Drops(s, run + more) == Drops(s, run) + Drops(After(s, run), more)
    decreases |run|
  {
    hide Step, Enabled, DropsCounted;
    if run == [] {
      assert run + more == more;
    } else {
      assert (run + more)[0] == run[0] && (run + more)[1..] == run[1..] + more;
      LegalAppend(Step(s, run[0]), run[1..], more);
    }
  }

  /** The error is for good: whatever happens next, the counter stays at least as far above the truth. */
  lemma LeakIsForGood(limit: nat, run: seq<Action>, more: seq<Action>)
    requires Legal(Initial(limit), run) && Legal(After(Initial(limit), run), more)
    ensures var s, later := After(Initial(limit), run), After(After(Initial(limit), run), more);
      s.active - Total(s.tasks, Counted) <= later.active - Total(later.tasks, Counted)
  {
    hide Step, Enabled;
    LegalAppend(Initial(limit), run, more);
    ActiveCountExact(limit, run);
    ActiveCountExact(limit, run + more);
  }

  /** One task that has connected, and nothing else. */
  function Connection(limit: nat): Pool
    requires limit > 0
  {
    Pool(limit, limit - 1, [], 1, [CheckedOut(Pooled(0, true, true), false)], None, 0, 0)
  }

  lemma FirstConnection(limit: nat)
    requires limit > 0
    ensures var run := [Start, Grab(0), Pop(0, false), Connected(0)];
      && Legal(Initial(limit), run) && After(Initial(limit), run) == Connection(limit)
      && Drops(Initial(limit), run) == 0
  {
    var s := Initial(limit);
    var s1 := s.(tasks := [Waiting]);
    var s2 := s1.(permits := limit - 1, tasks := [HasPermit]);
    var s3 := s2.(tasks := [Creating]);
    assert Step(s, Start) == s1 && Step(s1, Grab(0)) == s2 && Step(s2, Pop(0, false)) == s3;
    assert Step(s3, Connected(0)) == Connection(limit);
    NoRun(Connection(limit));
    hide Step, Legal, After, Drops;
    RunOne(s3, Connected(0), []);
    RunOne(s2, Pop(0, false), [Connected(0)]);
    RunOne(s1, Grab(0), [Pop(0, false), Connected(0)]);
    RunOne(s, Start, [Grab(0), Pop(0, false), Connected(0)]);
    assert [Start] + [Grab(0), Pop(0, false), Connected(0)] == [Start, Grab(0), Pop(0, false), Connected(0)];
  }

  /** One connection, counted and then dropped: the counter says one although nothing is active. */
  lemma CountedGuardDropped(limit: nat)
    requires limit > 0
    ensures var run := [Start, Grab(0), Pop(0, false), Connected(0)] + [CountUp(0), DropGuard(0)];
      && Legal(Initial(limit), run) && Drops(Initial(limit), run) == 1
      && After(Initial(limit), run).tasks == [Gone] && After(Initial(limit), run).active == 1
  {
    var first := [Start, Grab(0), Pop(0, false), Connected(0)];
    var s := Connection(limit);
    var s1 := Step(s, CountUp(0));
    var s2 := Step(s1, DropGuard(0));
    assert s2.tasks == [Gone] && s2.active == 1;
    FirstConnection(limit);
    NoRun(s2);
    hide Step, Legal, After, Drops;
    RunOne(s1, DropGuard(0), []);
    RunOne(s, CountUp(0), [DropGuard(0)]);
    assert [CountUp(0)] + [DropGuard(0)] == [CountUp(0), DropGuard(0)];
    LegalAppend(Initial(limit), first, [CountUp(0), DropGuard(0)]);
  }

  lemma NoRun(s: Pool)
    ensures Legal(s, []) && After(s, []) == s && Drops(s, []) == 0
  {
  }

  lemma RunOne(s: Pool, a: Action, rest: seq<Action>)
    requires Enabled(s, a) && Legal(Step(s, a), rest)
    ensures Legal(s, [a] + rest) && After(s, [a] + rest) == After(Step(s, a), rest)
    ensures Drops(s, [a] + rest) == Bit(DropsCounted(s, a)) + Drops(Step(s, a), rest)
  {
    assert ([a] + rest)[1..] == rest;
  }

  lemma {:induction false} TotalAtLeast(tasks: seq<Task>, t: nat, w: Task -> nat)
    requires t < |tasks|
    ensures Total(tasks, w) >= w(tasks[t])
  {
    if t < |tasks| - 1 {
      TotalAtLeast(tasks[..|tasks| - 1], t, w);
    }
  }

  /** The saturating decrement never saturates. */
  lemma DecrementNeverSaturates(limit: nat, run: seq<Action>, t: nat)
    requires Legal(Initial(limit), run) && Enabled(After(Initial(limit), run), Uncount(t))
    ensures After(Initial(limit), run).active > 0
  {
    InitialInv(limit);
    RunKeeps(Initial(limit), run);
    TotalAtLeast(After(Initial(limit), run).tasks, t, Counted);
  }
}
