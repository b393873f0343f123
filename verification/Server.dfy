/**
 * A server's connection pool and its active-connection counter as shared mutable state. Every atomic section of
 * the methods is one step of `PoolSystem`; between sections any number of steps of other tasks may happen.
 */
module ServerModel {
  import opened Bytes
  import opened PoolSystem

  /** What the steps of the other tasks leave alone: the limit, this task, and a lock this task holds. */
  predicate Others(s: Pool, after: Pool, me: nat) {
    && after.limit == s.limit && me < |s.tasks| <= |after.tasks|
    && after.tasks[me] == s.tasks[me]
    && (s.lock == Some(me) ==> after.lock == Some(me))
  }

  /** So any run in which this task takes no step looks, to this task, like `Others`. */
  lemma {:induction false} OthersRun(s: Pool, run: seq<Action>, me: nat)
    requires Inv(s) && Legal(s, run) && At(s, me)
    requires forall i :: 0 <= i < |run| ==> ActorOf(run[i]) != Some(me)
    ensures Inv(After(s, run)) && Others(s, After(s, run), me)
    decreases |run|
  {
    if run != [] {
      hide Step, Enabled;
      var next := Step(s, run[0]);
      StepKeeps(s, run[0]);
      StepFrame(s, run[0]);
      assert s.lock == Some(me) ==> InSection(next.tasks[me]);
      OthersRun(next, run[1..], me);
    }
  }

  /** The steps of one task in a run. */
  function Mine(run: seq<Action>, me: nat): seq<Action> {
    if run == [] then [] else
    var last := run[|run| - 1];
    Mine(run[..|run| - 1], me) + if ActorOf(last) == Some(me) then [last] else []
  }

  lemma MineStep(run: seq<Action>, a: Action, me: nat)
    ensures Mine(run + [a], me) == Mine(run, me) + if ActorOf(a) == Some(me) then [a] else []
  {
    assert (run + [a])[..|run|] == run;
  }

  lemma {:induction false} MineOthers(run: seq<Action>, more: seq<Action>, me: nat)
    requires forall i :: 0 <= i < |more| ==> ActorOf(more[i]) != Some(me)
    ensures Mine(run + more, me) == Mine(run, me)
    decreases |more|
  {
    if more == [] {
      assert run + more == run;
    } else {
      var front, last := more[..|more| - 1], more[|more| - 1];
      assert run + more == run + front + [last];
      MineStep(run + front, last, me);
      MineOthers(run, front, me);
    }
  }

  /** What an await point promises is kept by every run of the others from there. */
  lemma AwaitAllows(limit: nat, history: seq<Action>, more: seq<Action>, me: nat)
    requires Legal(Initial(limit), history) && At(After(Initial(limit), history), me)
    requires Legal(After(Initial(limit), history), more)
    requires forall i :: 0 <= i < |more| ==> ActorOf(more[i]) != Some(me)
    ensures Legal(Initial(limit), history + more)
    ensures Others(After(Initial(limit), history), After(Initial(limit), history + more), me)
    ensures Mine(history + more, me) == Mine(history, me)
  {
    InitialInv(limit);
    RunKeeps(Initial(limit), history);
    OthersRun(After(Initial(limit), history), more, me);
    LegalAppend(Initial(limit), history, more);
    MineOthers(history, more, me);
  }

  /**
   * The ways through `acquire`: give up waiting, or take a permit, look at the idle list, and then hand out what is
   * there, probe it, or connect anew.
   */
  predicate Acquires(steps: seq<Action>, me: nat, got: bool) {
    || (steps == [GiveUp(me)] && !got)
    || (&& |steps| >= 2 && steps[0] == Grab(me) && (steps[1] == Pop(me, false) || steps[1] == Pop(me, true))
        && (if got then HandsOut(steps[2..], me) else FallsThrough(steps[2..], me)))
  }

  predicate HandsOut(tail: seq<Action>, me: nat) {
    || tail == [] || tail == [PingOk(me)]
    || tail == [Connected(me)] || tail == [PingFail(me), Connected(me)]
  }

  predicate FallsThrough(tail: seq<Action>, me: nat) {
    || tail == [Cancel(me)] || tail == [ConnectFailed(me)]
    || tail == [PingFail(me), Cancel(me)] || tail == [PingFail(me), ConnectFailed(me)]
  }

  class ServerState {
    /** `ServerConfig::connections`. */
    const limit: nat
    /** Permits of the pool's semaphore. */
    var permits: nat
    var idle: seq<Pooled>
    /** Connections ever attempted, for naming them. */
    var created: nat
    var connectionsActive: nat
    ghost var tasks: seq<Task>
    ghost var lock: Option<nat>
    ghost var leaked: nat
    /** Every step so far, of every task. */
    ghost var history: seq<Action>

    ghost function Snapshot(): Pool
      reads this
    {
      Pool(limit, permits, idle, created, tasks, lock, connectionsActive, leaked)
    }

    /** The real fields are where a legal run of the system has brought them. */
    ghost predicate Valid()
      reads this
    {
      Legal(Initial(limit), history) && Snapshot() == After(Initial(limit), history)
    }

    constructor (limit: nat)
      ensures Valid() && history == [] && Snapshot() == Initial(limit)
    {
      this.limit, permits, idle, created, connectionsActive := limit, limit, [], 0, 0;
      tasks, lock, leaked, history := [], None, 0, [];
    }

    /** So what is proved of every run holds of the fields. */
    lemma FieldsSafe()
      requires Valid()
      ensures Inv(Snapshot()) && |idle| <= limit && permits <= limit
      ensures OpenConnections(Snapshot()) <= limit
      ensures Drops(Initial(limit), history) == 0 ==> connectionsActive <= limit
    {
      InitialInv(limit);
      RunKeeps(Initial(limit), history);
      OpenConnectionBound(limit, history);
      PermitConservation(limit, history);
      ActiveCountExact(limit, history);
    }

    /** Account for an atomic section that has just done `a` to the real fields. */
    ghost method Record(before: Pool, a: Action, me: nat)
      requires Legal(Initial(limit), history) && before == After(Initial(limit), history) && Enabled(before, a)
      requires var after := Step(before, a);
        && after.limit == limit && after.permits == permits && after.idle == idle
        && after.created == created && after.active == connectionsActive
      modifies `tasks, `lock, `leaked, `history
      ensures Snapshot() == Step(before, a) && Valid() && history == old(history) + [a]
      ensures Mine(history, me) == Mine(old(history), me) + if ActorOf(a) == Some(me) then [a] else []
    {
      var after := Step(before, a);
      NoRun(after);
      RunOne(before, a, []);
      assert [a] + [] == [a];
      hide Legal, After, Step, Enabled, Mine;
      LegalAppend(Initial(limit), history, [a]);
      MineStep(history, a, me);
      tasks, lock, leaked, history := after.tasks, after.lock, after.leaked, history + [a];
    }

    /** A point where other tasks may take any number of steps. */
    method Await(ghost me: nat)
      requires Valid() && me < |tasks|
      modifies this
      ensures Valid() && Others(old(Snapshot()), Snapshot(), me)
      ensures old(history) <= history && Mine(history, me) == Mine(old(history), me)
    {
    }

    /** `acquire`, with the await points at which its future may be dropped. */
    method Acquire(ghost me: nat) returns (r: Option<Pooled>, ghost steps: seq<Action>)
      requires Valid() && me < |tasks| && tasks[me] == Waiting
      modifies this
      ensures Valid() && me < |tasks|
      ensures tasks[me] == if r.Some? then CheckedOut(r.value, false) else Gone
      ensures r.Some? ==> r.value.armed && r.value.good
      ensures Mine(history, me) == Mine(old(history), me) + steps && Acquires(steps, me, r.Some?)
    {
      hide Legal, After, Mine, Valid, Others;
      var got := WaitForPermit(me);
      if !got {
        return None, [GiveUp(me)];
      }
      var stale: bool := *;
      var maybeIdle := PopIdle(me, stale);
      ghost var tail: seq<Action> := [];
      if maybeIdle.Some? && maybeIdle.value.good && !stale {
        r := Some(maybeIdle.value.(armed := true));
      } else {
        var done := false;
        if maybeIdle.Some? && maybeIdle.value.good {
          r, done := CheckHealth(me, maybeIdle.value);
          tail := [HealthStep(me, r, done)];
        }
        if !done {
          ghost var last;
          r, last := Create(me);
          tail := tail + [last];
        }
      }
      steps := [Grab(me), Pop(me, stale)] + tail;
      assert steps[2..] == tail;
    }

    /** Wait for a slot; the wait may time out, or its future be dropped. */
    method WaitForPermit(ghost me: nat) returns (got: bool)
      requires Valid() && me < |tasks| && tasks[me] == Waiting
      modifies this
      ensures Valid() && me < |tasks| && tasks[me] == if got then HasPermit else Gone
      ensures Mine(history, me) == Mine(old(history), me) + [if got then Grab(me) else GiveUp(me)]
    {
      hide Legal, After, Mine;
      Await(me);
      var gaveUp: bool := *;
      ghost var before := Snapshot();
      if permits == 0 || gaveUp {
        Record(before, GiveUp(me), me);
        return false;
      }
      permits := permits - 1;
      Record(before, Grab(me), me);
      return true;
    }

    /** Take the connection parked last, if any; `stale` is that it has been idle for too long. */
    method PopIdle(ghost me: nat, ghost stale: bool) returns (maybeIdle: Option<Pooled>)
      requires Valid() && me < |tasks| && tasks[me] == HasPermit
      modifies this
      ensures Valid() && me < |tasks|
      ensures tasks[me] == if maybeIdle.None? || !maybeIdle.value.good then Creating
                           else if stale then HealthCheck(maybeIdle.value)
                           else CheckedOut(maybeIdle.value.(armed := true), false)
      ensures Mine(history, me) == Mine(old(history), me) + [Pop(me, stale)]
    {
      hide Legal, After, Mine;
      Await(me);
      ghost var before := Snapshot();
      if idle != [] {
        maybeIdle := Some(idle[|idle| - 1]);
        idle := idle[..|idle| - 1];
      } else {
        maybeIdle := None;
      }
      Record(before, Pop(me, stale), me);
    }

    /** The DATE round trip on a stale idle connection: handed out, cancelled, or to be replaced by a new one. */
    method CheckHealth(ghost me: nat, pooled: Pooled) returns (r: Option<Pooled>, done: bool)
      requires Valid() && me < |tasks| && tasks[me] == HealthCheck(pooled) && pooled.good
      modifies this
      ensures Valid() && me < |tasks|
      ensures tasks[me] == if r.Some? then CheckedOut(r.value, false) else if done then Gone else Creating
      ensures r.Some? ==> done && r.value == pooled.(armed := true)
      ensures Mine(history, me) == Mine(old(history), me) + [HealthStep(me, r, done)]
    {
      hide Legal, After, Mine;
      Await(me);
      var cancelled: bool := *;
      if cancelled {
        DropPermit(me);
        return None, true;
      }
      var alive: bool := *;
      ghost var before := Snapshot();
      if alive {
        Record(before, PingOk(me), me);
        return Some(pooled.(armed := true)), true;
      }
      Record(before, PingFail(me), me);
      return None, false;
    }

    /** `create_connection`, and what its outcome does to the permit. */
    method Create(ghost me: nat) returns (r: Option<Pooled>, ghost step: Action)
      requires Valid() && me < |tasks| && tasks[me] == Creating
      modifies this
      ensures Valid() && me < |tasks|
      ensures tasks[me] == if r.Some? then CheckedOut(r.value, false) else Gone
      ensures r.Some? ==> r.value.armed && r.value.good
      ensures Mine(history, me) == Mine(old(history), me) + [step]
      ensures if r.Some? then step == Connected(me) else step == Cancel(me) || step == ConnectFailed(me)
    {
      hide Legal, After, Mine;
      Await(me);
      var cancelled: bool := *;
      if cancelled {
        DropPermit(me);
        return None, Cancel(me);
      }
      var connected: bool := *;
      ghost var before := Snapshot();
      var id := created;
      created := created + 1;
      if !connected {
        permits := permits + 1;
        Record(before, ConnectFailed(me), me);
        return None, ConnectFailed(me);
      }
      Record(before, Connected(me), me);
      return Some(Pooled(id, true, true)), Connected(me);
    }

    /** The owned permit of an `acquire` that is cancelled goes back to the semaphore. */
    method DropPermit(ghost me: nat)
      requires Valid() && Enabled(Snapshot(), Cancel(me))
      modifies this
      ensures Valid() && Snapshot() == Step(old(Snapshot()), Cancel(me))
      ensures history == old(history) + [Cancel(me)] && Mine(history, me) == Mine(old(history), me) + [Cancel(me)]
    {
      hide Legal, After, Mine;
      ghost var before := Snapshot();
      permits := permits + 1;
      Record(before, Cancel(me), me);
    }

    /** The downloader's increment, under the servers lock. */
    method CountUp(ghost me: nat)
      requires Valid() && Enabled(Snapshot(), PoolSystem.CountUp(me))
      modifies this
      ensures Valid() && Snapshot() == Step(old(Snapshot()), PoolSystem.CountUp(me))
      ensures history == old(history) + [PoolSystem.CountUp(me)]
    {
      hide Legal, After, Mine;
      ghost var before := Snapshot();
      connectionsActive := connectionsActive + 1;
      Record(before, PoolSystem.CountUp(me), me);
    }

    /** The first section of `release`: the connection is parked exactly when it is good; no permit is returned yet. */
    method ParkOrDrop(ghost me: nat, pooled: Pooled, ghost counted: bool)
      requires Valid() && me < |tasks| && tasks[me] == CheckedOut(pooled, counted) && (counted ==> lock == None)
      modifies this
      ensures Valid() && me < |tasks| && tasks[me] == Returning(counted)
      ensures idle == old(idle) + (if pooled.good then [pooled.(armed := false)] else [])
      ensures permits == old(permits) && connectionsActive == old(connectionsActive)
      ensures history == old(history) + [Park(me)] && Mine(history, me) == Mine(old(history), me) + [Park(me)]
    {
      hide Legal, After, Mine;
      ghost var before := Snapshot();
      var disarmed := pooled.(armed := false);
      if disarmed.good {
        idle := idle + [disarmed];
      }
      Record(before, Park(me), me);
    }

    /** `release`: a good connection is parked at once, and only then is its permit returned and the counter lowered. */
    method Release(ghost me: nat, pooled: Pooled, counted: bool)
      requires Valid() && me < |tasks| && tasks[me] == CheckedOut(pooled, counted) && (counted ==> lock == None)
      modifies this
      ensures Valid() && me < |tasks| && tasks[me] == Gone
      ensures var parked := old(history) + [Park(me)];
        && parked <= history && Legal(Initial(limit), parked)
        && After(Initial(limit), parked).permits == old(permits)
        && After(Initial(limit), parked).idle == old(idle) + (if pooled.good then [pooled.(armed := false)] else [])
      ensures Mine(history, me) == Mine(old(history), me) + [Park(me)] + GivingBack(me, counted)
    {
      hide Legal, After, Mine;
      ParkOrDrop(me, pooled, counted);
      assert Snapshot() == After(Initial(limit), old(history) + [Park(me)]);
      ReturnSlot(me, counted);
    }

    /** `discard`: the connection is dropped, disarmed, and its slot returned. */
    method Discard(ghost me: nat, pooled: Pooled, counted: bool)
      requires Valid() && me < |tasks| && tasks[me] == CheckedOut(pooled, counted) && (counted ==> lock == None)
      modifies this
      ensures Valid() && me < |tasks| && tasks[me] == Gone
      ensures var dropped := old(history) + [PoolSystem.Discard(me)];
        && dropped <= history && Legal(Initial(limit), dropped)
        && After(Initial(limit), dropped).idle == old(idle) && After(Initial(limit), dropped).permits == old(permits)
      ensures Mine(history, me) == Mine(old(history), me) + [PoolSystem.Discard(me)] + GivingBack(me, counted)
    {
      hide Legal, After, Mine;
      ghost var before := Snapshot();
      Record(before, PoolSystem.Discard(me), me);
      assert Snapshot() == After(Initial(limit), old(history) + [PoolSystem.Discard(me)]);
      ReturnSlot(me, counted);
    }

    /** The permit back to the semaphore, then, for a counted connection, the counter down. */
    method ReturnSlot(ghost me: nat, counted: bool)
      requires Valid() && me < |tasks| && tasks[me] == Returning(counted)
      modifies this
      ensures Valid() && me < |tasks| && tasks[me] == Gone
      ensures old(history) <= history && Mine(history, me) == Mine(old(history), me) + GivingBack(me, counted)
    {
      hide Legal, After, Mine;
      Await(me);
      ghost var before := Snapshot();
      permits := permits + 1;
      Record(before, AddPermit(me), me);
      if counted {
        LowerCount(me);
      }
    }

    /** The saturating decrement. */
    method LowerCount(ghost me: nat)
      requires Valid() && me < |tasks| && tasks[me] == Uncounting
      modifies this
      ensures Valid() && me < |tasks| && tasks[me] == Gone
      ensures old(history) <= history && Mine(history, me) == Mine(old(history), me) + [Uncount(me)]
    {
      hide Legal, After, Mine;
      Await(me);
      ghost var before := Snapshot();
      connectionsActive := if connectionsActive == 0 then 0 else connectionsActive - 1;
      Record(before, Uncount(me), me);
    }

    /** `Drop for PooledConnection`. */
    method DropGuard(ghost me: nat, pooled: Pooled, ghost counted: bool)
      requires Valid() && me < |tasks| && tasks[me] == CheckedOut(pooled, counted)
      modifies this
      ensures Valid() && Snapshot() == Step(old(Snapshot()), PoolSystem.DropGuard(me))
      ensures history == old(history) + [PoolSystem.DropGuard(me)]
    {
      hide Legal, After, Mine;
      ghost var before := Snapshot();
      if pooled.armed {
        permits := permits + 1;
      }
      Record(before, PoolSystem.DropGuard(me), me);
    }

    /** `close_idle`: parked connections hold no permit, so closing them frees none. */
    method CloseIdle()
      requires Valid()
      modifies this
      ensures Valid() && Snapshot() == Step(old(Snapshot()), PoolSystem.CloseIdle)
      ensures history == old(history) + [PoolSystem.CloseIdle]
      ensures idle == [] && permits == old(permits)
    {
      hide Legal, After, Mine;
      ghost var before := Snapshot();
      idle := [];
      Record(before, PoolSystem.CloseIdle, 0);
    }
  }

  /** How a health check ends. */
  function HealthStep(me: nat, r: Option<Pooled>, done: bool): Action {
    if r.Some? then PingOk(me) else if done then Cancel(me) else PingFail(me)
  }

  /** The end of `release_connection` and `discard_connection`; the counter is lowered only for a counted connection. */
  function GivingBack(me: nat, counted: bool): seq<Action> {
    if counted then [AddPermit(me), Uncount(me)] else [AddPermit(me)]
  }
}
