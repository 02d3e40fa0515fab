/**
 The manager object: the worker pool as the program changes it.

 Signals are made explicit: `Interrupt` stands wherever the handler of SIGCHLD
 can run, and reaps whatever children happen to have died.  Deaths and fork
 failures are inputs of the model; when they have all happened, forks succeed
 and no child dies.  The ghost history ties every state of the object to a run of
 the pool's state machine, so everything proved of its runs holds here.
 */
module Manager {
  import opened Pool
  import opened PoolLaws

  function TotalOf(deaths: seq<seq<nat>>): nat {
    if deaths == [] then 0 else |deaths[0]| + TotalOf(deaths[1..])
  }

  function Members(pids: seq<nat>): set<nat> {
    set pid | pid in pids
  }

  /** How many times the manager has been woken. */
  function Wakes(run: seq<Event>): nat {
    if run == [] then 0 else Wakes(run[..|run| - 1]) + if run[|run| - 1].Wake? then 1 else 0
  }

  lemma {:induction false} RunExtends(p: Pool, run: seq<Event>, ev: Event)
    requires IsRun(p, run) && Enabled(End(p, run), ev)
    ensures IsRun(p, run + [ev]) && End(p, run + [ev]) == Next(End(p, run), ev)
    decreases |run|
  {
    hide Next, Enabled;
    if run == [] {
      assert run + [ev] == [ev] && [ev][1..] == [];
    } else {
      assert (run + [ev])[1..] == run[1..] + [ev];
      RunExtends(Next(p, run[0]), run[1..], ev);
    }
  }

  class Manager {
    const pool: array<nat>
    var count: int

    // The operating system, as far as the manager meets it.
    var children: set<nat>       // forked and not reaped
    var nextPid: nat
    var deaths: seq<seq<nat>>    // children that die before each coming interruption point
    var forks: seq<bool>         // whether the coming forks succeed

    ghost var phase: Phase
    ghost var lost: set<nat>
    ghost var used: set<nat>
    ghost var run: seq<Event>

    ghost function State(): Pool
      reads this, pool
    {
      Pool(pool.Length, pool[..], count, phase, children, lost, used)
    }

    ghost predicate Valid()
      reads this, pool
    {
      && IsRun(Start(pool.Length), run)
      && End(Start(pool.Length), run) == State()
      && nextPid > 0 && forall pid :: pid in used ==> pid < nextPid
    }

    lemma ValidInv()
      requires Valid()
      ensures Inv(State())
    {
      StartInv(pool.Length);
      RunInv(Start(pool.Length), run);
    }

    /** Disturbances still to come, together with the fork outcomes fixed in advance. */
    function Pending(): nat
      reads this
    {
      TotalOf(deaths) + |forks|
    }

    /** A manager whose slots all hold pid 0, about to pre-fork its workers. */
    constructor (maxWorkers: nat, deaths: seq<seq<nat>>, forks: seq<bool>)
      ensures Valid() && fresh(pool) && pool.Length == maxWorkers
      ensures phase == Prefork(0) && run == [] && this.deaths == deaths && this.forks == forks
    {
      pool := new nat[maxWorkers](i => 0);
      count, children, nextPid := 0, {}, 1;
      this.deaths, this.forks := deaths, forks;
      phase, lost, used, run := Prefork(0), {}, {}, [];
      new;
      assert pool[..] == seq(maxWorkers, i => 0);
    }

    /** Records that the object has just made the given step of the state machine. */
    ghost method Record(ev: Event, was: Pool)
      requires IsRun(Start(pool.Length), run) && End(Start(pool.Length), run) == was
      requires Enabled(was, ev) && Next(was, ev) == State()
      requires nextPid > 0 && forall pid :: pid in used ==> pid < nextPid
      modifies this`run
      ensures Valid() && run == old(run) + [ev]
      ensures Wakes(run) == old(Wakes(run)) + if ev.Wake? then 1 else 0
    {
      assert (run + [ev])[..|run|] == run;
      RunExtends(Start(pool.Length), run, ev);
      run := run + [ev];
    }

    /** `reap_worker`, for a child that `waitpid` has just returned. */
    method ReapWorker(pid: nat)
      requires Valid() && pid in children
      modifies this`children, this`count, this`lost, this`run, pool
      ensures Valid()
      ensures State() == Reaped(old(State()), pid)
      ensures run == old(run) + [Reap(pid)] && Wakes(run) == old(Wakes(run))
    {
      ghost var was := State();
      children := children - {pid};
      if pid in InFlight(phase) {
        lost := lost + {pid};
      }
      var i := 0;
      while i < pool.Length
        invariant 0 <= i <= pool.Length
        invariant pool[..] == was.slots && count == was.count
        invariant forall k :: 0 <= k < i ==> pool[k] != pid
      {
        if pool[i] == pid {
          pool[i] := 0;
          count := count - 1;
          break;
        }
        i := i + 1;
      }
      assert i == SlotOf(was.slots, pid);
      Record(Reap(pid), was);
    }

    /** A point where the SIGCHLD handler can run: it reaps all children that have died by then. */
    method Interrupt()
      requires Valid()
      modifies this`children, this`count, this`lost, this`run, this`deaths, pool
      ensures Valid() && old(run) <= run
      ensures Wakes(run) == old(Wakes(run))
      ensures Pending() <= old(Pending())
      ensures Pending() == old(Pending()) ==> State() == old(State())
      ensures Kept(old(pool[..]), pool[..])
      ensures deaths == if old(deaths) == [] then [] else old(deaths)[1..]
      ensures children == if old(deaths) == [] then old(children) else old(children) - Members(old(deaths)[0])
    {
      hide IsRun, End, Wakes;
      if deaths == [] {
        return;
      }
      var dead := deaths[0];
      deaths := deaths[1..];
      var i := 0;
      while i < |dead|
        invariant 0 <= i <= |dead|
        invariant Valid() && old(run) <= run && Wakes(run) == old(Wakes(run)) && deaths == old(deaths)[1..]
        invariant i == 0 ==> State() == old(State())
        invariant Kept(old(pool[..]), pool[..])
        invariant children == old(children) - Members(dead[..i])
      {
        assert dead[..i + 1] == dead[..i] + [dead[i]];
        if dead[i] in children {
          ReapWorker(dead[i]);
        }
        i := i + 1;
      }
      assert dead[..|dead|] == dead;
    }

    /** fork: the pid of the child, or 0 for a failure. */
    method ForkChild() returns (pid: nat)
      requires Valid() && phase.Fork?
      modifies this`children, this`nextPid, this`forks, this`phase, this`used, this`run
      ensures Valid() && old(run) <= run
      ensures Wakes(run) == old(Wakes(run))
      ensures Pending() <= old(Pending())
      ensures pid == 0 ==> Pending() < old(Pending()) && State() == Next(old(State()), ForkFails)
      ensures pid != 0 ==> Enabled(old(State()), ForkOk(pid)) && State() == Next(old(State()), ForkOk(pid))
    {
      ghost var was := State();
      var succeeds := true;
      if forks != [] {
        succeeds, forks := forks[0], forks[1..];
      }
      if succeeds {
        pid := nextPid;
        nextPid := nextPid + 1;
        children := children + {pid};
        phase, used := Forked(phase.i, phase.managing, pid), used + {pid};
        Record(ForkOk(pid), was);
      } else {
        pid := 0;
        phase := if phase.managing then Scan(phase.i + 1) else Aborted;
        Record(ForkFails, was);
      }
    }

    /** The rest of `spawn_worker` after a fork that succeeded: count the worker, then store its pid. */
    method EnterWorker(i: nat, pid: nat)
      requires Valid() && phase.Forked? && phase.i == i && phase.pid == pid
      modifies this`children, this`count, this`lost, this`run, this`deaths, this`phase, pool
      ensures Valid() && old(run) <= run
      ensures Wakes(run) == old(Wakes(run))
      ensures Pending() <= old(Pending())
      ensures i < pool.Length && pool[i] == pid && pid != 0 && phase == After(i, old(phase).managing)
      ensures Kept(old(pool[..])[i := pid], pool[..])
      ensures Pending() == old(Pending()) ==> pool[..] == old(pool[..])[i := pid]
    {
      hide IsRun, End, Members, Wakes;
      ValidInv();
      assert i < pool.Length && pid != 0;
      hide Inv;
      Interrupt();
      ghost var was := State();
      count := count + 1;
      phase := Counted(phase.i, phase.managing, phase.pid);
      Record(Advance, was);
      Interrupt();
      was := State();
      pool[i] := pid;
      phase := After(i, phase.managing);
      Record(Advance, was);
    }

    /**
     The manager's side of `spawn_worker`.  It fills its slot, which was empty; a
     failed fork leaves it so.
     */
    method SpawnWorker(i: nat) returns (ok: bool)
      requires Valid() && phase.Fork? && phase.i == i
      modifies this, pool
      ensures Valid() && old(run) <= run
      ensures Wakes(run) == old(Wakes(run))
      ensures Pending() <= old(Pending())
      ensures i < pool.Length && old(pool[i]) == 0
      ensures ok ==> pool[i] != 0 && Kept(old(pool[..])[i := pool[i]], pool[..])
      ensures ok ==> phase == After(i, old(phase).managing)
      ensures !ok ==> Kept(old(pool[..]), pool[..]) && phase == if old(phase).managing then Scan(i + 1) else Aborted
      ensures Pending() == old(Pending()) ==> ok && pool[..] == old(pool[..])[i := pool[i]]
    {
      hide IsRun, End, Wakes;
      ValidInv();
      assert PhaseOk(State());
      hide Inv;
      Interrupt();
      var pid := ForkChild();
      ok := pid != 0;
      if ok {
        EnterWorker(i, pid);
      }
    }

    /** The step of `manage_workers` at slot `i`: an empty slot gets a worker. */
    method Refill(i: nat)
      requires Valid() && phase == Scan(i) && i < pool.Length
      modifies this, pool
      ensures Valid() && phase == Scan(i + 1) && old(run) <= run
      ensures Wakes(run) == old(Wakes(run))
      ensures Pending() <= old(Pending())
      ensures Pending() == old(Pending()) ==> pool[i] != 0 && forall k :: 0 <= k < i ==> pool[k] == old(pool[k])
      ensures forall k :: 0 <= k < pool.Length && k != i && pool[k] != 0 ==> pool[k] == old(pool[k])
    {
      hide IsRun, End, Inv, Wakes;
      Interrupt();
      ghost var was := State();
      if pool[i] == 0 {
        phase := Fork(i, true);
        Record(Advance, was);
        var _ := SpawnWorker(i);
      } else {
        phase := Scan(i + 1);
        Record(Advance, was);
      }
    }

    /** One turn of the outer loop of `manage_workers`, from the first slot back to the comparison. */
    method Sweep()
      requires Valid() && phase == Scan(0)
      modifies this, pool
      ensures Valid() && phase == Test && old(run) <= run
      ensures Wakes(run) == old(Wakes(run))
      ensures Pending() <= old(Pending())
      ensures Pending() == old(Pending()) ==> forall k :: 0 <= k < pool.Length ==> pool[k] != 0
    {
      hide IsRun, End, Inv, Wakes;
      var i := 0;
      while i < pool.Length
        invariant 0 <= i <= pool.Length
        invariant Valid() && phase == Scan(i) && old(run) <= run && Wakes(run) == old(Wakes(run))
        invariant Pending() <= old(Pending())
        invariant Pending() == old(Pending()) ==> forall k :: 0 <= k < i ==> pool[k] != 0
      {
        Refill(i);
        i := i + 1;
      }
      Interrupt();
      ghost var was := State();
      phase := Test;
      Record(Advance, was);
    }

    /** In the comparison of the counts they are equal exactly when no slot is empty. */
    lemma CountTells()
      requires Valid() && phase == Test
      ensures count == pool.Length <==> forall k :: 0 <= k < pool.Length ==> pool[k] != 0
    {
      ValidInv();
      OccupiedFull(pool[..]);
    }

    /** With every slot occupied and no spawn under way, all workers live unless one was reaped too early. */
    lemma LivingTell()
      requires Valid() && phase == Idle && forall k :: 0 <= k < pool.Length ==> pool[k] != 0
      ensures |children| == pool.Length <==> NoEarlyReap(Start(pool.Length), run)
    {
      FullPool(pool.Length, run);
    }

    /**
     `manage_workers`: it ends whatever finitely many deaths and fork failures
     happen meanwhile, with every slot occupied.
     */
    method ManageWorkers()
      requires Valid() && phase == Test
      modifies this, pool
      ensures Valid() && phase == Idle && old(run) <= run
      ensures Wakes(run) == old(Wakes(run))
      ensures forall k :: 0 <= k < pool.Length ==> pool[k] != 0
      ensures |children| == pool.Length <==> NoEarlyReap(Start(pool.Length), run)
    {
      hide IsRun, End, Inv, Members, NoEarlyReap, Wakes;
      while true
        invariant Valid() && phase == Test && old(run) <= run && Wakes(run) == old(Wakes(run))
        decreases Pending(), if count != pool.Length then 1 else 0
      {
        Interrupt();
        CountTells();
        ghost var was := State();
        if count == pool.Length {
          phase := Idle;
          Record(Advance, was);
          LivingTell();
          break;
        }
        phase := Scan(0);
        Record(Advance, was);
        Sweep();
        CountTells();
      }
    }

    /** The loop of `spawn`; an exception ends the server. */
    method Spawn() returns (ok: bool)
      requires Valid() && phase == Prefork(0)
      modifies this, pool
      ensures Valid() && old(run) <= run
      ensures Wakes(run) == old(Wakes(run))
      ensures phase == if ok then Idle else Aborted
    {
      hide IsRun, End, Inv, Members, Wakes;
      var i := 0;
      while i < pool.Length
        invariant 0 <= i <= pool.Length
        invariant Valid() && phase == Prefork(i) && old(run) <= run && Wakes(run) == old(Wakes(run))
      {
        Interrupt();
        ghost var was := State();
        phase := Fork(i, false);
        Record(Advance, was);
        ok := SpawnWorker(i);
        if !ok {
          return;
        }
        i := i + 1;
      }
      Interrupt();
      ghost var was := State();
      phase := Idle;
      Record(Advance, was);
      ok := true;
    }

    /** The server's main loop, for as many wake-ups as happen. */
    method Run(wakeups: nat)
      requires Valid() && phase == Idle
      modifies this, pool
      ensures Valid() && phase == Idle && old(run) <= run
      ensures Wakes(run) == old(Wakes(run)) + wakeups
      ensures wakeups > 0 ==> forall k :: 0 <= k < pool.Length ==> pool[k] != 0
    {
      hide IsRun, End, Inv, Wakes;
      var n := 0;
      while n < wakeups
        invariant 0 <= n <= wakeups
        invariant Valid() && phase == Idle && old(run) <= run && Wakes(run) == old(Wakes(run)) + n
        invariant n > 0 ==> forall k :: 0 <= k < pool.Length ==> pool[k] != 0
      {
        Interrupt();
        ghost var was := State();
        phase := Test;
        Record(Wake, was);
        ManageWorkers();
        n := n + 1;
      }
    }

    /** `shutdown` in the manager: the pids signalled, in order.  It runs with all signals blocked. */
    method Shutdown() returns (signalled: seq<nat>)
      ensures signalled == Signalled(pool[..])
    {
      signalled := [];
      var i := 0;
      while i < pool.Length
        invariant 0 <= i <= pool.Length
        invariant signalled == Signalled(pool[..i])
      {
        assert pool[..i + 1][..i] == pool[..i];
        if pool[i] != 0 {
          signalled := signalled + [pool[i]];
        }
        i := i + 1;
      }
      assert pool[..pool.Length] == pool[..];
    }
  }

  /** Slots are only emptied, never overwritten. */
  ghost predicate Kept(before: seq<nat>, after: seq<nat>) {
    |after| == |before| && forall k :: 0 <= k < |before| ==> after[k] == before[k] || after[k] == 0
  }
}
