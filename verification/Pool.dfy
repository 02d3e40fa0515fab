/**
 The pool of worker processes as a concurrent system.

 The manager forks, counts and records its workers in separate steps; the
 handler of SIGCHLD, which reaps dead workers, may run between any two of them,
 because only TERM, QUIT and INT are ever blocked.  The handler itself runs with
 all signals blocked, so a reap is one step.  Assumed: an update of a field is
 one step, slots start out with pid 0, and a pid is not used twice.
 */
module Pool {

  /** Where the manager is. */
  datatype Phase =
    | Idle                                    // suspended, waiting for signals
    | Prefork(i: nat)                         // `spawn`, before slot i
    | Test                                    // `manage_workers`, before comparing the counts
    | Scan(i: nat)                            // `manage_workers`, before looking at slot i
    | Fork(i: nat, managing: bool)            // `spawn_worker( i )`, before fork
    | Forked(i: nat, managing: bool, pid: nat)   // after fork, before counting
    | Counted(i: nat, managing: bool, pid: nat)  // after counting, before storing the pid
    | Aborted                                 // `spawn` failed and the server exits

  /**
   The pool.  `slots` holds the recorded pids, 0 for none.  The last three are
   bookkeeping of this model: children not reaped yet, children reaped before
   their pid was stored, and all pids handed out.
   */
  datatype Pool = Pool(
    max: nat, slots: seq<nat>, count: int, phase: Phase,
    live: set<nat>, lost: set<nat>, used: set<nat>)

  datatype Event =
    | Advance            // the manager's next step, where it has no choice
    | ForkOk(pid: nat)
    | ForkFails
    | Reap(pid: nat)     // a child died and the handler reaps it
    | Wake               // a signal arrived while suspended; the manager checks its workers

  function Start(max: nat): Pool {
    Pool(max, seq(max, i => 0), 0, Prefork(0), {}, {}, {})
  }

  /** The child that is forked and not recorded yet. */
  function InFlight(phase: Phase): set<nat> {
    if phase.Forked? || phase.Counted? then {phase.pid} else {}
  }

  function After(i: nat, managing: bool): Phase {
    if managing then Scan(i + 1) else Prefork(i + 1)
  }

  // ----- Steps -----

  predicate Enabled(p: Pool, ev: Event) {
    match ev
    case Advance =>
      match p.phase {
        case Prefork(i) => true
        case Test => true
        case Scan(i) => true
        case Forked(_, _, _) => true
        case Counted(_, _, _) => true
        case _ => false
      }
    case ForkOk(pid) => p.phase.Fork? && pid > 0 && pid !in p.used
    case ForkFails => p.phase.Fork?
    case Reap(pid) => pid in p.live
    case Wake => p.phase.Idle?
  }

  /** The first slot that holds `pid`, or the number of slots. */
  function SlotOf(slots: seq<nat>, pid: nat): (k: nat)
    ensures k <= |slots|
    ensures k < |slots| ==> slots[k] == pid
    ensures forall i :: 0 <= i < k ==> slots[i] != pid
  {
    if slots == [] || slots[0] == pid then 0 else 1 + SlotOf(slots[1..], pid)
  }

  /** `reap_worker` */
  function Reaped(p: Pool, pid: nat): Pool {
    var k := SlotOf(p.slots, pid);
    var q := p.(live := p.live - {pid}, lost := if pid in InFlight(p.phase) then p.lost + {pid} else p.lost);
    if k < |p.slots| then q.(slots := p.slots[k := 0], count := p.count - 1) else q
  }

  function Next(p: Pool, ev: Event): Pool
    requires Enabled(p, ev)
  {
    match ev
    case Wake => p.(phase := Test)
    case Reap(pid) => Reaped(p, pid)
    case ForkOk(pid) =>
      p.(phase := Forked(p.phase.i, p.phase.managing, pid), live := p.live + {pid}, used := p.used + {pid})
    case ForkFails => p.(phase := if p.phase.managing then Scan(p.phase.i + 1) else Aborted)
    case Advance =>
      match p.phase {
        case Prefork(i) => p.(phase := if i < p.max then Fork(i, false) else Idle)
        case Test => p.(phase := if p.count != p.max then Scan(0) else Idle)
        case Scan(i) =>
          p.(phase :=
               if i >= p.max then Test
               else if i < |p.slots| && p.slots[i] == 0 then Fork(i, true)
               else Scan(i + 1))
        case Forked(i, managing, pid) => p.(count := p.count + 1, phase := Counted(i, managing, pid))
        case Counted(i, managing, pid) =>
          p.(slots := if i < |p.slots| then p.slots[i := pid] else p.slots, phase := After(i, managing))
        case _ => p
      }
  }

  predicate IsRun(p: Pool, run: seq<Event>)
    decreases |run|
  {
    run == [] || (Enabled(p, run[0]) && IsRun(Next(p, run[0]), run[1..]))
  }

  function End(p: Pool, run: seq<Event>): Pool
    requires IsRun(p, run)
    decreases |run|
  {
    if run == [] then p else End(Next(p, run[0]), run[1..])
  }

  // ----- Counting slots -----

  function Occupied(slots: seq<nat>): (n: nat)
    ensures n <= |slots|
  {
    if slots == [] then 0 else (if slots[0] != 0 then 1 else 0) + Occupied(slots[1..])
  }

  function Pids(slots: seq<nat>): set<nat> {
    set pid | pid in slots && pid != 0
  }

  ghost predicate DistinctPids(slots: seq<nat>) {
    forall i, j :: 0 <= i < j < |slots| && slots[i] != 0 ==> slots[i] != slots[j]
  }

  lemma {:induction false} OccupiedUpdate(slots: seq<nat>, k: nat, pid: nat)
    requires k < |slots|
    ensures Occupied(slots[k := pid]) ==
            Occupied(slots) - (if slots[k] != 0 then 1 else 0) + (if pid != 0 then 1 else 0)
  {
    if k > 0 {
      assert slots[k := pid][1..] == slots[1..][k - 1 := pid];
      OccupiedUpdate(slots[1..], k - 1, pid);
    } else {
      assert slots[k := pid][1..] == slots[1..];
    }
  }

  lemma {:induction false} OccupiedFull(slots: seq<nat>)
    ensures Occupied(slots) == |slots| <==> 0 !in slots
  {
    if slots != [] {
      OccupiedFull(slots[1..]);
      assert slots == [slots[0]] + slots[1..];
    }
  }

  lemma {:induction false} OccupiedCountsPids(slots: seq<nat>)
    requires DistinctPids(slots)
    ensures |Pids(slots)| == Occupied(slots)
  {
    if slots != [] {
      var rest := slots[1..];
      OccupiedCountsPids(rest);
      assert slots == [slots[0]] + rest;
      if slots[0] == 0 {
        assert Pids(slots) == Pids(rest);
      } else {
        assert slots[0] !in Pids(rest);
        assert Pids(slots) == {slots[0]} + Pids(rest);
      }
    } else {
      assert Pids(slots) == {};
    }
  }

  lemma PidsUpdate(slots: seq<nat>, k: nat, pid: nat)
    requires k < |slots| && DistinctPids(slots)
    requires pid != 0 ==> pid !in slots
    ensures DistinctPids(slots[k := pid])
    ensures Pids(slots[k := pid]) == Pids(slots) - {slots[k]} + if pid != 0 then {pid} else {}
  {
    var updated := slots[k := pid];
    forall x
      ensures x in Pids(updated) <==> x in Pids(slots) - {slots[k]} + if pid != 0 then {pid} else {}
    {
      if x in Pids(updated) {
        var i :| 0 <= i < |updated| && updated[i] == x;
        assert i != k ==> slots[i] == x && x != slots[k];
      }
      if x in Pids(slots) && x != slots[k] {
        var i :| 0 <= i < |slots| && slots[i] == x;
        assert updated[i] == x;
      }
      if pid != 0 && x == pid {
        assert updated[k] == x;
      }
    }
  }

  // ----- The invariant -----

  /** The manager is at a slot of the pool, and that slot is empty from the test to the store. */
  ghost predicate PhaseOk(p: Pool) {
    match p.phase
    case Prefork(i) => i <= p.max && forall k :: i <= k < |p.slots| ==> p.slots[k] == 0
    case Scan(i) => i <= p.max
    case Fork(i, managing) => SpawnOk(p, i, managing)
    case Forked(i, managing, pid) => SpawnOk(p, i, managing) && pid in p.live + p.lost
    case Counted(i, managing, pid) => SpawnOk(p, i, managing) && pid in p.live + p.lost
    case _ => true
  }

  ghost predicate SpawnOk(p: Pool, i: nat, managing: bool) {
    && i < |p.slots| && p.slots[i] == 0
    && (!managing ==> forall k :: i <= k < |p.slots| ==> p.slots[k] == 0)
  }

  ghost predicate Inv(p: Pool) {
    && |p.slots| == p.max
    && PhaseOk(p)
    && p.count == Occupied(p.slots) + (if p.phase.Counted? then 1 else 0)
    && DistinctPids(p.slots)
    && Pids(p.slots) == p.live + p.lost - InFlight(p.phase)
    && p.live !! p.lost
    && p.live + p.lost <= p.used
    && 0 !in p.used
  }

  lemma StartInv(max: nat)
    ensures Inv(Start(max))
  {
    var p := Start(max);
    assert forall k :: 0 <= k < |p.slots| ==> p.slots[k] == 0;
    NoneOccupied(p.slots);
    assert Pids(p.slots) == {};
  }

  lemma {:induction false} NoneOccupied(slots: seq<nat>)
    requires forall k :: 0 <= k < |slots| ==> slots[k] == 0
    ensures Occupied(slots) == 0
  {
    if slots != [] {
      NoneOccupied(slots[1..]);
    }
  }

  lemma ReapInv(p: Pool, pid: nat)
    requires Inv(p) && pid in p.live
    ensures Inv(Reaped(p, pid))
  {
    var k := SlotOf(p.slots, pid);
    if k < |p.slots| {
      OccupiedUpdate(p.slots, k, 0);
      PidsUpdate(p.slots, k, 0);
      assert pid in Pids(p.slots);
    } else {
      assert pid !in Pids(p.slots);
    }
  }

  lemma StoreInv(p: Pool)
    requires Inv(p) && p.phase.Counted?
    ensures Inv(Next(p, Advance))
  {
    OccupiedUpdate(p.slots, p.phase.i, p.phase.pid);
    assert p.phase.pid !in Pids(p.slots);
    PidsUpdate(p.slots, p.phase.i, p.phase.pid);
  }

  /** Every step keeps the invariant. */
  lemma StepInv(p: Pool, ev: Event)
    requires Inv(p) && Enabled(p, ev)
    ensures Inv(Next(p, ev))
  {
    if ev.Reap? {
      ReapInv(p, ev.pid);
    } else if ev.Advance? && p.phase.Counted? {
      StoreInv(p);
    } else {
      OccupiedFull(p.slots);
    }
  }

  lemma {:induction false} RunInv(p: Pool, run: seq<Event>)
    requires Inv(p) && IsRun(p, run)
    ensures Inv(End(p, run))
    decreases |run|
  {
    hide Inv, Next, Enabled;
    if run != [] {
      StepInv(p, run[0]);
      RunInv(Next(p, run[0]), run[1..]);
    }
  }
}
