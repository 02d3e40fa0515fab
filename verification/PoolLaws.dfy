/**
 What the worker pool keeps over every run, however forks, deaths and the
 manager's steps are interleaved.
 */
module PoolLaws {
  import opened Pool

  // ----- Conservation -----

  /**
   In every state of every run: the count is the number of occupied slots, plus
   one between counting and storing; it stays between 0 and the number of slots;
   and the occupied slots are the recorded children that live plus the children
   that were reaped before their pid was stored.
   */
  lemma Conservation(max: nat, run: seq<Event>)
    requires IsRun(Start(max), run)
    ensures
      var p := End(Start(max), run);
      var recorded := p.live - InFlight(p.phase);
      var lost := p.lost - InFlight(p.phase);
      && p.max == max == |p.slots|
      && p.count == Occupied(p.slots) + (if p.phase.Counted? then 1 else 0)
      && 0 <= p.count <= max
      && Occupied(p.slots) == |recorded| + |lost|
      && Pids(p.slots) == recorded + lost
      && DistinctPids(p.slots)
  {
    StartInv(max);
    RunInv(Start(max), run);
    MaxKept(Start(max), run);
    InvConserves(End(Start(max), run));
  }

  lemma InvConserves(p: Pool)
    requires Inv(p)
    ensures 0 <= p.count <= p.max
    ensures
      var recorded, lost := p.live - InFlight(p.phase), p.lost - InFlight(p.phase);
      Occupied(p.slots) == |recorded| + |lost| && Pids(p.slots) == recorded + lost
  {
    OccupiedCountsPids(p.slots);
    OccupiedFull(p.slots);
    if p.phase.Counted? {
      assert p.slots[p.phase.i] == 0;
    }
    var recorded, lost := p.live - InFlight(p.phase), p.lost - InFlight(p.phase);
    assert Pids(p.slots) == recorded + lost;
    hide Inv;
    DisjointSize(recorded, lost);
  }

  lemma DisjointSize(a: set<nat>, b: set<nat>)
    requires a !! b
    ensures |a + b| == |a| + |b|
  {
  }

  lemma {:induction false} MaxKept(p: Pool, run: seq<Event>)
    requires IsRun(p, run)
    ensures End(p, run).max == p.max
    decreases |run|
  {
    if run != [] {
      MaxKept(Next(p, run[0]), run[1..]);
    }
  }

  /** A reap that finds its pid recorded never takes the count below zero. */
  lemma NoUnderflow(max: nat, run: seq<Event>, pid: nat)
    requires IsRun(Start(max), run) && pid in End(Start(max), run).live
    requires pid in End(Start(max), run).slots
    ensures 1 <= End(Start(max), run).count
    ensures Reaped(End(Start(max), run), pid).count == End(Start(max), run).count - 1 >= 0
  {
    StartInv(max);
    RunInv(Start(max), run);
    var p := End(Start(max), run);
    ReapInv(p, pid);
    assert SlotOf(p.slots, pid) < |p.slots|;
  }

  /** An occupied slot changes only by being emptied when its own child is reaped. */
  lemma NoOverwrite(p: Pool, ev: Event, k: nat)
    requires Inv(p) && Enabled(p, ev) && k < |p.slots| && p.slots[k] != 0
    ensures var q := Next(p, ev);
      && |q.slots| == |p.slots|
      && q.slots[k] == if ev == Reap(p.slots[k]) then 0 else p.slots[k]
  {
    if ev.Reap? {
      var j := SlotOf(p.slots, ev.pid);
      assert ev == Reap(p.slots[k]) ==> j == k;
    }
  }

  /** Over a whole run: a slot keeps its pid until that child is reaped. */
  lemma {:induction false} SlotKept(p: Pool, run: seq<Event>, k: nat)
    requires Inv(p) && IsRun(p, run) && k < |p.slots| && p.slots[k] != 0
    requires Reap(p.slots[k]) !in run
    ensures k < |End(p, run).slots| && End(p, run).slots[k] == p.slots[k]
    decreases |run|
  {
    if run != [] {
      NoOverwrite(p, run[0], k);
      StepInv(p, run[0]);
      hide Inv, Next;
      SlotKept(Next(p, run[0]), run[1..], k);
    }
  }

  // ----- Children reaped too early -----

  /** No child is reaped between its fork and the store of its pid. */
  ghost predicate NoEarlyReap(p: Pool, run: seq<Event>)
    requires IsRun(p, run)
    decreases |run|
  {
    run != [] ==>
      && (run[0].Reap? ==> run[0].pid !in InFlight(p.phase))
      && NoEarlyReap(Next(p, run[0]), run[1..])
  }

  /** In runs without an early reap the slots hold exactly the children that live, each once. */
  lemma SlotsAreChildren(max: nat, run: seq<Event>)
    requires IsRun(Start(max), run) && NoEarlyReap(Start(max), run)
    ensures var p := End(Start(max), run);
      && DistinctPids(p.slots)
      && Pids(p.slots) == p.live - InFlight(p.phase)
  {
    Conservation(max, run);
    StartInv(max);
    EarlyReapLoses(Start(max), run);
  }

  /**
   A child reaped before its pid is stored takes its slot with it: from then on,
   in every continuation, the pid stays recorded and no worker replaces it.
   */
  lemma {:induction false} LostForever(p: Pool, run: seq<Event>, pid: nat)
    requires Inv(p) && IsRun(p, run) && pid in p.lost
    ensures pid in End(p, run).lost
    ensures pid in Pids(End(p, run).slots) || pid in InFlight(End(p, run).phase)
    ensures pid in p.slots ==> pid in End(p, run).slots
    decreases |run|
  {
    if run == [] {
      assert pid in Pids(p.slots) + InFlight(p.phase);
    } else {
      var q := Next(p, run[0]);
      StepInv(p, run[0]);
      assert pid in q.lost;
      if pid in p.slots {
        var k :| 0 <= k < |p.slots| && p.slots[k] == pid;
        NoOverwrite(p, run[0], k);
        assert q.slots[k] == pid;
      }
      LostForever(q, run[1..], pid);
    }
  }

  /** Children are lost exactly by early reaps. */
  lemma {:induction false} EarlyReapLoses(p: Pool, run: seq<Event>)
    requires Inv(p) && IsRun(p, run) && p.lost == {}
    ensures NoEarlyReap(p, run) <==> End(p, run).lost == {}
    decreases |run|
  {
    if run != [] {
      var ev, q := run[0], Next(p, run[0]);
      StepInv(p, ev);
      if ev.Reap? && ev.pid in InFlight(p.phase) {
        LostForever(q, run[1..], ev.pid);
      } else {
        EarlyReapLoses(q, run[1..]);
      }
    }
  }

  /**
   A pool of one: its worker dies between fork and store.  The manager ends up
   with its count complete and its slot occupied, and no worker alive.
   */
  lemma EarlyReapExample()
    ensures
      var run := [Advance, ForkOk(1), Reap(1), Advance, Advance, Advance, Wake, Advance];
      && IsRun(Start(1), run)
      && End(Start(1), run) == Pool(1, [1], 1, Idle, {}, {1}, {1})
  {
    hide IsRun, End;
    var run := [Advance, ForkOk(1), Reap(1), Advance, Advance, Advance, Wake, Advance];
    assert run[8..] == [] && run[0..] == run;
    var p2 := EarlyDeath();
    var p4 := p2.(count := 1, phase := Counted(0, false, 1));
    var p5 := p4.(slots := [1], phase := Prefork(1));
    Stop(p5.(phase := Idle));
    Chain(p5.(phase := Test), run, 7);
    Chain(p5.(phase := Idle), run, 6);
    Chain(p5, run, 5);
    assert [0][0 := 1] == [1];
    Chain(p4, run, 4);
    Chain(p2, run, 3);
    Chain(BeforeDeath(), run, 2);
    hide Reaped;
    Chain(Start(1).(phase := Fork(0, false)), run, 1);
    Chain(Start(1), run, 0);
  }

  /** A pool of one whose worker has just been forked. */
  function BeforeDeath(): Pool {
    Pool(1, [0], 0, Forked(0, false, 1), {1}, {}, {1})
  }

  lemma EarlyDeath() returns (p: Pool)
    ensures p == Pool(1, [0], 0, Forked(0, false, 1), {}, {1}, {1})
    ensures Enabled(BeforeDeath(), Reap(1)) && Next(BeforeDeath(), Reap(1)) == p
    ensures Next(Start(1).(phase := Fork(0, false)), ForkOk(1)) == BeforeDeath()
  {
    p := Pool(1, [0], 0, Forked(0, false, 1), {}, {1}, {1});
    assert SlotOf([0], 1) == 1;
    assert Start(1).slots == [0];
  }

  lemma Stop(p: Pool)
    ensures IsRun(p, []) && End(p, []) == p
  {
  }

  lemma Chain(p: Pool, run: seq<Event>, k: nat)
    requires k < |run| && Enabled(p, run[k]) && IsRun(Next(p, run[k]), run[k + 1..])
    ensures IsRun(p, run[k..]) && End(p, run[k..]) == End(Next(p, run[k]), run[k + 1..])
  {
    assert run[k..][1..] == run[k + 1..];
  }

  // ----- Shutting down -----

  /** The pids a manager's `shutdown` sends its signal to, in order. */
  function Signalled(slots: seq<nat>): seq<nat> {
    if slots == [] then []
    else
      var before, last := Signalled(slots[..|slots| - 1]), slots[|slots| - 1];
      if last != 0 then before + [last] else before
  }

  lemma {:induction false} SignalledOnce(slots: seq<nat>)
    requires DistinctPids(slots)
    ensures multiset(Signalled(slots)) == multiset(Pids(slots))
  {
    if slots == [] {
      assert Pids(slots) == {};
    } else {
      var n := |slots| - 1;
      var rest := slots[..n];
      SignalledOnce(rest);
      assert slots == rest + [slots[n]];
      if slots[n] != 0 {
        assert slots[n] !in Pids(rest);
        assert Pids(slots) == Pids(rest) + {slots[n]};
      } else {
        assert Pids(slots) == Pids(rest);
      }
    }
  }

  /**
   In every run a shutdown signals each recorded child exactly once, living or lost, and nothing
   else.  It misses a living child exactly when that one is being spawned, and signals a pid that
   is no child any more exactly when a lost one is recorded.  With no spawn under way it signals
   the living children, each once, exactly when no child was reaped too early.
   */
  lemma ShutdownSignals(max: nat, run: seq<Event>)
    requires IsRun(Start(max), run)
    ensures
      var p := End(Start(max), run);
      var signalled := multiset(Signalled(p.slots));
      && signalled == multiset(p.live + p.lost - InFlight(p.phase))
      && (multiset(p.live) <= signalled <==> p.live !! InFlight(p.phase))
      && (signalled <= multiset(p.live) <==> p.lost <= InFlight(p.phase))
      && (NoEarlyReap(Start(max), run) ==> signalled == multiset(p.live - InFlight(p.phase)))
      && (InFlight(p.phase) == {} ==> (signalled == multiset(p.live) <==> NoEarlyReap(Start(max), run)))
  {
    StartInv(max);
    RunInv(Start(max), run);
    EarlyReapLoses(Start(max), run);
    var p := End(Start(max), run);
    SignalledOnce(p.slots);
    SetsCompared(p.live, p.lost, InFlight(p.phase));
  }

  lemma SetsCompared(live: set<nat>, lost: set<nat>, flying: set<nat>)
    requires live !! lost
    ensures
      var signalled := multiset(live + lost - flying);
      && (multiset(live) <= signalled <==> live !! flying)
      && (signalled <= multiset(live) <==> lost <= flying)
      && (flying == {} ==> (signalled == multiset(live) <==> lost == {}))
  {
    var signalled := multiset(live + lost - flying);
    if x :| x in live && x in flying {
      assert multiset(live)[x] == 1 && signalled[x] == 0;
    }
    if x :| x in lost && x !in flying {
      assert multiset(live)[x] == 0 && signalled[x] == 1;
    }
  }

  // ----- Starting up -----

  /** Pre-forking has filled the slots behind it. */
  ghost predicate Preforked(p: Pool) {
    match p.phase
    case Prefork(i) => FilledTo(p.slots, i)
    case Fork(i, managing) => !managing && FilledTo(p.slots, i)
    case Forked(i, managing, pid) => !managing && FilledTo(p.slots, i)
    case Counted(i, managing, pid) => !managing && FilledTo(p.slots, i)
    case Idle => FilledTo(p.slots, |p.slots|)
    case Aborted => true
    case _ => false
  }

  ghost predicate FilledTo(slots: seq<nat>, i: nat) {
    forall k :: 0 <= k < i && k < |slots| ==> slots[k] != 0
  }

  /** Without a death, the server goes to sleep for the first time with every slot occupied, or not at all. */
  lemma {:induction false} PreforkFills(p: Pool, run: seq<Event>)
    requires Inv(p) && Preforked(p) && IsRun(p, run)
    requires forall ev :: ev in run ==> !ev.Reap? && !ev.Wake?
    ensures Preforked(End(p, run))
    ensures End(p, run).phase.Idle? ==> 0 !in End(p, run).slots
    decreases |run|
  {
    if run != [] {
      StepInv(p, run[0]);
      PreforkStep(p, run[0]);
      hide Inv, Preforked, Next, Enabled;
      PreforkFills(Next(p, run[0]), run[1..]);
    }
  }

  lemma PreforkStep(p: Pool, ev: Event)
    requires Inv(p) && Preforked(p) && Enabled(p, ev) && !ev.Reap? && !ev.Wake?
    ensures Preforked(Next(p, ev))
  {
    if p.phase.Counted? {
      assert p.phase.pid in p.live + p.lost;
      assert p.phase.pid != 0;
    }
  }

  /** The same from the start. */
  lemma ServerStarts(max: nat, run: seq<Event>)
    requires IsRun(Start(max), run) && forall ev :: ev in run ==> !ev.Reap? && !ev.Wake?
    ensures End(Start(max), run).phase.Idle? ==> 0 !in End(Start(max), run).slots
  {
    StartInv(max);
    PreforkFills(Start(max), run);
  }

  /** A fork that fails before that ends the server: from then on children can only die. */
  lemma PreforkFails(p: Pool, run: seq<Event>)
    requires p.phase.Fork? && !p.phase.managing
    requires run != [] && run[0] == ForkFails && IsRun(p, run)
    ensures forall i :: 0 < i < |run| ==> run[i].Reap?
  {
    OnlyDeaths(Next(p, ForkFails), run[1..]);
    assert forall i :: 0 < i < |run| ==> run[i] == run[1..][i - 1];
  }

  lemma {:induction false} OnlyDeaths(p: Pool, run: seq<Event>)
    requires p.phase.Aborted? && IsRun(p, run)
    ensures forall i :: 0 <= i < |run| ==> run[i].Reap?
    decreases |run|
  {
    if run != [] {
      OnlyDeaths(Next(p, run[0]), run[1..]);
      assert forall i :: 0 < i < |run| ==> run[i] == run[1..][i - 1];
    }
  }

  // ----- The manager's loop -----

  /**
   In every run, with every slot occupied and no spawn under way: as many workers live as there
   are slots exactly when no child was reaped too early.
   */
  lemma FullPool(max: nat, run: seq<Event>)
    requires IsRun(Start(max), run)
    requires InFlight(End(Start(max), run).phase) == {} && 0 !in End(Start(max), run).slots
    ensures var p := End(Start(max), run);
      && |p.live| + |p.lost| == max
      && (|p.live| == max <==> NoEarlyReap(Start(max), run))
  {
    Conservation(max, run);
    StartInv(max);
    EarlyReapLoses(Start(max), run);
    var p := End(Start(max), run);
    OccupiedFull(p.slots);
    assert |p.lost| == 0 <==> p.lost == {};
  }

  /** When `manage_workers` ends, every slot is occupied, and all workers live if none was reaped too early. */
  lemma ManageEnds(max: nat, run: seq<Event>)
    requires IsRun(Start(max), run)
    requires End(Start(max), run).phase.Test? && Next(End(Start(max), run), Advance).phase.Idle?
    ensures var p := End(Start(max), run);
      && 0 !in p.slots
      && (|p.live| == max <==> NoEarlyReap(Start(max), run))
  {
    Conservation(max, run);
    OccupiedFull(End(Start(max), run).slots);
    FullPool(max, run);
  }

  /** The manager is inside `manage_workers`. */
  predicate Managing(phase: Phase) {
    match phase
    case Test => true
    case Scan(_) => true
    case Fork(_, managing) => managing
    case Forked(_, managing, _) => managing
    case Counted(_, managing, _) => managing
    case _ => false
  }

  /** A fork failure or a death. */
  predicate Disturbs(ev: Event) {
    ev.ForkFails? || ev.Reap?
  }

  function Disturbances(run: seq<Event>): nat {
    if run == [] then 0 else (if Disturbs(run[0]) then 1 else 0) + Disturbances(run[1..])
  }

  /** A run that stays inside one call of `manage_workers` up to its last step. */
  ghost predicate ManageRun(p: Pool, run: seq<Event>)
    decreases |run|
  {
    run == [] || (Managing(p.phase) && Enabled(p, run[0]) && ManageRun(Next(p, run[0]), run[1..]))
  }

  /** Steps of one undisturbed pass over the slots. */
  function Pass(max: nat): nat {
    4 * max + 2
  }

  /** Steps left in the pass the manager is in. */
  function LeftInPass(p: Pool): int {
    match p.phase
    case Scan(i) => 4 * (p.max - i) + 1
    case Fork(i, _) => 4 * (p.max - i)
    case Forked(i, _, _) => 4 * (p.max - i) - 1
    case Counted(i, _, _) => 4 * (p.max - i) - 2
    case _ => 0
  }

  /** How many slots the pass has already gone by. */
  function Gone(p: Pool): nat {
    match p.phase
    case Scan(i) => i
    case Fork(i, _) => i
    case Forked(i, _, _) => i
    case Counted(i, _, _) => i
    case _ => p.max
  }

  // ----- One pass over the slots -----

  /** The manager is in the middle of a pass. */
  predicate InPass(phase: Phase) {
    Managing(phase) && !phase.Test?
  }

  /** A run from inside a pass to its end, during which nothing is reaped. */
  ghost predicate PassRun(p: Pool, run: seq<Event>)
    decreases |run|
  {
    if run == [] then p.phase.Test?
    else InPass(p.phase) && Enabled(p, run[0]) && !run[0].Reap? && PassRun(Next(p, run[0]), run[1..])
  }

  /** How many slots from `i` on are empty. */
  function EmptyFrom(slots: seq<nat>, i: nat): nat
    decreases |slots| - i
  {
    if i >= |slots| then 0 else (if slots[i] == 0 then 1 else 0) + EmptyFrom(slots, i + 1)
  }

  /** How many forks a run tries. */
  function Tries(run: seq<Event>): nat {
    if run == [] then 0 else (if run[0].ForkOk? || run[0].ForkFails? then 1 else 0) + Tries(run[1..])
  }

  /** How many are still to be tried in this pass. */
  function ToTry(p: Pool): nat {
    match p.phase
    case Scan(i) => EmptyFrom(p.slots, i)
    case Fork(i, _) => EmptyFrom(p.slots, i)
    case Forked(i, _, _) => EmptyFrom(p.slots, i + 1)
    case Counted(i, _, _) => EmptyFrom(p.slots, i + 1)
    case _ => 0
  }

  lemma {:induction false} EmptyBehind(slots: seq<nat>, k: nat, pid: nat, i: nat)
    requires k < i && k < |slots|
    ensures EmptyFrom(slots[k := pid], i) == EmptyFrom(slots, i)
    decreases |slots| - i
  {
    if i < |slots| {
      EmptyBehind(slots, k, pid, i + 1);
    }
  }

  lemma TryStep(p: Pool, ev: Event)
    requires Inv(p) && InPass(p.phase) && Enabled(p, ev) && !ev.Reap?
    ensures ToTry(p) == ToTry(Next(p, ev)) + if ev.ForkOk? || ev.ForkFails? then 1 else 0
  {
    if p.phase.Counted? {
      EmptyBehind(p.slots, p.phase.i, p.phase.pid, p.phase.i + 1);
    }
  }

  /** A pass in which nothing is reaped tries one fork for each slot that is empty, whichever forks fail. */
  lemma {:induction false} PassTries(p: Pool, run: seq<Event>)
    requires Inv(p) && PassRun(p, run)
    ensures Tries(run) == ToTry(p)
    decreases |run|
  {
    if run != [] {
      TryStep(p, run[0]);
      StepInv(p, run[0]);
      hide Inv, ToTry, Next, Enabled;
      PassTries(Next(p, run[0]), run[1..]);
    }
  }

  /** A slot the pass has gone by is empty, so one more pass is needed. */
  ghost predicate Missed(p: Pool) {
    exists k :: 0 <= k < |p.slots| && k < Gone(p) && p.slots[k] == 0
  }

  ghost function Work(p: Pool): int {
    if !Managing(p.phase) then 0 else LeftInPass(p) + (if Missed(p) then Pass(p.max) else 0) + 1
  }

  lemma WorkBounds(p: Pool)
    requires Inv(p)
    ensures 0 <= Work(p)
    ensures Managing(p.phase) ==> 1 <= Work(p)
    ensures p.phase.Test? ==> Work(p) <= Pass(p.max) + 1
  {
  }

  /** An undisturbed step does some of the work; a disturbance adds at most one pass. */
  lemma WorkStep(p: Pool, ev: Event)
    requires Inv(p) && Managing(p.phase) && Enabled(p, ev)
    ensures Work(Next(p, ev)) <= if Disturbs(ev) then Work(p) + Pass(p.max) else Work(p) - 1
  {
    var q := Next(p, ev);
    if ev.Reap? {
      assert q.phase == p.phase && q.max == p.max;
    } else if !Disturbs(ev) {
      if p.phase.Test? {
        OccupiedFull(p.slots);
        if p.count != p.max {
          var k :| 0 <= k < |p.slots| && p.slots[k] == 0;
          assert Missed(p);
          assert !Missed(q);
        }
      } else {
        MissedKept(p, ev);
      }
    }
  }

  lemma MissedKept(p: Pool, ev: Event)
    requires Inv(p) && Managing(p.phase) && !p.phase.Test? && Enabled(p, ev) && !Disturbs(ev)
    ensures Missed(Next(p, ev)) ==> Missed(p)
  {
    var q := Next(p, ev);
    if Missed(q) {
      var k :| 0 <= k < |q.slots| && k < Gone(q) && q.slots[k] == 0;
      assert p.slots[k] == 0;
      assert k < Gone(p);
    }
  }

  /**
   `manage_workers` ends if fork failures and deaths do: a call in which `d` of
   them happen takes at most (d + 1) passes' worth of steps.
   */
  lemma ManageBounded(p: Pool, run: seq<Event>)
    requires Inv(p) && p.phase.Test? && ManageRun(p, run)
    ensures |run| <= (Disturbances(run) + 1) * (Pass(p.max) + 1)
  {
    WorkBounds(p);
    StepsBounded(p, run);
    Distribute(Disturbances(run), Pass(p.max) + 1);
  }

  lemma Distribute(d: nat, k: nat)
    ensures (d + 1) * k == d * k + k
  {
  }

  lemma {:induction false} StepsBounded(p: Pool, run: seq<Event>)
    requires Inv(p) && ManageRun(p, run)
    ensures |run| <= Work(p) + Disturbances(run) * (Pass(p.max) + 1)
    decreases |run|
  {
    WorkBounds(p);
    if run != [] {
      var ev, rest := run[0], run[1..];
      StepInv(p, ev);
      WorkStep(p, ev);
      assert Next(p, ev).max == p.max;
      hide Inv, Work, Next, Pass;
      StepsBounded(Next(p, ev), rest);
      Distribute(Disturbances(rest), Pass(p.max) + 1);
    }
  }

  /** Until it ends, the manager can always take a step that is not a disturbance. */
  lemma ManageProgress(p: Pool) returns (ev: Event)
    requires Managing(p.phase)
    ensures Enabled(p, ev) && !Disturbs(ev)
  {
    if p.phase.Fork? {
      var pid := Fresh(p.used);
      ev := ForkOk(pid);
    } else {
      ev := Advance;
    }
  }

  lemma {:induction false} Fresh(used: set<nat>) returns (pid: nat)
    ensures pid > 0 && pid !in used
    ensures forall x :: x in used ==> x < pid
    decreases used
  {
    if used == {} {
      pid := 1;
    } else {
      var x :| x in used;
      var y := Fresh(used - {x});
      pid := if y > x then y else x + 1;
      assert forall z :: z in used ==> z == x || z in used - {x};
    }
  }
}
