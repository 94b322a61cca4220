/** The execution of an analysis: level by level, the analyzers of a level interleaved in any order, each
    gated on its dependencies. The outcome is compared with a definition that has no order in it. */
module Engine {
  import Dag

  /** What an analyzer does once it is reached: its registry entry is gone, or its stage succeeds or fails. */
  datatype Own = Unregistered | Succeeds | Fails

  /** A request: the dependencies, the level of every analyzer in the DAG, what each would do, and the
      analyzers a prior pass completed. */
  datatype Plan = Plan(edges: Dag.Edges, at: map<string, nat>, own: map<string, Own>, seeded: set<string>)

  /** Dependencies sit in earlier levels. */
  predicate Layered(p: Plan) {
    && p.own.Keys == p.at.Keys
    && (forall n :: n in p.at ==> n in p.edges)
    && (forall n, d :: n in p.at && d in p.edges[n] ==> d in p.at && p.at[d] < p.at[n])
  }

  /** The levels of a built DAG are such a layering. */
  lemma BuiltIsLayered(edges: Dag.Edges, levels: seq<seq<string>>, order: seq<string>, p: Plan)
    requires Dag.Closed(edges) && Dag.LevelsOk(edges, levels, order) && Dag.ElementsOf(order) == edges.Keys
    requires p.edges == edges && p.own.Keys == p.at.Keys == edges.Keys
    requires forall n :: n in p.at ==> p.at[n] < |levels| && n in levels[p.at[n]]
    ensures Layered(p)
  {
    hide Dag.Settled;
    forall n, d | n in p.at && d in edges[n] ensures d in p.at && p.at[d] < p.at[n] {
      Dag.DependenciesComeFirst(edges, levels, order, p.at[n], n, d);
      var m :| 0 <= m < p.at[n] && d in levels[m];
      assert d in Dag.ElementsOf(levels[m]) && d in Dag.ElementsOf(levels[p.at[d]]);
      Dag.OneLevel(edges, m, p.at[d], d);
    }
  }

  // ---- the reference ----

  /** An analyzer is completed if a prior pass completed it, or if its stage succeeds and all its
      dependencies are completed. */
  predicate Completes(p: Plan, n: string)
    requires Layered(p)
    decreases if n in p.at then p.at[n] + 1 else 0
  {
    n in p.seeded || (n in p.at && p.own[n].Succeeds? && forall d :: d in p.edges[n] ==> Completes(p, d))
  }

  predicate Free(p: Plan, n: string)
    requires Layered(p) && n in p.at
  {
    forall d :: d in p.edges[n] ==> Completes(p, d)
  }

  datatype Verdict = Completed | Failed | Skipped

  /** Where an analyzer lands. */
  function Lands(p: Plan, n: string): Verdict
    requires Layered(p) && n in p.at
  {
    if n in p.seeded then Completed
    else if p.own[n].Unregistered? then Failed
    else if !Free(p, n) then Skipped
    else if p.own[n].Succeeds? then Completed
    else Failed
  }

  // ---- the execution ----

  datatype Pc = Begin | Looked | Checking(next: nat) | Skipping | Running | Done

  datatype Phase = Levels | Finished | Cancelled

  datatype State = State(
    completed: seq<string>, failed: seq<string>, skipped: seq<string>,
    pcs: map<string, Pc>,       // the analyzers of the level under way
    level: nat, dispatched: set<string>, phase: Phase)

  datatype Step =
    | Look(name: string)        // isCompleted of itself
    | Get(name: string)         // the registry lookup
    | Check(name: string)       // isCompleted of the next dependency
    | Skip(name: string)
    | Finish(name: string)
    | NextLevel
    | Stop
    | Cancel(rest: seq<string>) // the names of the levels not reached, in any order

  predicate AllDone(pcs: map<string, Pc>) {
    forall n :: n in pcs ==> pcs[n].Done?
  }

  function StartLevel(p: Plan, level: nat): map<string, Pc> {
    map n | n in p.at && p.at[n] == level :: Begin
  }

  predicate Later(p: Plan, level: nat, n: string) {
    n in p.at && p.at[n] > level
  }

  ghost predicate Enabled(p: Plan, s: State, step: Step)
    requires Layered(p)
  {
    s.phase.Levels? &&
    match step
    case Look(n) => n in s.pcs && s.pcs[n].Begin?
    case Get(n) => n in s.pcs && n in p.at && s.pcs[n].Looked?
    case Check(n) => n in s.pcs && n in p.at && s.pcs[n].Checking? && s.pcs[n].next <= |p.edges[n]|
    case Skip(n) => n in s.pcs && s.pcs[n].Skipping?
    case Finish(n) => n in s.pcs && n in p.at && s.pcs[n].Running?
    case NextLevel => AllDone(s.pcs) && exists n :: Later(p, s.level, n)
    case Stop => AllDone(s.pcs) && forall n :: !Later(p, s.level, n)
    case Cancel(rest) => AllDone(s.pcs) && Dag.Distinct(rest) && forall n :: n in rest <==> Later(p, s.level, n)
  }

  function Move(s: State, n: string, pc: Pc): State {
    s.(pcs := s.pcs[n := pc])
  }

  ghost function Apply(p: Plan, s: State, step: Step): State
    requires Layered(p) && Enabled(p, s, step)
  {
    match step
    case Look(n) => Move(s, n, if n in s.completed then Done else Looked)
    case Get(n) => if p.own[n].Unregistered? then Move(s, n, Done).(failed := s.failed + [n]) else Move(s, n, Checking(0))
    case Check(n) =>
      var k := s.pcs[n].next;
      if k == |p.edges[n]| then Move(s, n, Running).(dispatched := s.dispatched + {n})
      else Move(s, n, if p.edges[n][k] in s.completed then Checking(k + 1) else Skipping)
    case Skip(n) => Move(s, n, Done).(skipped := s.skipped + [n])
    case Finish(n) =>
      if p.own[n].Succeeds? then Move(s, n, Done).(completed := s.completed + [n]) else Move(s, n, Done).(failed := s.failed + [n])
    case NextLevel => s.(level := s.level + 1, pcs := StartLevel(p, s.level + 1))
    case Stop => s.(phase := Finished)
    case Cancel(rest) => s.(skipped := s.skipped + rest, phase := Cancelled)
  }

  predicate Starts(p: Plan, s: State) {
    && Dag.Distinct(s.completed) && Dag.ElementsOf(s.completed) == p.seeded
    && s == State(s.completed, [], [], StartLevel(p, 0), 0, {}, Levels)
  }

  ghost predicate IsRun(p: Plan, states: seq<State>, steps: seq<Step>)
    requires Layered(p)
  {
    && |states| == |steps| + 1 && Starts(p, states[0])
    && forall i :: 0 <= i < |steps| ==> Enabled(p, states[i], steps[i]) && states[i + 1] == Apply(p, states[i], steps[i])
  }

  // ---- what every step keeps ----

  /** The analyzer's part is over. */
  predicate Resolved(p: Plan, s: State, n: string) {
    n in p.at && (p.at[n] < s.level || (n in s.pcs && s.pcs[n].Done?))
  }

  /** How often the analyzer stands in each list. */
  predicate Listed(p: Plan, s: State, n: string)
    requires Layered(p)
  {
    var over := Resolved(p, s, n);
    && Dag.Count(s.completed, n) == (if n in p.seeded || (over && Lands(p, n).Completed?) then 1 else 0)
    && Dag.Count(s.failed, n) == (if over && Lands(p, n).Failed? then 1 else 0)
    && Dag.Count(s.skipped, n) == (if over && Lands(p, n).Skipped? then 1 else 0) +
                                  (if s.phase.Cancelled? && Later(p, s.level, n) then 1 else 0)
  }

  /** What an analyzer under way has found out. */
  predicate Knows(p: Plan, n: string, pc: Pc)
    requires Layered(p) && n in p.at
  {
    match pc
    case Begin => true
    case Looked => n !in p.seeded
    case Checking(k) => n !in p.seeded && !p.own[n].Unregistered? && k <= |p.edges[n]| && forall j :: 0 <= j < k ==> Completes(p, p.edges[n][j])
    case Skipping => n !in p.seeded && !p.own[n].Unregistered? && !Free(p, n)
    case Running => n !in p.seeded && !p.own[n].Unregistered? && Free(p, n)
    case Done => true
  }

  /** Dispatched are exactly the analyzers that were reached, are registered, and had all they depend on. */
  predicate DispatchedOk(p: Plan, s: State, n: string)
    requires Layered(p)
  {
    n in s.dispatched <==> (Resolved(p, s, n) || (n in p.at && n in s.pcs && s.pcs[n].Running?)) &&
                           n !in p.seeded && !p.own[n].Unregistered? && Free(p, n)
  }

  ghost predicate Inv(p: Plan, s: State)
    requires Layered(p)
  {
    && (forall n :: n in s.pcs <==> n in p.at && p.at[n] == s.level)
    && (forall n :: n in s.pcs ==> Knows(p, n, s.pcs[n]))
    && (forall n :: Listed(p, s, n))
    && (forall n :: DispatchedOk(p, s, n))
    && (!s.phase.Levels? ==> AllDone(s.pcs))
    && (s.phase.Finished? ==> forall n :: !Later(p, s.level, n))
  }

  /** For an analyzer whose part is over, being in the completed list means what the reference says. */
  lemma CompletedMeans(p: Plan, s: State, n: string)
    requires Layered(p) && Listed(p, s, n) && (Resolved(p, s, n) || n !in p.at)
    ensures n in s.completed <==> Completes(p, n)
  {
    Dag.CountPositive(s.completed, n);
  }

  /** The new state after an analyzer of the level under way moves, possibly into a list. */
  ghost predicate Moves(p: Plan, s: State, s': State, n: string)
    requires Layered(p)
  {
    && n in s.pcs && n in s'.pcs && s.phase.Levels? && s'.phase.Levels? && s'.level == s.level
    && (forall m :: m in s'.pcs <==> m in s.pcs) && (forall m :: m in s.pcs && m != n ==> s'.pcs[m] == s.pcs[m])
    && (s'.completed == s.completed || s'.completed == s.completed + [n])
    && (s'.failed == s.failed || s'.failed == s.failed + [n])
    && (s'.skipped == s.skipped || s'.skipped == s.skipped + [n])
    && (s'.dispatched == s.dispatched || s'.dispatched == s.dispatched + {n})
  }

  lemma ListedOthers(p: Plan, s: State, s': State, n: string, m: string)
    requires Layered(p) && Listed(p, s, m) && Moves(p, s, s', n) && m != n
    ensures Listed(p, s', m)
  {
    hide Lands, Dag.Count;
    Dag.CountAdd(s.completed, n, m);
    Dag.CountAdd(s.failed, n, m);
    Dag.CountAdd(s.skipped, n, m);
  }

  /** If the mover's own knowledge, lists and dispatch are right, the invariant is kept. */
  lemma MoveKeeps(p: Plan, s: State, s': State, n: string)
    requires Layered(p) && Inv(p, s) && Moves(p, s, s', n) && n in p.at
    requires Knows(p, n, s'.pcs[n]) && Listed(p, s', n)
    requires DispatchedOk(p, s', n)
    ensures Inv(p, s')
  {
    hide Knows, Listed, Free;
    forall m ensures Listed(p, s', m) {
      if m != n { ListedOthers(p, s, s', n, m); }
    }
    forall m ensures DispatchedOk(p, s', m) {
      if m != n { assert DispatchedOk(p, s, m); }
    }
  }

  lemma OfLevel(p: Plan, s: State, n: string)
    requires Layered(p) && Inv(p, s) && n in s.pcs
    ensures n in p.at && p.at[n] == s.level && Knows(p, n, s.pcs[n]) && Listed(p, s, n)
    ensures DispatchedOk(p, s, n)
  {
  }

  lemma LookKeeps(p: Plan, s: State, n: string)
    requires Layered(p) && Inv(p, s) && Enabled(p, s, Look(n))
    ensures Inv(p, Apply(p, s, Look(n)))
  {
    hide Inv, Free;
    OfLevel(p, s, n);
    Dag.CountPositive(s.completed, n);
    hide Dag.Count;
    MoveKeeps(p, s, Apply(p, s, Look(n)), n);
  }

  lemma GetKeeps(p: Plan, s: State, n: string)
    requires Layered(p) && Inv(p, s) && Enabled(p, s, Get(n))
    ensures Inv(p, Apply(p, s, Get(n)))
  {
    hide Inv, Free, Dag.Count;
    OfLevel(p, s, n);
    Dag.CountAdd(s.failed, n, n);
    MoveKeeps(p, s, Apply(p, s, Get(n)), n);
  }

  lemma SkipKeeps(p: Plan, s: State, n: string)
    requires Layered(p) && Inv(p, s) && Enabled(p, s, Skip(n))
    ensures Inv(p, Apply(p, s, Skip(n)))
  {
    hide Inv, Free, Dag.Count;
    OfLevel(p, s, n);
    Dag.CountAdd(s.skipped, n, n);
    MoveKeeps(p, s, Apply(p, s, Skip(n)), n);
  }

  lemma FinishKeeps(p: Plan, s: State, n: string)
    requires Layered(p) && Inv(p, s) && Enabled(p, s, Finish(n))
    ensures Inv(p, Apply(p, s, Finish(n)))
  {
    hide Inv, Free, Dag.Count;
    OfLevel(p, s, n);
    Dag.CountAdd(s.completed, n, n);
    Dag.CountAdd(s.failed, n, n);
    MoveKeeps(p, s, Apply(p, s, Finish(n)), n);
  }

  lemma DependencyIsOver(p: Plan, s: State, n: string, d: string)
    requires Layered(p) && Inv(p, s) && n in s.pcs && n in p.at && d in p.edges[n]
    ensures d in s.completed <==> Completes(p, d)
  {
    hide Lands, Completes;
    assert Listed(p, s, d);
    CompletedMeans(p, s, d);
  }

  lemma CheckKeeps(p: Plan, s: State, n: string)
    requires Layered(p) && Inv(p, s) && Enabled(p, s, Check(n))
    ensures Inv(p, Apply(p, s, Check(n)))
  {
    hide Inv, Completes, Lands, Dag.Count;
    OfLevel(p, s, n);
    var k := s.pcs[n].next;
    if k < |p.edges[n]| {
      var d := p.edges[n][k];
      DependencyIsOver(p, s, n, d);
      assert d in p.edges[n];
      assert Knows(p, n, if d in s.completed then Checking(k + 1) else Skipping);
    } else {
      assert Free(p, n) by { AllChecked(p, n); }
    }
    hide Knows, Free;
    MoveKeeps(p, s, Apply(p, s, Check(n)), n);
  }

  lemma AllChecked(p: Plan, n: string)
    requires Layered(p) && n in p.at && Knows(p, n, Checking(|p.edges[n]|))
    ensures Free(p, n)
  {
    hide Completes;
    forall d | d in p.edges[n] ensures Completes(p, d) {
      var j :| 0 <= j < |p.edges[n]| && p.edges[n][j] == d;
    }
  }

  lemma NextKeeps(p: Plan, s: State)
    requires Layered(p) && Inv(p, s) && Enabled(p, s, NextLevel)
    ensures Inv(p, Apply(p, s, NextLevel))
  {
    hide Lands, Completes, Free, Dag.Count;
    var s' := Apply(p, s, NextLevel);
    forall n ensures Listed(p, s', n) && DispatchedOk(p, s', n) {
      assert Listed(p, s, n) && DispatchedOk(p, s, n);
    }
  }

  lemma StopKeeps(p: Plan, s: State)
    requires Layered(p) && Inv(p, s) && Enabled(p, s, Stop)
    ensures Inv(p, Apply(p, s, Stop))
  {
    hide Lands, Completes, Free, Dag.Count;
    var s' := Apply(p, s, Stop);
    forall n ensures Listed(p, s', n) && DispatchedOk(p, s', n) {
      assert Listed(p, s, n) && DispatchedOk(p, s, n);
    }
  }

  lemma {:induction false} CountJoin(a: seq<string>, b: seq<string>, n: string)
    ensures Dag.Count(a + b, n) == Dag.Count(a, n) + Dag.Count(b, n)
  {
    if b == [] {
      assert a + b == a;
    } else {
      assert (a + b)[..|a + b| - 1] == a + b[..|b| - 1];
      CountJoin(a, b[..|b| - 1], n);
    }
  }

  lemma {:induction false} CountDistinct(s: seq<string>, n: string)
    requires Dag.Distinct(s)
    ensures Dag.Count(s, n) == if n in s then 1 else 0
  {
    if s != [] {
      CountDistinct(s[..|s| - 1], n);
      assert s == s[..|s| - 1] + [s[|s| - 1]];
    }
  }

  lemma CancelKeeps(p: Plan, s: State, rest: seq<string>)
    requires Layered(p) && Inv(p, s) && Enabled(p, s, Cancel(rest))
    ensures Inv(p, Apply(p, s, Cancel(rest)))
  {
    hide Lands, Completes, Free, Dag.Count;
    var s' := Apply(p, s, Cancel(rest));
    forall n ensures Listed(p, s', n) && DispatchedOk(p, s', n) {
      assert Listed(p, s, n) && DispatchedOk(p, s, n);
      CountJoin(s.skipped, rest, n);
      CountDistinct(rest, n);
    }
  }

  lemma StartOk(p: Plan, s: State)
    requires Layered(p) && Starts(p, s)
    ensures Inv(p, s)
  {
    hide Lands, Completes, Free;
    forall n ensures Listed(p, s, n) {
      CountDistinct(s.completed, n);
      assert n in s.completed <==> n in Dag.ElementsOf(s.completed);
    }
  }

  lemma InvKept(p: Plan, s: State, step: Step)
    requires Layered(p) && Inv(p, s) && Enabled(p, s, step)
    ensures Inv(p, Apply(p, s, step))
  {
    hide Inv, Enabled, Apply;
    match step
    case Look(n) => LookKeeps(p, s, n);
    case Get(n) => GetKeeps(p, s, n);
    case Check(n) => CheckKeeps(p, s, n);
    case Skip(n) => SkipKeeps(p, s, n);
    case Finish(n) => FinishKeeps(p, s, n);
    case NextLevel => NextKeeps(p, s);
    case Stop => StopKeeps(p, s);
    case Cancel(rest) => CancelKeeps(p, s, rest);
  }

  lemma {:induction false} InvAlong(p: Plan, states: seq<State>, steps: seq<Step>, i: nat)
    requires Layered(p) && IsRun(p, states, steps) && i < |states|
    ensures Inv(p, states[i])
  {
    hide Inv, Enabled, Apply, Starts;
    if i > 0 {
      InvAlong(p, states, steps, i - 1);
      InvKept(p, states[i - 1], steps[i - 1]);
    } else {
      StartOk(p, states[0]);
    }
  }

  // ---- the theorems ----

  /** In a run that finishes, however the analyzers of a level interleave, every analyzer of the DAG stands
      exactly once in exactly one outcome list, the one the reference says, and was dispatched exactly when it was
      registered, not completed before, and all it depends on was completed. */
  lemma FinishedPartition(p: Plan, states: seq<State>, steps: seq<Step>, i: nat, n: string)
    requires Layered(p) && IsRun(p, states, steps) && i < |states| && states[i].phase.Finished? && n in p.at
    ensures var s := states[i]; var v := Lands(p, n);
      && Dag.Count(s.completed, n) == (if v.Completed? then 1 else 0)
      && Dag.Count(s.failed, n) == (if v.Failed? then 1 else 0)
      && Dag.Count(s.skipped, n) == (if v.Skipped? then 1 else 0)
      && (n in s.dispatched <==> n !in p.seeded && !p.own[n].Unregistered? && forall d :: d in p.edges[n] ==> Completes(p, d))
  {
    hide Lands, Completes, Dag.Count, Enabled, Apply, Starts, Knows;
    InvAlong(p, states, steps, i);
    var s := states[i];
    assert Listed(p, s, n) && !Later(p, s.level, n) && DispatchedOk(p, s, n);
    if n in p.seeded { SeededLands(p, n); }
  }

  lemma SeededLands(p: Plan, n: string)
    requires Layered(p) && n in p.at && n in p.seeded
    ensures Lands(p, n).Completed?
  {
  }

  lemma {:induction false} CountIsMultiplicity(s: seq<string>, n: string)
    ensures multiset(s)[n] == Dag.Count(s, n)
  {
    if s != [] {
      CountIsMultiplicity(s[..|s| - 1], n);
      assert s == s[..|s| - 1] + [s[|s| - 1]];
    }
  }

  lemma SameLists(p: Plan, s: State, t: State, n: string)
    requires Layered(p) && Inv(p, s) && Inv(p, t) && s.phase.Finished? && t.phase.Finished?
    ensures multiset(s.completed)[n] == multiset(t.completed)[n] && multiset(s.failed)[n] == multiset(t.failed)[n]
    ensures multiset(s.skipped)[n] == multiset(t.skipped)[n]
  {
    hide Lands, Completes, Free, Dag.Count, Knows;
    assert Listed(p, s, n) && Listed(p, t, n) && !Later(p, s.level, n) && !Later(p, t.level, n);
    CountIsMultiplicity(s.completed, n);
    CountIsMultiplicity(t.completed, n);
    CountIsMultiplicity(s.failed, n);
    CountIsMultiplicity(t.failed, n);
    CountIsMultiplicity(s.skipped, n);
    CountIsMultiplicity(t.skipped, n);
  }

  /** Given each analyzer's own outcome, two runs that finish have the same outcome lists up to order,
      whatever the interleavings. */
  lemma OrderDoesNotMatter(p: Plan, states: seq<State>, steps: seq<Step>, i: nat, states': seq<State>, steps': seq<Step>, j: nat)
    requires Layered(p) && IsRun(p, states, steps) && i < |states| && states[i].phase.Finished?
    requires IsRun(p, states', steps') && j < |states'| && states'[j].phase.Finished?
    ensures multiset(states[i].completed) == multiset(states'[j].completed)
    ensures multiset(states[i].failed) == multiset(states'[j].failed)
    ensures multiset(states[i].skipped) == multiset(states'[j].skipped)
  {
    hide Inv, IsRun;
    InvAlong(p, states, steps, i);
    InvAlong(p, states', steps', j);
    forall n
      ensures multiset(states[i].completed)[n] == multiset(states'[j].completed)[n]
      ensures multiset(states[i].failed)[n] == multiset(states'[j].failed)[n]
      ensures multiset(states[i].skipped)[n] == multiset(states'[j].skipped)[n]
    {
      SameLists(p, states[i], states'[j], n);
    }
  }

  // ---- gating along chains of dependencies ----

  /** A prior pass that completed an analyzer also completed its dependencies. */
  predicate SeedsClosed(p: Plan)
    requires Layered(p)
  {
    forall n, d :: n in p.seeded && n in p.at && d in p.edges[n] ==> d in p.seeded
  }

  lemma ChainTail(edges: Dag.Edges, chain: seq<string>)
    requires Dag.IsChain(edges, chain) && |chain| > 1
    ensures Dag.IsChain(edges, chain[1..]) && chain[1] in edges[chain[0]]
  {
    assert chain[1] in edges[chain[1 - 1]];
    var tail := chain[1..];
    forall k | 0 < k < |tail| ensures tail[k] in edges[tail[k - 1]] {
      assert chain[k + 1] in edges[chain[k + 1 - 1]];
    }
  }

  lemma {:induction false} ChainCompletes(p: Plan, chain: seq<string>)
    requires Layered(p) && SeedsClosed(p) && Dag.IsChain(p.edges, chain) && chain[0] in p.at && Completes(p, chain[0])
    ensures Completes(p, chain[|chain| - 1])
    decreases |chain|
  {
    if |chain| > 1 {
      ChainTail(p.edges, chain);
      ChainCompletes(p, chain[1..]);
    }
  }

  ghost predicate GatingCloses(p: Plan)
    requires Layered(p)
  {
    forall chain :: Dag.IsChain(p.edges, chain) && chain[0] in p.at && Completes(p, chain[0]) ==> Completes(p, chain[|chain| - 1])
  }

  /** Every completed analyzer has all its transitive dependencies completed, whatever the analyzers'
      own outcomes, exactly when the pre-seeded analyzers are closed under dependencies: one completed
      earlier hides a dependency that this pass runs again and fails. */
  lemma GatingClosesExactly(p: Plan)
    requires Layered(p)
    ensures SeedsClosed(p) <==> forall own: map<string, Own> :: own.Keys == p.at.Keys ==> GatingCloses(p.(own := own))
  {
    hide Completes;
    if SeedsClosed(p) {
      forall own: map<string, Own> | own.Keys == p.at.Keys ensures GatingCloses(p.(own := own)) {
        var q := p.(own := own);
        forall chain | Dag.IsChain(q.edges, chain) && chain[0] in q.at && Completes(q, chain[0])
          ensures Completes(q, chain[|chain| - 1])
        {
          ChainCompletes(q, chain);
        }
      }
    } else {
      var n, d :| n in p.seeded && n in p.at && d in p.edges[n] && d !in p.seeded;
      var own: map<string, Own> := map x | x in p.at :: Fails;
      SeedHides(p, own, n, d);
      assert own.Keys == p.at.Keys;
    }
  }

  lemma SeedHides(p: Plan, own: map<string, Own>, n: string, d: string)
    requires Layered(p) && own == map x | x in p.at :: Fails
    requires n in p.seeded && n in p.at && d in p.edges[n] && d !in p.seeded
    ensures own.Keys == p.at.Keys && !GatingCloses(p.(own := own))
  {
    var q := p.(own := own);
    var chain := [n, d];
    assert Dag.IsChain(q.edges, chain) && Completes(q, n) && !Completes(q, d);
    assert chain[|chain| - 1] == d;
  }

  /** With pre-seeded analyzers closed under dependencies, everything that depends on a failed analyzer,
      directly or not, is skipped with nothing dispatched (or had no registry entry to begin with). */
  lemma FailureSkipsDependents(p: Plan, states: seq<State>, steps: seq<Step>, i: nat, chain: seq<string>)
    requires Layered(p) && SeedsClosed(p) && IsRun(p, states, steps) && i < |states|
    requires Dag.IsChain(p.edges, chain) && |chain| > 1 && chain[0] in p.at
    requires chain[|chain| - 1] in p.at && Lands(p, chain[|chain| - 1]).Failed?
    ensures chain[0] !in states[i].dispatched
    ensures Lands(p, chain[0]) == if p.own[chain[0]].Unregistered? then Failed else Skipped
  {
    var n := chain[0];
    ChainTail(p.edges, chain);
    if Free(p, n) || n in p.seeded {
      assert Completes(p, chain[1]);
      ChainCompletes(p, chain[1..]);
      assert false;
    }
    hide Completes, Enabled, Apply, Starts, Dag.IsChain;
    InvAlong(p, states, steps, i);
    assert DispatchedOk(p, states[i], n);
  }

  // ---- cancelled runs ----

  /** A cancelled run puts every analyzer in exactly one list once, exactly when no pre-seeded analyzer
      sits in a level it did not reach: such a one is listed as completed and as skipped. */
  lemma CancelledPartitionExactly(p: Plan, states: seq<State>, steps: seq<Step>, i: nat)
    requires Layered(p) && IsRun(p, states, steps) && i < |states| && states[i].phase.Cancelled?
    ensures var s := states[i];
      (forall n :: n in p.at ==> Dag.Count(s.completed, n) + Dag.Count(s.failed, n) + Dag.Count(s.skipped, n) == 1)
      <==> (forall n :: Later(p, s.level, n) ==> n !in p.seeded)
  {
    hide Lands, Completes, Free, Dag.Count, Enabled, Apply, Starts, Knows;
    InvAlong(p, states, steps, i);
    var s := states[i];
    forall n | n in p.at
      ensures Dag.Count(s.completed, n) + Dag.Count(s.failed, n) + Dag.Count(s.skipped, n) ==
        if Later(p, s.level, n) && n in p.seeded then 2 else 1
    {
      assert Listed(p, s, n);
      if n in p.seeded { SeededLands(p, n); }
    }
  }

  /** Two levels, b after a, both completed by a prior pass. */
  const TwoLevels := Plan(map["a" := [], "b" := ["a"]], map["a" := 0, "b" := 1], map["a" := Succeeds, "b" := Succeeds], {"a", "b"})

  lemma TwoLevelsStart()
    ensures Layered(TwoLevels) && Starts(TwoLevels, State(["a", "b"], [], [], map["a" := Begin], 0, {}, Levels))
  {
    assert StartLevel(TwoLevels, 0) == map["a" := Begin];
    assert Dag.ElementsOf(["a", "b"]) == {"a", "b"};
  }

  lemma TwoLevelsCancel(s: State)
    requires Layered(TwoLevels) && s == State(["a", "b"], [], [], map["a" := Done], 0, {}, Levels)
    ensures Enabled(TwoLevels, s, Cancel(["b"]))
    ensures Apply(TwoLevels, s, Cancel(["b"])) == s.(skipped := ["b"], phase := Cancelled)
  {
    assert forall n :: n in ["b"] <==> Later(TwoLevels, 0, n);
  }

  /** Cancelled after the first level, the second is listed as completed and as skipped. */
  lemma CancelledTwice() returns (p: Plan, states: seq<State>, steps: seq<Step>)
    ensures Layered(p) && IsRun(p, states, steps) && |states| == 3 && states[2].phase.Cancelled?
    ensures "b" in states[2].completed && "b" in states[2].skipped
  {
    hide Layered, Starts;
    p := TwoLevels;
    TwoLevelsStart();
    var s0 := State(["a", "b"], [], [], map["a" := Begin], 0, {}, Levels);
    var s1 := s0.(pcs := map["a" := Done]);
    assert s0.completed[0] == "a";
    assert Enabled(p, s0, Look("a")) && Apply(p, s0, Look("a")) == s1;
    TwoLevelsCancel(s1);
    var s2 := s1.(skipped := ["b"], phase := Cancelled);
    hide Enabled, Apply;
    states, steps := [s0, s1, s2], [Look("a"), Cancel(["b"])];
    assert s2.completed[1] == "b" && s2.skipped[0] == "b";
  }

  /** b depends on a and was completed by a prior pass, which a was not; this pass runs a, and it fails. */
  const SeededAbove := Plan(map["a" := [], "b" := ["a"]], map["a" := 0, "b" := 1], map["a" := Fails, "b" := Succeeds], {"b"})

  /** The lists and the level under way, with one analyzer in it. */
  function At(failed: seq<string>, name: string, pc: Pc, level: nat, dispatched: set<string>, phase: Phase): State {
    State(["b"], failed, [], map[name := pc], level, dispatched, phase)
  }

  lemma SeededAboveStarts()
    ensures Layered(SeededAbove) && Starts(SeededAbove, At([], "a", Begin, 0, {}, Levels))
    ensures StartLevel(SeededAbove, 1) == map["b" := Begin]
  {
    assert StartLevel(SeededAbove, 0) == map["a" := Begin];
    assert Dag.ElementsOf(["b"]) == {"b"};
  }

  /** a is looked up, found free, run and failed. */
  lemma FirstFails()
    requires Layered(SeededAbove)
    ensures var p := SeededAbove;
      && Enabled(p, At([], "a", Begin, 0, {}, Levels), Look("a"))
      && Apply(p, At([], "a", Begin, 0, {}, Levels), Look("a")) == At([], "a", Looked, 0, {}, Levels)
      && Enabled(p, At([], "a", Looked, 0, {}, Levels), Get("a"))
      && Apply(p, At([], "a", Looked, 0, {}, Levels), Get("a")) == At([], "a", Checking(0), 0, {}, Levels)
  {
  }

  lemma FirstRuns()
    requires Layered(SeededAbove)
    ensures var p := SeededAbove;
      && Enabled(p, At([], "a", Checking(0), 0, {}, Levels), Check("a"))
      && Apply(p, At([], "a", Checking(0), 0, {}, Levels), Check("a")) == At([], "a", Running, 0, {"a"}, Levels)
      && Enabled(p, At([], "a", Running, 0, {"a"}, Levels), Finish("a"))
      && Apply(p, At([], "a", Running, 0, {"a"}, Levels), Finish("a")) == At(["a"], "a", Done, 0, {"a"}, Levels)
  {
  }

  /** b counts as completed, and the run ends. */
  lemma SecondIsSeeded()
    requires Layered(SeededAbove) && StartLevel(SeededAbove, 1) == map["b" := Begin]
    ensures var p := SeededAbove;
      && Enabled(p, At(["a"], "a", Done, 0, {"a"}, Levels), NextLevel)
      && Apply(p, At(["a"], "a", Done, 0, {"a"}, Levels), NextLevel) == At(["a"], "b", Begin, 1, {"a"}, Levels)
      && Enabled(p, At(["a"], "b", Begin, 1, {"a"}, Levels), Look("b"))
      && Apply(p, At(["a"], "b", Begin, 1, {"a"}, Levels), Look("b")) == At(["a"], "b", Done, 1, {"a"}, Levels)
      && Enabled(p, At(["a"], "b", Done, 1, {"a"}, Levels), Stop)
      && Apply(p, At(["a"], "b", Done, 1, {"a"}, Levels), Stop) == At(["a"], "b", Done, 1, {"a"}, Finished)
  {
    assert Later(SeededAbove, 0, "b");
    assert ["b"][0] == "b";
  }

  /** A finished run that lists an analyzer as completed and the one it depends on as failed. */
  lemma SeedHidesFailure() returns (p: Plan, states: seq<State>, steps: seq<Step>)
    ensures Layered(p) && IsRun(p, states, steps) && states[|steps|].phase.Finished?
    ensures "b" in p.edges && "a" in p.edges["b"] && "b" in states[|steps|].completed && "a" in states[|steps|].failed
  {
    p := SeededAbove;
    SeededAboveStarts();
    FirstFails();
    FirstRuns();
    SecondIsSeeded();
    hide Layered, Starts, Enabled, Apply, At, IsRun;
    states, steps := [At([], "a", Begin, 0, {}, Levels)], [];
    JustStarted(p, states[0]);
    states, steps := Extend(p, states, steps, Look("a"));
    states, steps := Extend(p, states, steps, Get("a"));
    states, steps := Extend(p, states, steps, Check("a"));
    states, steps := Extend(p, states, steps, Finish("a"));
    states, steps := Extend(p, states, steps, NextLevel);
    states, steps := Extend(p, states, steps, Look("b"));
    states, steps := Extend(p, states, steps, Stop);
    EndsFinished();
  }

  lemma JustStarted(p: Plan, s: State)
    requires Layered(p) && Starts(p, s)
    ensures IsRun(p, [s], [])
  {
  }

  lemma Extend(p: Plan, states: seq<State>, steps: seq<Step>, step: Step) returns (states': seq<State>, steps': seq<Step>)
    requires Layered(p) && IsRun(p, states, steps) && |states| == |steps| + 1 && Enabled(p, states[|steps|], step)
    ensures IsRun(p, states', steps') && |states'| == |steps'| + 1 && states'[|steps'|] == Apply(p, states[|steps|], step)
  {
    hide Apply, Enabled, Starts;
    states', steps' := states + [Apply(p, states[|steps|], step)], steps + [step];
    forall i | 0 <= i < |steps'| ensures Enabled(p, states'[i], steps'[i]) && states'[i + 1] == Apply(p, states'[i], steps'[i]) {
      if i < |steps| { assert Enabled(p, states[i], steps[i]) && states[i + 1] == Apply(p, states[i], steps[i]); }
    }
  }

  lemma EndsFinished()
    ensures var s := At(["a"], "b", Done, 1, {"a"}, Finished); s.phase.Finished? && "b" in s.completed && "a" in s.failed
  {
    assert ["b"][0] == "b" && ["a"][0] == "a";
  }

  // ---- the shared result ----

  /** executionState: the lists the analyzers of a level write under its lock. */
  class ExecutionState {
    var completed: seq<string>
    var failed: seq<string>
    var skipped: seq<string>

    constructor ()
      ensures completed == [] && failed == [] && skipped == []
    {
      completed, failed, skipped := [], [], [];
    }

    method Complete(name: string)
      modifies this
      ensures completed == old(completed) + [name] && failed == old(failed) && skipped == old(skipped)
    {
      completed := completed + [name];
    }

    method Fail(name: string)
      modifies this
      ensures completed == old(completed) && failed == old(failed) + [name] && skipped == old(skipped)
    {
      failed := failed + [name];
    }

    method SkipAnalyzer(name: string)
      modifies this
      ensures completed == old(completed) && failed == old(failed) && skipped == old(skipped) + [name]
    {
      skipped := skipped + [name];
    }

    /** executeAnalyzer, run alone: gated on the dependencies in the order they are listed, it puts the
        analyzer in the list the reference says. */
    method ExecuteAnalyzer(p: Plan, name: string)
      requires Layered(p) && name in p.at && (name in completed <==> name in p.seeded)
      requires forall d :: d in p.edges[name] ==> (d in completed <==> Completes(p, d))
      modifies this
      ensures completed == old(completed) + (if name !in p.seeded && Lands(p, name).Completed? then [name] else [])
      ensures failed == old(failed) + (if Lands(p, name).Failed? then [name] else [])
      ensures skipped == old(skipped) + (if Lands(p, name).Skipped? then [name] else [])
    {
      var already := IsCompleted(name);
      if already { return; }
      if p.own[name].Unregistered? {
        Fail(name);
        return;
      }
      var deps := p.edges[name];
      for k := 0 to |deps|
        invariant completed == old(completed) && failed == old(failed) && skipped == old(skipped)
        invariant forall j :: 0 <= j < k ==> Completes(p, deps[j])
      {
        var ready := IsCompleted(deps[k]);
        if !ready {
          assert deps[k] in p.edges[name];
          SkipAnalyzer(name);
          return;
        }
      }
      AllChecked(p, name);
      if p.own[name].Succeeds? { Complete(name); } else { Fail(name); }
    }

    /** The scan of the completed list. */
    method IsCompleted(name: string) returns (found: bool)
      ensures found <==> name in completed
    {
      for i := 0 to |completed|
        invariant name !in completed[..i]
      {
        if completed[i] == name { return true; }
      }
      return false;
    }
  }
}
