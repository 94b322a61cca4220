/** What the results of a collection say: over every run, each result is there for one event, and of the kind that the
    event calls for. And no task is forgotten while the collection is under way. */
module CollectorResults {
  import opened Collector

  // ---- the events that results are for ----

  /** Whether the step delivers such a message for an ID that is still pending. */
  predicate Delivers(s: State, step: Step, id: string, outcome: Outcome) {
    step == Deliver(id, outcome) && id in s.pending
  }

  /** The retryable errors that came for the ID while it was pending, before the i-th step. */
  function ErrorsBefore(states: seq<State>, steps: seq<Step>, i: nat, id: string): nat
    requires i <= |steps| < |states|
  {
    if i == 0 then 0
    else ErrorsBefore(states, steps, i - 1, id) + (if Delivers(states[i - 1], steps[i - 1], id, Retryable) then 1 else 0)
  }

  /** The i-th step is what a result of that kind for the ID is for. An answer is a success. No answer within max_tokens
      is final. A retryable error is final once MaxRetries of them came before it, or if there is no task to send again. */
  predicate CallsFor(states: seq<State>, steps: seq<Step>, i: nat, id: string, kind: ResultKind)
    requires i < |steps| < |states|
  {
    match kind
    case Success => Delivers(states[i], steps[i], id, Answered)
    case OutputTruncated => Delivers(states[i], steps[i], id, Truncated)
    case RetryExhausted => Delivers(states[i], steps[i], id, Retryable) && ErrorsBefore(states, steps, i, id) >= states[0].maxRetries
    case MissingTask =>
      Delivers(states[i], steps[i], id, Retryable) && ErrorsBefore(states, steps, i, id) < states[0].maxRetries && id !in states[0].known
    case RedispatchFailed => steps[i] == Republish(false) && states[i].holder == Checked(id)
  }

  function CallsBefore(states: seq<State>, steps: seq<Step>, i: nat, id: string, kind: ResultKind): nat
    requires i <= |steps| < |states|
  {
    if i == 0 then 0 else CallsBefore(states, steps, i - 1, id, kind) + (if CallsFor(states, steps, i - 1, id, kind) then 1 else 0)
  }

  /** The results of that kind for the ID, collected or in the channel. */
  function ResultsOf(s: State, id: string, kind: ResultKind): nat {
    multiset(s.results)[TaskResult(id, kind)] + multiset(s.buffer)[TaskResult(id, kind)]
  }

  /** A retry of the ID whose publish failed has not sent its result yet. */
  function Unsent(s: State, id: string, kind: ResultKind): nat {
    if kind.RedispatchFailed? && (s.holder == Failing(id) || s.holder == Gap(id)) then 1 else 0
  }

  // ---- one step ----

  /** What the handler makes of a message for a pending ID, by the retries it has counted. */
  predicate Resolves(s: State, step: Step, id: string, kind: ResultKind) {
    match kind
    case Success => Delivers(s, step, id, Answered)
    case OutputTruncated => Delivers(s, step, id, Truncated)
    case RetryExhausted => Delivers(s, step, id, Retryable) && CountOf(s.retryCounts, id) >= s.maxRetries
    case MissingTask => Delivers(s, step, id, Retryable) && CountOf(s.retryCounts, id) < s.maxRetries && id !in s.known
    case RedispatchFailed => step == Republish(false) && s.holder == Checked(id)
  }

  lemma MoreOf(rs: seq<TaskResult>, r: TaskResult, q: TaskResult)
    ensures multiset(rs + [r])[q] == multiset(rs)[q] + (if r == q then 1 else 0)
  {
  }

  lemma FirstOf(rs: seq<TaskResult>, q: TaskResult)
    requires rs != []
    ensures multiset(rs)[q] == multiset(rs[1..])[q] + (if rs[0] == q then 1 else 0)
  {
    assert rs == [rs[0]] + rs[1..];
  }

  /** What a message leaves of the fields the results depend on. */
  lemma DeliverFields(s: State, id: string, outcome: Outcome)
    ensures var s' := Apply(s, Deliver(id, outcome));
            && s'.results == s.results && s'.holder == s.holder && s'.maxRetries == s.maxRetries && s'.known == s.known && s'.ids == s.ids
            && s'.pending == (if KindFor(s, id, outcome).None? then s.pending else s.pending - {id})
            && s'.buffer == (if KindFor(s, id, outcome).None? then s.buffer else s.buffer + [TaskResult(id, KindFor(s, id, outcome).value)])
            && s'.retryCounts == (if Retries(s, id, outcome) then Bump(s.retryCounts, id) else s.retryCounts)
  {
    hide Bump, CountOf;
    ArriveFields(s, id, outcome);
    hide Arrive;
    HandleFields(Arrive(s, id, outcome), id, outcome);
    hide Handle;
  }

  datatype Option<T> = None | Some(value: T)

  /** The retries that a message has counted. */
  predicate Retries(s: State, id: string, outcome: Outcome) {
    id in s.pending && outcome.Retryable? && CountOf(s.retryCounts, id) < s.maxRetries
  }

  /** The kind of the result a message gives, if it gives one. */
  function KindFor(s: State, id: string, outcome: Outcome): Option<ResultKind> {
    if id !in s.pending then None
    else if outcome.Answered? then Some(Success)
    else if outcome.Truncated? then Some(OutputTruncated)
    else if CountOf(s.retryCounts, id) >= s.maxRetries then Some(RetryExhausted)
    else if id !in s.known then Some(MissingTask)
    else None
  }

  lemma ArriveFields(s: State, id: string, outcome: Outcome)
    ensures var a := Arrive(s, id, outcome);
            && a.results == s.results && a.holder == s.holder && a.maxRetries == s.maxRetries && a.known == s.known && a.ids == s.ids
            && a.pending == s.pending && a.buffer == s.buffer && a.retryCounts == s.retryCounts
  {
    hide Bump;
  }

  lemma ResolveFields(s: State, id: string, kind: ResultKind)
    ensures var a := Resolve(s, id, kind);
            && a.results == s.results && a.holder == s.holder && a.maxRetries == s.maxRetries && a.known == s.known && a.ids == s.ids
            && a.pending == s.pending - {id} && a.buffer == s.buffer + [TaskResult(id, kind)] && a.retryCounts == s.retryCounts
  {
  }

  lemma HandleFields(s: State, id: string, outcome: Outcome)
    ensures var s' := Handle(s, id, outcome);
            && s'.results == s.results && s'.holder == s.holder && s'.maxRetries == s.maxRetries && s'.known == s.known && s'.ids == s.ids
            && s'.pending == (if KindFor(s, id, outcome).None? then s.pending else s.pending - {id})
            && s'.buffer == (if KindFor(s, id, outcome).None? then s.buffer else s.buffer + [TaskResult(id, KindFor(s, id, outcome).value)])
            && s'.retryCounts == (if Retries(s, id, outcome) then Bump(s.retryCounts, id) else s.retryCounts)
  {
    hide Resolve, Bump, CountOf;
    ResolveFields(s, id, Success);
    ResolveFields(s, id, OutputTruncated);
    ResolveFields(s, id, RetryExhausted);
    ResolveFields(s.(retryCounts := Bump(s.retryCounts, id)), id, MissingTask);
  }

  lemma DeliverResults(s: State, other: string, outcome: Outcome, id: string, kind: ResultKind)
    ensures var step := Deliver(other, outcome);
            ResultsOf(Apply(s, step), id, kind) == ResultsOf(s, id, kind) + (if Resolves(s, step, id, kind) then 1 else 0)
            && Apply(s, step).holder == s.holder
  {
    DeliverFields(s, other, outcome);
    hide CountOf, Apply;
    if KindFor(s, other, outcome).Some? { MoreOf(s.buffer, TaskResult(other, KindFor(s, other, outcome).value), TaskResult(id, kind)); }
  }

  lemma TakeResults(s: State, id: string, kind: ResultKind)
    requires Enabled(s, Take)
    ensures ResultsOf(Apply(s, Take), id, kind) == ResultsOf(s, id, kind)
  {
    MoreOf(s.results, s.buffer[0], TaskResult(id, kind));
    FirstOf(s.buffer, TaskResult(id, kind));
  }

  lemma SendResults(s: State, id: string, kind: ResultKind)
    requires Enabled(s, SendFailure)
    ensures ResultsOf(Apply(s, SendFailure), id, kind) + Unsent(Apply(s, SendFailure), id, kind) == ResultsOf(s, id, kind) + Unsent(s, id, kind)
  {
    MoreOf(s.buffer, TaskResult(s.holder.id, RedispatchFailed), TaskResult(id, kind));
  }

  /** The other steps send and take nothing. */
  lemma RestFields(s: State, step: Step)
    requires Enabled(s, step) && !step.Deliver? && !step.Take? && !step.SendFailure?
    ensures var s' := Apply(s, step);
            && s'.results == s.results && s'.buffer == s.buffer && s'.retryCounts == s.retryCounts && s'.maxRetries == s.maxRetries
            && s'.known == s.known && s'.ids == s.ids && s'.pending <= s.pending
  {
    hide Handle, Arrive;
    match step
    case Dispatch(_) =>
    case Republish(_) =>
    case RetryAcquires(_) =>
    case _ =>
  }

  lemma RestHolder(s: State, step: Step)
    requires Enabled(s, step) && !step.Deliver? && !step.Take? && !step.SendFailure?
    ensures var s' := Apply(s, step);
            match step
            case RetryAcquires(id) => s.holder.Free? && (s'.holder.Free? || s'.holder == Checked(id))
            case Republish(succeeds) => s.holder.Checked? && s'.holder == (if succeeds then Free else Failing(s.holder.id))
            case RemovePending => s.holder.Failing? && s'.holder == Gap(s.holder.id)
            case _ => s'.holder == s.holder
  {
    hide Handle, Arrive;
    match step
    case Dispatch(_) =>
    case Republish(_) =>
    case RetryAcquires(_) =>
    case _ =>
  }

  lemma RestResults(s: State, step: Step, id: string, kind: ResultKind)
    requires Enabled(s, step) && !step.Deliver? && !step.Take? && !step.SendFailure?
    ensures Apply(s, step).results == s.results && Apply(s, step).buffer == s.buffer
    ensures Unsent(Apply(s, step), id, kind) == Unsent(s, id, kind) + (if Resolves(s, step, id, kind) then 1 else 0)
  {
    RestFields(s, step);
    RestHolder(s, step);
    hide Apply, CountOf;
  }

  /** Every step adds the results it calls for and no others. */
  lemma StepResults(s: State, step: Step, id: string, kind: ResultKind)
    requires Enabled(s, step)
    ensures var s' := Apply(s, step);
            ResultsOf(s', id, kind) + Unsent(s', id, kind) == ResultsOf(s, id, kind) + Unsent(s, id, kind) + (if Resolves(s, step, id, kind) then 1 else 0)
  {
    if step.Deliver? {
      DeliverResults(s, step.id, step.outcome, id, kind);
    } else if step.Take? {
      TakeResults(s, id, kind);
    } else if step.SendFailure? {
      SendResults(s, id, kind);
    } else {
      RestResults(s, step, id, kind);
    }
    hide Handle, Arrive, CountOf;
  }

  // ---- the retries counted are the errors that came ----

  lemma StepCounts(s: State, step: Step, id: string)
    requires Enabled(s, step) && id in Apply(s, step).pending
    ensures var s' := Apply(s, step);
            && id in s.pending
            && CountOf(s'.retryCounts, id) == CountOf(s.retryCounts, id) + (if Delivers(s, step, id, Retryable) then 1 else 0)
  {
    StepFields(s, step);
    hide Apply;
  }

  lemma StepFields(s: State, step: Step)
    requires Enabled(s, step)
    ensures var s' := Apply(s, step);
            && s'.maxRetries == s.maxRetries && s'.known == s.known && s'.ids == s.ids
            && (if step.Deliver? then
                  && s'.pending == (if KindFor(s, step.id, step.outcome).None? then s.pending else s.pending - {step.id})
                  && s'.retryCounts == (if Retries(s, step.id, step.outcome) then Bump(s.retryCounts, step.id) else s.retryCounts)
                else s'.pending <= s.pending && s'.retryCounts == s.retryCounts)
  {
    if step.Deliver? {
      DeliverFields(s, step.id, step.outcome);
      hide Apply, Bump, CountOf;
    } else if step.Take? || step.SendFailure? {
      hide Handle, Arrive;
    } else {
      RestFields(s, step);
      hide Apply;
    }
  }

  /** While an ID is pending, the retries counted for it are the errors that came for it. */
  lemma {:induction false} CountsAlong(states: seq<State>, steps: seq<Step>, i: nat, id: string)
    requires IsRun(states, steps) && i < |states|
    ensures states[i].maxRetries == states[0].maxRetries && states[i].known == states[0].known && states[i].ids == states[0].ids
    ensures id in states[i].pending ==> CountOf(states[i].retryCounts, id) == ErrorsBefore(states, steps, i, id)
  {
    hide Apply, Enabled, Delivers;
    if i > 0 {
      CountsAlong(states, steps, i - 1, id);
      assert Enabled(states[i - 1], steps[i - 1]) && states[i] == Apply(states[i - 1], steps[i - 1]);
      StepFields(states[i - 1], steps[i - 1]);
      if id in states[i].pending { StepCounts(states[i - 1], steps[i - 1], id); }
    }
  }

  lemma CallsAre(states: seq<State>, steps: seq<Step>, i: nat, id: string, kind: ResultKind)
    requires IsRun(states, steps) && i < |steps|
    ensures CallsFor(states, steps, i, id, kind) <==> Resolves(states[i], steps[i], id, kind)
  {
    CountsAlong(states, steps, i, id);
    hide IsRun, CountOf, ErrorsBefore;
  }

  /** The results of a run. At every moment and for every kind, the results for an ID are as many as the events that
      call for one, but for a failed redispatch whose result is not sent yet: an answer for a pending ID gives a success,
      and nothing else does; a truncated output gives that error at once; a retryable error gives an exhausted result
      exactly when MaxRetries errors came before it, and a missing task exactly when there is none to send again; and a
      failed redispatch gives its own. */
  lemma {:induction false} ResultsAreCalledFor(states: seq<State>, steps: seq<Step>, i: nat, id: string, kind: ResultKind)
    requires IsRun(states, steps) && i < |states|
    ensures ResultsOf(states[i], id, kind) + Unsent(states[i], id, kind) == CallsBefore(states, steps, i, id, kind)
  {
    hide Apply, Enabled, CallsFor, ResultsOf, Unsent;
    if i == 0 {
      NoneAtFirst(states, steps, id, kind);
    } else {
      ResultsAreCalledFor(states, steps, i - 1, id, kind);
      assert Enabled(states[i - 1], steps[i - 1]) && states[i] == Apply(states[i - 1], steps[i - 1]);
      StepResults(states[i - 1], steps[i - 1], id, kind);
      CallsAre(states, steps, i - 1, id, kind);
    }
  }

  lemma NoneAtFirst(states: seq<State>, steps: seq<Step>, id: string, kind: ResultKind)
    requires IsRun(states, steps)
    ensures ResultsOf(states[0], id, kind) == 0 && Unsent(states[0], id, kind) == 0
  {
  }

  // ---- no task is forgotten ----

  predicate Underway(phase: Phase) {
    phase.Dispatching? || phase.Awaiting? || phase.Draining?
  }

  /** A pending task is still to be dispatched, in flight, or waiting for or in the hands of a retry. */
  predicate Remembered(s: State, id: string) {
    && (s.phase.Dispatching? ==> s.phase.next <= |s.ids|)
    && (s.released <==> s.phase.Released? || s.phase.Ended?)
    && (Underway(s.phase) && id in s.pending ==> Tokens(s, id) >= 1)
  }

  /** What a message does to the wire and the timers. */
  lemma DeliverWires(s: State, id: string, outcome: Outcome)
    ensures var s' := Apply(s, Deliver(id, outcome));
            && s'.flight == s.flight - multiset{id} && s'.phase == s.phase && s'.released == s.released && s'.holder == s.holder && s'.ids == s.ids
            && s'.timers == (if Retries(s, id, outcome) && id in s.known then s.timers + multiset{id} else s.timers)
            && s'.pending == (if KindFor(s, id, outcome).None? then s.pending else s.pending - {id})
  {
    DeliverFields(s, id, outcome);
    DeliverEffect(s, id, outcome);
    DeliverTimers(s, id, outcome);
    hide Apply, CountOf, Bump;
  }

  lemma DeliverTimers(s: State, id: string, outcome: Outcome)
    ensures Apply(s, Deliver(id, outcome)).timers == (if Retries(s, id, outcome) && id in s.known then s.timers + multiset{id} else s.timers)
  {
    hide Bump, CountOf;
    assert Arrive(s, id, outcome).timers == s.timers;
    ArriveFields(s, id, outcome);
    hide Arrive;
    HandleTimers(Arrive(s, id, outcome), id, outcome);
  }

  lemma HandleTimers(s: State, id: string, outcome: Outcome)
    ensures Handle(s, id, outcome).timers == (if Retries(s, id, outcome) && id in s.known then s.timers + multiset{id} else s.timers)
  {
    hide Bump, CountOf;
  }

  lemma RememberedDeliver(s: State, other: string, outcome: Outcome, id: string)
    requires Remembered(s, id)
    ensures Remembered(Apply(s, Deliver(other, outcome)), id)
  {
    DeliverWires(s, other, outcome);
    hide Apply, CountOf, Occurrences;
  }

  lemma RememberedDispatch(s: State, succeeds: bool, id: string)
    requires Remembered(s, id) && Enabled(s, Dispatch(succeeds))
    ensures Remembered(Apply(s, Dispatch(succeeds)), id)
  {
    var n := s.phase.next;
    assert s.ids[..n + 1][..n] == s.ids[..n];
  }

  lemma RememberedRetry(s: State, step: Step, id: string)
    requires Remembered(s, id) && Enabled(s, step) && (step.RetryAcquires? || step.Republish? || step.RemovePending? || step.SendFailure?)
    ensures Remembered(Apply(s, step), id)
  {
    hide Occurrences, Handle, Arrive;
    match step
    case RetryAcquires(_) =>
    case Republish(_) =>
    case RemovePending =>
    case SendFailure =>
  }

  lemma RememberedRest(s: State, step: Step, id: string)
    requires Remembered(s, id) && Enabled(s, step) && !step.RetryExits? && !step.Deliver? && !step.Dispatch?
    requires !step.RetryAcquires? && !step.Republish? && !step.RemovePending? && !step.SendFailure?
    ensures Remembered(Apply(s, step), id)
  {
    hide Occurrences, Handle, Arrive;
    assert s.ids[..|s.ids|] == s.ids;
    var s' := Apply(s, step);
    assert s'.flight == s.flight && s'.timers == s.timers && s'.holder == s.holder && s'.ids == s.ids && s'.pending == s.pending;
  }

  lemma {:induction false} RememberedAlong(states: seq<State>, steps: seq<Step>, i: nat, id: string)
    requires IsRun(states, steps) && i < |states| && forall j :: 0 <= j < i ==> !steps[j].RetryExits?
    ensures Remembered(states[i], id)
  {
    hide Apply, Enabled, Remembered;
    if i == 0 {
      RememberedAtFirst(states, steps, id);
    } else {
      RememberedAlong(states, steps, i - 1, id);
      var s, step := states[i - 1], steps[i - 1];
      assert Enabled(s, step) && states[i] == Apply(s, step);
      match step
      case Deliver(other, outcome) => RememberedDeliver(s, other, outcome, id);
      case Dispatch(succeeds) => RememberedDispatch(s, succeeds, id);
      case RetryAcquires(_) => RememberedRetry(s, step, id);
      case Republish(_) => RememberedRetry(s, step, id);
      case RemovePending => RememberedRetry(s, step, id);
      case SendFailure => RememberedRetry(s, step, id);
      case _ => RememberedRest(s, step, id);
    }
  }

  lemma RememberedAtFirst(states: seq<State>, steps: seq<Step>, id: string)
    requires IsRun(states, steps)
    ensures Remembered(states[0], id)
  {
    var s := states[0];
    if id in s.pending { OccursIn(s.ids, id); }
  }

  lemma {:induction false} OccursIn(ids: seq<string>, id: string)
    requires id in ids
    ensures Occurrences(ids, id) >= 1
  {
    if ids[|ids| - 1] != id { OccursIn(ids[..|ids| - 1], id); }
  }

  /** No task is forgotten. While AwaitResults is under way and no retry was told to stop, every task without a result
      has a request out or a retry waiting or under way, whatever was answered, retried or failed to publish. */
  lemma NoTaskIsForgotten(states: seq<State>, steps: seq<Step>, i: nat, id: string)
    requires IsRun(states, steps) && i < |states| && (forall j :: 0 <= j < i ==> !steps[j].RetryExits?)
    requires (states[i].phase.Awaiting? || states[i].phase.Draining?) && id in states[i].pending
    ensures var s := states[i]; id in s.flight || id in s.timers || s.holder == Checked(id) || s.holder == Failing(id)
  {
    hide Apply, Enabled, Occurrences;
    RememberedAlong(states, steps, i, id);
    assert states[i].ids[..|states[i].ids|] == states[i].ids;
  }
}
