/** Two-phase collection as interleaved atomic steps: the result handler (under `mu`), the delayed
    retry goroutines (under `redispatchMu`), the monitor, the AwaitResults loop, and the release and
    abandon that end a collection. A retry's check of `released`, its publish, its removal of the task
    and its send are separate steps, as they are in the source. */
module Collector {

  /** What a result message says: an answer, an error worth a retry, or no answer within max_tokens. */
  datatype Outcome = Answered | Retryable | Truncated

  datatype ResultKind = Success | RetryExhausted | OutputTruncated | MissingTask | RedispatchFailed

  datatype TaskResult = TaskResult(id: string, kind: ResultKind)

  datatype Event = Publish(id: string) | Abandoned

  /** Who holds redispatchMu: nobody, a retry that found the collection not released, one whose publish
      failed, or one that has removed its task from pending and not yet sent the task's result. */
  datatype Holder = Free | Checked(id: string) | Failing(id: string) | Gap(id: string)

  datatype Phase =
    | Dispatching(next: nat)
    | Awaiting
    | Draining
    | Returned(complete: bool)
    | Released(complete: bool)
    | Ended(complete: bool)

  datatype State = State(
    ids: seq<string>,             // ExpectedIDs: the IDs of the dispatched tasks, in order
    known: set<string>,           // the IDs taskMap has a task for
    maxRetries: int,
    pending: set<string>,
    retryCounts: map<string, nat>,
    buffer: seq<TaskResult>,      // resultChan, of capacity |ids|
    timers: multiset<string>,     // retries waiting on their backoff
    holder: Holder,
    released: bool,
    done: bool,                   // doneChan is closed
    phase: Phase,
    results: seq<TaskResult>,
    // the world outside: requests published and not answered, everything published, retryable errors seen
    flight: multiset<string>,
    log: seq<Event>,
    errors: map<string, nat>)

  function CountOf(m: map<string, nat>, id: string): nat {
    if id in m then m[id] else 0
  }

  function Bump(m: map<string, nat>, id: string): map<string, nat> {
    m[id := CountOf(m, id) + 1]
  }

  function IdSet(ids: seq<string>): set<string> {
    set id | id in ids
  }

  /** PrepareCollect: the subscription is set up, nothing is dispatched yet. */
  function Prepared(ids: seq<string>, known: set<string>, maxRetries: int): State {
    State(ids, known, maxRetries, IdSet(ids), map[], [], multiset{}, Free, false, false, Dispatching(0), [], multiset{}, [], map[])
  }

  datatype Step =
    | Dispatch(succeeds: bool)
    | BeginAwait
    | Deliver(id: string, outcome: Outcome)
    | RetryAcquires(id: string)
    | RetryExits(id: string)
    | Republish(succeeds: bool)
    | RemovePending
    | SendFailure
    | Monitor
    | Take
    | GiveUp
    | SeeDone
    | Finish
    | Release
    | Abandon

  predicate Enabled(s: State, step: Step) {
    match step
    case Dispatch(_) => s.phase.Dispatching? && s.phase.next < |s.ids|
    case BeginAwait => s.phase == Dispatching(|s.ids|)
    case Deliver(_, _) => true
    case RetryAcquires(id) => id in s.timers && s.holder.Free?
    case RetryExits(id) => id in s.timers
    case Republish(_) => s.holder.Checked?
    case RemovePending => s.holder.Failing?
    case SendFailure => s.holder.Gap?
    case Monitor => s.phase.Awaiting? && s.pending == {}
    case Take => (s.phase.Awaiting? || s.phase.Draining?) && s.buffer != []
    case GiveUp => s.phase.Awaiting?
    case SeeDone => s.phase.Awaiting? && s.done
    case Finish => s.phase.Draining? && s.buffer == []
    case Release => s.phase.Returned? && s.holder.Free?
    case Abandon => s.phase.Released?
  }

  function Publishes(s: State, id: string): State {
    s.(log := s.log + [Publish(id)], flight := s.flight + multiset{id})
  }

  function Resolve(s: State, id: string, kind: ResultKind): State {
    s.(pending := s.pending - {id}, buffer := s.buffer + [TaskResult(id, kind)])
  }

  /** The result handler. */
  function Handle(s: State, id: string, outcome: Outcome): State {
    if id !in s.pending then s
    else if outcome.Answered? then Resolve(s, id, Success)
    else if outcome.Truncated? then Resolve(s, id, OutputTruncated)
    else if CountOf(s.retryCounts, id) < s.maxRetries then
      var counted := s.(retryCounts := Bump(s.retryCounts, id));
      if id in s.known then counted.(timers := s.timers + multiset{id}) else Resolve(counted, id, MissingTask)
    else Resolve(s, id, RetryExhausted)
  }

  /** The message leaves the wire, and a retryable error is counted. */
  function Arrive(s: State, id: string, outcome: Outcome): State {
    s.(flight := s.flight - multiset{id}, errors := if outcome.Retryable? then Bump(s.errors, id) else s.errors)
  }

  function Apply(s: State, step: Step): State
    requires Enabled(s, step)
  {
    match step
    case Dispatch(succeeds) =>
      if succeeds then Publishes(s, s.ids[s.phase.next]).(phase := Dispatching(s.phase.next + 1)) else s.(phase := Returned(false))
    case BeginAwait => s.(phase := Awaiting)
    case Deliver(id, outcome) => Handle(Arrive(s, id, outcome), id, outcome)
    case RetryAcquires(id) => s.(timers := s.timers - multiset{id}, holder := if s.released then Free else Checked(id))
    case RetryExits(id) => s.(timers := s.timers - multiset{id})
    case Republish(succeeds) => if succeeds then Publishes(s, s.holder.id).(holder := Free) else s.(holder := Failing(s.holder.id))
    case RemovePending => s.(pending := s.pending - {s.holder.id}, holder := Gap(s.holder.id))
    case SendFailure => s.(buffer := s.buffer + [TaskResult(s.holder.id, RedispatchFailed)], holder := Free)
    case Monitor => s.(done := true)
    case Take => s.(results := s.results + [s.buffer[0]], buffer := s.buffer[1..])
    case GiveUp => s.(phase := Returned(false))
    case SeeDone => s.(phase := Draining)
    case Finish => s.(phase := Returned(true))
    case Release => s.(released := true, phase := Released(s.phase.complete))
    case Abandon => s.(phase := Ended(s.phase.complete), log := if s.phase.complete then s.log else s.log + [Abandoned])
  }

  /** A message resolves its task, schedules a retry of it, or changes nothing but the wire. */
  lemma DeliverEffect(s: State, id: string, outcome: Outcome)
    ensures var s' := Apply(s, Deliver(id, outcome));
            && s' == s.(pending := s'.pending, retryCounts := s'.retryCounts, buffer := s'.buffer, timers := s'.timers,
                        flight := s.flight - multiset{id}, errors := s'.errors)
            && s'.errors == (if outcome.Retryable? then Bump(s.errors, id) else s.errors)
            && (s'.retryCounts == s.retryCounts ||
                (outcome.Retryable? && CountOf(s.retryCounts, id) < s.maxRetries && s'.retryCounts == Bump(s.retryCounts, id)))
            && (|| (s'.pending == s.pending && s'.buffer == s.buffer && s'.timers == s.timers)
                || (id in s.pending && s'.pending == s.pending - {id} && s'.timers == s.timers &&
                    exists kind :: s'.buffer == s.buffer + [TaskResult(id, kind)])
                || (s'.pending == s.pending && s'.buffer == s.buffer && s'.timers == s.timers + multiset{id} &&
                    s'.retryCounts == Bump(s.retryCounts, id)))
  {
    hide Handle, Bump, CountOf;
    HandleEffect(Arrive(s, id, outcome), id, outcome);
  }

  lemma HandleEffect(s: State, id: string, outcome: Outcome)
    ensures var s' := Handle(s, id, outcome);
            && s' == s.(pending := s'.pending, retryCounts := s'.retryCounts, buffer := s'.buffer, timers := s'.timers)
            && (s'.retryCounts == s.retryCounts ||
                (outcome.Retryable? && CountOf(s.retryCounts, id) < s.maxRetries && s'.retryCounts == Bump(s.retryCounts, id)))
            && (|| (s'.pending == s.pending && s'.buffer == s.buffer && s'.timers == s.timers)
                || (id in s.pending && s'.pending == s.pending - {id} && s'.timers == s.timers &&
                    exists kind :: s'.buffer == s.buffer + [TaskResult(id, kind)])
                || (s'.pending == s.pending && s'.buffer == s.buffer && s'.timers == s.timers + multiset{id} &&
                    s'.retryCounts == Bump(s.retryCounts, id)))
  {
    hide Bump, CountOf;
  }

  /** A run of one collection from PrepareCollect on. */
  ghost predicate IsRun(states: seq<State>, steps: seq<Step>) {
    && |states| == |steps| + 1
    && (exists ids, known, maxRetries :: states[0] == Prepared(ids, known, maxRetries))
    && forall i :: 0 <= i < |steps| ==> Enabled(states[i], steps[i]) && states[i + 1] == Apply(states[i], steps[i])
  }

  /** Each publish gets at most one reply: every message delivered answers a request in flight. */
  ghost predicate OneReply(states: seq<State>, steps: seq<Step>)
    requires |states| == |steps| + 1
  {
    forall i :: 0 <= i < |steps| && steps[i].Deliver? ==> steps[i].id in states[i].flight
  }

  predicate NoRedispatchFails(steps: seq<Step>) {
    forall i :: 0 <= i < |steps| ==> steps[i] != Republish(false)
  }

  // ---- abandon is the last word ----

  predicate Quiet(log: seq<Event>) {
    forall i :: 0 <= i < |log| ==> log[i].Publish?
  }

  /** The end of the log tells how the collection ended. */
  predicate EndOk(s: State) {
    && (s.released <==> s.phase.Released? || s.phase.Ended?)
    && (s.released ==> s.holder.Free?)
    && (if s.phase == Ended(false) then s.log != [] && s.log[|s.log| - 1].Abandoned? && Quiet(s.log[..|s.log| - 1]) else Quiet(s.log))
  }

  lemma EndKept(s: State, step: Step)
    requires EndOk(s) && Enabled(s, step)
    ensures EndOk(Apply(s, step))
  {
    hide Apply, Enabled, EndOk;
    match step
    case Deliver(id, outcome) => EndDeliver(s, id, outcome);
    case Dispatch(succeeds) => EndDispatch(s, succeeds);
    case Republish(succeeds) => EndRepublish(s, succeeds);
    case Abandon => EndAbandon(s);
    case _ => EndElse(s, step);
  }

  lemma EndDeliver(s: State, id: string, outcome: Outcome)
    requires EndOk(s) && Enabled(s, Deliver(id, outcome))
    ensures EndOk(Apply(s, Deliver(id, outcome)))
  {
    DeliverEffect(s, id, outcome);
    hide Quiet, Handle, Arrive;
  }

  lemma EndDispatch(s: State, succeeds: bool)
    requires EndOk(s) && Enabled(s, Dispatch(succeeds))
    ensures EndOk(Apply(s, Dispatch(succeeds)))
  {
    hide Quiet;
    QuietMore(s.log, s.ids[s.phase.next]);
  }

  lemma EndRepublish(s: State, succeeds: bool)
    requires EndOk(s) && Enabled(s, Republish(succeeds))
    ensures EndOk(Apply(s, Republish(succeeds)))
  {
    hide Quiet;
    QuietMore(s.log, s.holder.id);
  }

  lemma EndElse(s: State, step: Step)
    requires EndOk(s) && Enabled(s, step) && !step.Deliver? && !step.Dispatch? && !step.Republish? && !step.Abandon?
    ensures EndOk(Apply(s, step))
  {
    hide Quiet;
  }

  lemma EndAbandon(s: State)
    requires EndOk(s) && Enabled(s, Abandon)
    ensures EndOk(Apply(s, Abandon))
  {
    hide Quiet;
    assert (s.log + [Abandoned])[..|s.log|] == s.log;
  }

  lemma QuietMore(log: seq<Event>, id: string)
    ensures Quiet(log) ==> Quiet(log + [Publish(id)])
  {
  }

  lemma {:induction false} EndAlong(states: seq<State>, steps: seq<Step>, i: nat)
    requires IsRun(states, steps) && i < |states|
    ensures EndOk(states[i])
  {
    hide Apply, Enabled;
    if i > 0 {
      hide EndOk;
      EndAlong(states, steps, i - 1);
      EndKept(states[i - 1], steps[i - 1]);
    }
  }

  /** In every interleaving, nothing of a collection is published after its abandon message, and the
      message is there exactly when the collection has ended incomplete: once then, never otherwise.
      This includes a collection whose dispatch failed part way. */
  lemma AbandonIsLastWord(states: seq<State>, steps: seq<Step>, i: nat)
    requires IsRun(states, steps) && i < |states|
    ensures var log := states[i].log;
            && (forall j :: 0 <= j < |log| - 1 ==> !log[j].Abandoned?)
            && (log != [] && log[|log| - 1].Abandoned? <==> states[i].phase == Ended(false))
  {
    EndAlong(states, steps, i);
    var log := states[i].log;
    forall j | 0 <= j < |log| - 1 ensures !log[j].Abandoned? {
      assert log[..|log| - 1][j] == log[j];
    }
  }

  // ---- bounded retries ----

  function Published(log: seq<Event>, id: string): nat {
    if log == [] then 0 else Published(log[..|log| - 1], id) + (if log[|log| - 1] == Publish(id) then 1 else 0)
  }

  function Occurrences(ids: seq<string>, id: string): nat {
    if ids == [] then 0 else Occurrences(ids[..|ids| - 1], id) + (if ids[|ids| - 1] == id then 1 else 0)
  }

  lemma PublishedMore(log: seq<Event>, e: Event, id: string)
    ensures Published(log + [e], id) == Published(log, id) + (if e == Publish(id) then 1 else 0)
  {
    assert (log + [e])[..|log|] == log;
  }

  lemma OccurrencesMore(ids: seq<string>, n: nat, id: string)
    requires n < |ids|
    ensures Occurrences(ids[..n + 1], id) == Occurrences(ids[..n], id) + (if ids[n] == id then 1 else 0)
  {
    assert ids[..n + 1][..n] == ids[..n];
  }

  lemma {:induction false} OccurrencesPrefix(ids: seq<string>, n: nat, id: string)
    requires n <= |ids|
    ensures Occurrences(ids[..n], id) <= Occurrences(ids, id)
    decreases |ids| - n
  {
    if n < |ids| {
      OccurrencesMore(ids, n, id);
      OccurrencesPrefix(ids, n + 1, id);
    } else {
      assert ids[..n] == ids;
    }
  }

  /** How many of the initial publishes have been made: the ones that failed were not. */
  function Sent(s: State): nat {
    if s.phase.Dispatching? && s.phase.next <= |s.ids| then s.phase.next else |s.ids|
  }

  function Holds(h: Holder, id: string): nat {
    if h == Checked(id) then 1 else 0
  }

  /** The publishes of a task, and the retries of it still to come, are paid for by its dispatch and by
      its counted retries, each of which answers a retryable error. */
  predicate RetriesOk(s: State, id: string) {
    && (s.phase.Dispatching? ==> s.phase.next <= |s.ids|)
    && Published(s.log, id) + s.timers[id] + Holds(s.holder, id) <= Occurrences(s.ids[..Sent(s)], id) + CountOf(s.retryCounts, id)
    && CountOf(s.retryCounts, id) <= CountOf(s.errors, id)
    && (CountOf(s.retryCounts, id) <= s.maxRetries || CountOf(s.retryCounts, id) == 0)
  }

  lemma RetriesDeliver(s: State, other: string, outcome: Outcome, id: string)
    requires RetriesOk(s, id)
    ensures RetriesOk(Apply(s, Deliver(other, outcome)), id)
  {
    DeliverEffect(s, other, outcome);
    hide Apply, Published, Occurrences;
  }

  lemma RetriesDispatch(s: State, succeeds: bool, id: string)
    requires RetriesOk(s, id) && Enabled(s, Dispatch(succeeds))
    ensures RetriesOk(Apply(s, Dispatch(succeeds)), id)
  {
    hide Published, Occurrences;
    OccurrencesMore(s.ids, s.phase.next, id);
    OccurrencesPrefix(s.ids, s.phase.next, id);
    assert s.ids[..|s.ids|] == s.ids;
    PublishedMore(s.log, Publish(s.ids[s.phase.next]), id);
  }

  lemma RetriesKept(s: State, step: Step, id: string)
    requires RetriesOk(s, id) && Enabled(s, step)
    ensures RetriesOk(Apply(s, step), id)
  {
    hide Apply, Enabled, RetriesOk;
    match step
    case Deliver(other, outcome) => RetriesDeliver(s, other, outcome, id);
    case Dispatch(succeeds) => RetriesDispatch(s, succeeds, id);
    case Republish(succeeds) => RetriesRepublish(s, succeeds, id);
    case Abandon => RetriesAbandon(s, id);
    case BeginAwait => RetriesAwait(s, id);
    case _ => RetriesElse(s, step, id);
  }

  lemma RetriesAbandon(s: State, id: string)
    requires RetriesOk(s, id) && Enabled(s, Abandon)
    ensures RetriesOk(Apply(s, Abandon), id)
  {
    hide Published, Occurrences;
    PublishedMore(s.log, Abandoned, id);
  }

  lemma RetriesAwait(s: State, id: string)
    requires RetriesOk(s, id) && Enabled(s, BeginAwait)
    ensures RetriesOk(Apply(s, BeginAwait), id)
  {
    hide Published, Occurrences;
    assert s.ids[..|s.ids|] == s.ids;
  }

  lemma RetriesElse(s: State, step: Step, id: string)
    requires RetriesOk(s, id) && Enabled(s, step)
    requires !step.Deliver? && !step.Dispatch? && !step.Republish? && !step.Abandon? && !step.BeginAwait?
    ensures RetriesOk(Apply(s, step), id)
  {
    RetriesElseEffect(s, step, id);
    hide Published, Occurrences, Apply, CountOf, Holds, Sent, Enabled;
  }

  lemma RetriesElseEffect(s: State, step: Step, id: string)
    requires Enabled(s, step) && !step.Deliver? && !step.Dispatch? && !step.Republish? && !step.Abandon? && !step.BeginAwait?
    ensures var s' := Apply(s, step);
            && s'.log == s.log && s'.retryCounts == s.retryCounts && s'.errors == s.errors && s'.ids == s.ids && s'.maxRetries == s.maxRetries
            && Sent(s') == Sent(s) && (s'.phase.Dispatching? ==> s'.phase == s.phase)
            && s'.timers[id] + Holds(s'.holder, id) <= s.timers[id] + Holds(s.holder, id)
  {
    hide Handle, Arrive;
    match step
    case RetryAcquires(_) =>
    case RetryExits(_) =>
    case _ =>
  }

  lemma RetriesRepublish(s: State, succeeds: bool, id: string)
    requires RetriesOk(s, id) && Enabled(s, Republish(succeeds))
    ensures RetriesOk(Apply(s, Republish(succeeds)), id)
  {
    hide Published, Occurrences;
    PublishedMore(s.log, Publish(s.holder.id), id);
  }

  lemma {:induction false} RetriesAlong(states: seq<State>, steps: seq<Step>, i: nat, id: string)
    requires IsRun(states, steps) && i < |states|
    ensures RetriesOk(states[i], id)
  {
    hide Apply, Enabled;
    if i > 0 {
      hide RetriesOk;
      RetriesAlong(states, steps, i - 1, id);
      RetriesKept(states[i - 1], steps[i - 1], id);
    }
  }

  /** Whatever messages arrive, a task is published at most once per dispatch of it plus MaxRetries
      times, and no more often than once per dispatch plus once per retryable error: a truncated
      output never triggers a redispatch. */
  lemma RetriesAreBounded(states: seq<State>, steps: seq<Step>, i: nat, id: string)
    requires IsRun(states, steps) && i < |states|
    ensures var s := states[i];
            && Published(s.log, id) <= Occurrences(s.ids, id) + (if s.maxRetries > 0 then s.maxRetries else 0)
            && Published(s.log, id) <= Occurrences(s.ids, id) + CountOf(s.errors, id)
  {
    RetriesAlong(states, steps, i, id);
    OccurrencesPrefix(states[i].ids, Sent(states[i]), id);
  }

  // ---- no send blocks ----

  /** Every dispatched request is in at most one place: in flight, waiting to be retried, or resolved. */
  predicate RoomOk(s: State) {
    && (s.phase.Dispatching? ==> s.phase.next <= |s.ids|)
    && |s.flight| + |s.timers| + (if s.holder.Free? then 0 else 1) + |s.buffer| + |s.results| <= Sent(s)
  }

  lemma RoomDeliver(s: State, id: string, outcome: Outcome)
    requires RoomOk(s) && id in s.flight
    ensures RoomOk(Apply(s, Deliver(id, outcome)))
  {
    DeliverEffect(s, id, outcome);
    assert |s.flight - multiset{id}| == |s.flight| - 1;
    hide Apply;
  }

  lemma RoomRetry(s: State, step: Step, id: string)
    requires RoomOk(s) && Enabled(s, step) && (step == RetryAcquires(id) || step == RetryExits(id))
    ensures RoomOk(Apply(s, step))
  {
    assert |s.timers - multiset{id}| == |s.timers| - 1;
  }

  lemma RoomKept(s: State, step: Step)
    requires RoomOk(s) && Enabled(s, step) && (step.Deliver? ==> step.id in s.flight)
    ensures RoomOk(Apply(s, step))
  {
    hide Handle, Arrive;
    match step
    case Deliver(id, outcome) => RoomDeliver(s, id, outcome);
    case RetryAcquires(id) => RoomRetry(s, step, id);
    case RetryExits(id) => RoomRetry(s, step, id);
    case _ =>
  }

  /** When each publish gets at most one reply, resultChan never holds more than its capacity, so no
      send on it blocks: neither the handler's, made under mu, nor a retry's, made under redispatchMu. */
  lemma {:induction false} NoSendBlocks(states: seq<State>, steps: seq<Step>, i: nat)
    requires IsRun(states, steps) && OneReply(states, steps) && i < |states|
    ensures |states[i].buffer| <= |states[i].ids|
    ensures RoomOk(states[i])
  {
    if i > 0 {
      NoSendBlocks(states, steps, i - 1);
      RoomKept(states[i - 1], steps[i - 1]);
    }
  }

  // ---- one result per task ----

  function Results(rs: seq<TaskResult>, id: string): nat {
    if rs == [] then 0 else Results(rs[..|rs| - 1], id) + (if rs[|rs| - 1].id == id then 1 else 0)
  }

  lemma ResultsMore(rs: seq<TaskResult>, r: TaskResult, id: string)
    ensures Results(rs + [r], id) == Results(rs, id) + (if r.id == id then 1 else 0)
  {
    assert (rs + [r])[..|rs|] == rs;
  }

  lemma {:induction false} ResultsFirst(rs: seq<TaskResult>, id: string)
    requires rs != []
    ensures Results(rs, id) == Results(rs[1..], id) + (if rs[0].id == id then 1 else 0)
  {
    if |rs| > 1 {
      var last := |rs| - 1;
      ResultsFirst(rs[..last], id);
      assert rs[..last][1..] == rs[1..][..last - 1];
    }
  }

  function InGap(h: Holder, id: string): nat {
    if h == Gap(id) then 1 else 0
  }

  /** How often a task is accounted for: pending, collected, buffered, or removed and about to be sent. */
  function Tally(s: State, id: string): nat {
    (if id in s.pending then 1 else 0) + Results(s.results, id) + Results(s.buffer, id) + InGap(s.holder, id)
  }

  /** A task is pending, or has exactly one result: collected, buffered, or removed and about to be sent. */
  predicate ConservedOk(s: State, id: string) {
    Tally(s, id) == 1
  }

  lemma TakeTally(s: State, id: string)
    requires Enabled(s, Take)
    ensures Tally(Apply(s, Take), id) == Tally(s, id)
  {
    hide Results;
    ResultsFirst(s.buffer, id);
    ResultsMore(s.results, s.buffer[0], id);
  }

  lemma DeliverTally(s: State, other: string, outcome: Outcome, id: string)
    ensures Tally(Apply(s, Deliver(other, outcome)), id) == Tally(s, id)
  {
    var s' := Apply(s, Deliver(other, outcome));
    DeliverEffect(s, other, outcome);
    hide Apply, Results;
    if s'.pending != s.pending {
      var kind :| s'.buffer == s.buffer + [TaskResult(other, kind)];
      ResultsMore(s.buffer, TaskResult(other, kind), id);
    }
  }

  /** The step removes a task that is not pending any more: its failure will be sent on top of its result. */
  predicate Surplus(s: State, step: Step, id: string) {
    step.RemovePending? && s.holder == Failing(id) && id !in s.pending
  }

  /** Every step keeps a task's tally, but for the removal of a task that is no longer pending. */
  lemma StepTally(s: State, step: Step, id: string)
    requires Enabled(s, step)
    ensures Tally(Apply(s, step), id) == Tally(s, id) + (if Surplus(s, step, id) then 1 else 0)
  {
    hide Apply, Enabled, Tally;
    match step
    case Take => TakeTally(s, id);
    case Deliver(other, outcome) => DeliverTally(s, other, outcome, id);
    case SendFailure => SendTally(s, id);
    case RemovePending => RemoveTally(s, id);
    case _ => ElseTally(s, step, id);
  }

  lemma SendTally(s: State, id: string)
    requires Enabled(s, SendFailure)
    ensures Tally(Apply(s, SendFailure), id) == Tally(s, id)
  {
    hide Results;
    ResultsMore(s.buffer, TaskResult(s.holder.id, RedispatchFailed), id);
  }

  lemma RemoveTally(s: State, id: string)
    requires Enabled(s, RemovePending)
    ensures Tally(Apply(s, RemovePending), id) == Tally(s, id) + (if Surplus(s, RemovePending, id) then 1 else 0)
  {
    hide Results;
  }

  lemma ElseTally(s: State, step: Step, id: string)
    requires Enabled(s, step) && !step.Take? && !step.Deliver? && !step.SendFailure? && !step.RemovePending?
    ensures Tally(Apply(s, step), id) == Tally(s, id)
  {
    ElseEffect(s, step, id);
    hide Results, Apply, InGap;
  }

  /** The other steps touch neither pending nor the results. */
  lemma ElseEffect(s: State, step: Step, id: string)
    requires Enabled(s, step) && !step.Take? && !step.Deliver? && !step.SendFailure? && !step.RemovePending?
    ensures var s' := Apply(s, step);
            s'.pending == s.pending && s'.results == s.results && s'.buffer == s.buffer && InGap(s'.holder, id) == InGap(s.holder, id)
  {
    hide Handle, Arrive;
    match step
    case Dispatch(_) =>
    case Republish(_) =>
    case RetryAcquires(_) =>
    case _ =>
  }

  /** The requests of a task that may still bring it a result or a retry. */
  function Tokens(s: State, id: string): int {
    s.flight[id] + s.timers[id] + (if s.holder == Checked(id) || s.holder == Failing(id) then 1 else 0) +
    Occurrences(s.ids, id) - Occurrences(s.ids[..Sent(s)], id)
  }

  /** A task dispatched once has at most one request out, and none once it is resolved. */
  predicate TokenOk(s: State, id: string) {
    && (s.phase.Dispatching? ==> s.phase.next <= |s.ids|)
    && Tokens(s, id) <= (if id in s.pending then 1 else 0)
  }

  lemma TokenDeliver(s: State, other: string, outcome: Outcome, id: string)
    requires TokenOk(s, id) && other in s.flight
    requires Occurrences(s.ids[..Sent(s)], id) <= Occurrences(s.ids, id)
    ensures TokenOk(Apply(s, Deliver(other, outcome)), id)
  {
    DeliverEffect(s, other, outcome);
    hide Apply, Occurrences;
  }

  lemma TokenDispatch(s: State, succeeds: bool, id: string)
    requires TokenOk(s, id) && Enabled(s, Dispatch(succeeds))
    ensures TokenOk(Apply(s, Dispatch(succeeds)), id)
  {
    hide Occurrences;
    OccurrencesMore(s.ids, s.phase.next, id);
    OccurrencesPrefix(s.ids, s.phase.next, id);
    assert s.ids[..|s.ids|] == s.ids;
  }

  lemma TokenKept(s: State, step: Step, id: string)
    requires TokenOk(s, id) && Enabled(s, step) && (step.Deliver? ==> step.id in s.flight)
    ensures TokenOk(Apply(s, step), id)
  {
    hide Occurrences, Handle, Arrive;
    OccurrencesPrefix(s.ids, Sent(s), id);
    match step
    case Deliver(other, outcome) => TokenDeliver(s, other, outcome, id);
    case Dispatch(succeeds) => TokenDispatch(s, succeeds, id);
    case BeginAwait => assert s.ids[..|s.ids|] == s.ids;
    case Republish(succeeds) => TokenRepublish(s, succeeds, id);
    case RemovePending => TokenRemove(s, id);
    case _ => TokenElse(s, step, id);
  }

  lemma TokenElse(s: State, step: Step, id: string)
    requires TokenOk(s, id) && Enabled(s, step)
    requires !step.Deliver? && !step.Dispatch? && !step.Republish? && !step.RemovePending? && !step.BeginAwait?
    ensures TokenOk(Apply(s, step), id)
  {
    hide Occurrences;
    var s' := Apply(s, step);
    assert s'.flight == s.flight && s'.pending == s.pending && Sent(s') == Sent(s);
  }

  lemma TokenRepublish(s: State, succeeds: bool, id: string)
    requires TokenOk(s, id) && Enabled(s, Republish(succeeds))
    ensures TokenOk(Apply(s, Republish(succeeds)), id)
  {
    hide Occurrences;
  }

  lemma TokenRemove(s: State, id: string)
    requires TokenOk(s, id) && Enabled(s, RemovePending) && Occurrences(s.ids[..Sent(s)], id) <= Occurrences(s.ids, id)
    ensures TokenOk(Apply(s, RemovePending), id)
  {
    hide Occurrences;
  }

  /** What every run keeps about one of its tasks. */
  predicate TaskOk(s: State, id: string, fails: bool) {
    && ConservedOk(s, id)
    && (if fails then TokenOk(s, id) else !s.holder.Failing? && !s.holder.Gap?)
    && (s.done ==> s.pending == {})
    && (s.phase.Draining? || s.phase == Returned(true) || s.phase == Released(true) || s.phase == Ended(true) ==> s.done)
  }

  lemma TaskKept(s: State, step: Step, id: string, fails: bool)
    requires TaskOk(s, id, fails) && Enabled(s, step)
    requires if fails then step.Deliver? ==> step.id in s.flight else step != Republish(false)
    ensures TaskOk(Apply(s, step), id, fails)
  {
    hide Apply, ConservedOk, TokenOk;
    ConservedKept(s, step, id, fails);
    if fails { TokenKept(s, step, id); } else { HolderKept(s, step); }
    DoneKept(s, step);
  }

  lemma ConservedKept(s: State, step: Step, id: string, fails: bool)
    requires ConservedOk(s, id) && Enabled(s, step) && (if fails then TokenOk(s, id) else !s.holder.Failing? && !s.holder.Gap?)
    ensures ConservedOk(Apply(s, step), id)
  {
    hide Apply, Tally;
    StepTally(s, step, id);
    if step.RemovePending? && fails && s.holder.id == id { OccurrencesPrefix(s.ids, Sent(s), id); }
  }

  lemma HolderKept(s: State, step: Step)
    requires Enabled(s, step) && !s.holder.Failing? && !s.holder.Gap? && step != Republish(false)
    ensures !Apply(s, step).holder.Failing? && !Apply(s, step).holder.Gap?
  {
    if step.Deliver? { DeliverEffect(s, step.id, step.outcome); }
    hide Handle, Arrive;
  }

  lemma DoneKept(s: State, step: Step)
    requires Enabled(s, step) && (s.done ==> s.pending == {})
    requires s.phase.Draining? || s.phase == Returned(true) || s.phase == Released(true) || s.phase == Ended(true) ==> s.done
    ensures var s' := Apply(s, step);
            && (s'.done ==> s'.pending == {})
            && (s'.phase.Draining? || s'.phase == Returned(true) || s'.phase == Released(true) || s'.phase == Ended(true) ==> s'.done)
  {
    if step.Deliver? { DeliverEffect(s, step.id, step.outcome); }
    hide Handle, Arrive;
  }

  lemma TaskInitially(ids: seq<string>, known: set<string>, maxRetries: int, id: string, fails: bool)
    requires id in ids && (fails ==> Occurrences(ids, id) == 1)
    ensures TaskOk(Prepared(ids, known, maxRetries), id, fails)
  {
    assert ids[..0] == [];
  }

  lemma {:induction false} TaskAlong(states: seq<State>, steps: seq<Step>, i: nat, id: string, fails: bool)
    requires IsRun(states, steps) && i < |states| && id in states[0].ids
    requires if fails then OneReply(states, steps) && Occurrences(states[0].ids, id) == 1 else NoRedispatchFails(steps)
    ensures TaskOk(states[i], id, fails) && states[i].ids == states[0].ids
  {
    hide TaskOk, Apply, Enabled, Occurrences;
    if i > 0 {
      TaskAlong(states, steps, i - 1, id, fails);
      TaskKept(states[i - 1], steps[i - 1], id, fails);
      IdsKept(states[i - 1], steps[i - 1]);
    } else {
      var ids, known, maxRetries :| states[0] == Prepared(ids, known, maxRetries);
      TaskInitially(ids, known, maxRetries, id, fails);
    }
  }

  lemma IdsKept(s: State, step: Step)
    requires Enabled(s, step)
    ensures Apply(s, step).ids == s.ids
  {
    if step.Deliver? { DeliverEffect(s, step.id, step.outcome); }
    hide Handle, Arrive;
  }

  predicate Complete(phase: Phase) {
    phase == Returned(true) || phase == Released(true) || phase == Ended(true)
  }

  /** How many of the first i steps were of that kind. */
  function Surpluses(states: seq<State>, steps: seq<Step>, i: nat, id: string): nat
    requires i <= |steps| < |states|
  {
    if i == 0 then 0 else Surpluses(states, steps, i - 1, id) + (if Surplus(states[i - 1], steps[i - 1], id) then 1 else 0)
  }

  lemma {:induction false} TallyAlong(states: seq<State>, steps: seq<Step>, i: nat, id: string)
    requires IsRun(states, steps) && i <= |steps|
    ensures Tally(states[i], id) == (if id in states[0].ids then 1 else 0) + Surpluses(states, steps, i, id)
  {
    hide Apply, Enabled, Surplus, Tally;
    if i > 0 {
      TallyAlong(states, steps, i - 1, id);
      StepTally(states[i - 1], steps[i - 1], id);
    } else {
      var ids, known, maxRetries :| states[0] == Prepared(ids, known, maxRetries);
      TallyAtFirst(ids, known, maxRetries, id);
    }
  }

  lemma TallyAtFirst(ids: seq<string>, known: set<string>, maxRetries: int, id: string)
    ensures Tally(Prepared(ids, known, maxRetries), id) == if id in ids then 1 else 0
  {
  }

  /** Done means that nothing is pending, and draining means done. */
  predicate DoneOk(s: State) {
    && (s.done ==> s.pending == {})
    && (s.phase.Draining? || Complete(s.phase) ==> s.done)
  }

  lemma {:induction false} DoneAlong(states: seq<State>, steps: seq<Step>, i: nat)
    requires IsRun(states, steps) && i < |states|
    ensures DoneOk(states[i])
  {
    hide Apply, Enabled;
    if i > 0 {
      DoneAlong(states, steps, i - 1);
      DoneKept(states[i - 1], steps[i - 1]);
    }
  }

  /** The moment AwaitResults returns complete, whatever was expected, answered, retried and failed before: it
      has one result for an expected ID and none for another, less one if a retry of it has removed it and not
      yet sent its result, plus one for every retry that failed to publish after the ID was resolved. */
  lemma CompleteCounts(states: seq<State>, steps: seq<Step>, i: nat, id: string)
    requires IsRun(states, steps) && i < |steps| && steps[i] == Finish
    ensures Results(states[i + 1].results, id) + InGap(states[i].holder, id) ==
      (if id in states[0].ids then 1 else 0) + Surpluses(states, steps, i, id)
  {
    hide Results, Surplus, Surpluses;
    TallyAlong(states, steps, i, id);
    DoneAlong(states, steps, i);
    assert Enabled(states[i], steps[i]) && states[i + 1] == Apply(states[i], steps[i]);
    NoneEmpty(id);
  }

  lemma NoneEmpty(id: string)
    ensures Results([], id) == 0
  {
  }

  /** The moment AwaitResults returns complete: a task dispatched once has its one result, unless a retry
      of it whose publish failed has removed it from pending and not yet sent its result. */
  lemma CompleteUnlessGap(states: seq<State>, steps: seq<Step>, i: nat, id: string)
    requires IsRun(states, steps) && OneReply(states, steps) && i < |steps| && steps[i] == Finish
    requires Occurrences(states[0].ids, id) == 1 && id in states[0].ids
    ensures Results(states[i + 1].results, id) == (if states[i].holder == Gap(id) then 0 else 1)
  {
    TaskAlong(states, steps, i, id, true);
  }

  /** With no failing redispatch, nothing arrives after a complete return. */
  lemma {:induction false} NothingAfterComplete(states: seq<State>, steps: seq<Step>, i: nat, id: string)
    requires IsRun(states, steps) && NoRedispatchFails(steps) && i < |states| && id in states[0].ids
    ensures Complete(states[i].phase) ==> states[i].buffer == []
  {
    hide Apply, Enabled, Complete, TaskOk;
    if i > 0 {
      NothingAfterComplete(states, steps, i - 1, id);
      TaskAlong(states, steps, i - 1, id, false);
      StaysEmpty(states[i - 1], steps[i - 1], id);
    } else {
      assert Complete(states[0].phase) == false by { NotCompleteAtFirst(states[0]); }
    }
  }

  lemma NotCompleteAtFirst(s: State)
    requires exists ids, known, maxRetries :: s == Prepared(ids, known, maxRetries)
    ensures !Complete(s.phase)
  {
  }

  lemma StaysEmpty(s: State, step: Step, id: string)
    requires Enabled(s, step) && TaskOk(s, id, false) && (Complete(s.phase) ==> s.buffer == [])
    ensures Complete(Apply(s, step).phase) ==> Apply(s, step).buffer == []
  {
    hide Handle, Arrive, ConservedOk;
    if step.Deliver? { DeliverEffect(s, step.id, step.outcome); }
  }

  /** An ID that was not expected is never pending, retried or resolved. */
  predicate StrangerOk(s: State, id: string) {
    && id !in s.pending && s.timers[id] == 0 && Results(s.buffer, id) == 0 && Results(s.results, id) == 0
    && (s.holder.Free? || s.holder.id != id)
  }

  lemma StrangerDeliver(s: State, other: string, outcome: Outcome, id: string)
    requires StrangerOk(s, id)
    ensures StrangerOk(Apply(s, Deliver(other, outcome)), id)
  {
    var s' := Apply(s, Deliver(other, outcome));
    DeliverEffect(s, other, outcome);
    if s'.pending != s.pending {
      var kind :| s'.buffer == s.buffer + [TaskResult(other, kind)];
      ResultsMore(s.buffer, TaskResult(other, kind), id);
    }
    hide Results, CountOf, Bump;
  }

  lemma StrangerKept(s: State, step: Step, id: string)
    requires StrangerOk(s, id) && Enabled(s, step)
    ensures StrangerOk(Apply(s, step), id)
  {
    hide Handle, Arrive, Results;
    match step
    case Deliver(other, outcome) => StrangerDeliver(s, other, outcome, id);
    case Take => ResultsFirst(s.buffer, id); ResultsMore(s.results, s.buffer[0], id);
    case SendFailure => ResultsMore(s.buffer, TaskResult(s.holder.id, RedispatchFailed), id);
    case _ =>
  }

  lemma {:induction false} StrangerAlong(states: seq<State>, steps: seq<Step>, i: nat, id: string)
    requires IsRun(states, steps) && i < |states| && id !in states[0].ids
    ensures StrangerOk(states[i], id)
  {
    hide Apply, Enabled;
    if i > 0 {
      StrangerAlong(states, steps, i - 1, id);
      hide StrangerOk;
      StrangerKept(states[i - 1], steps[i - 1], id);
    }
  }

  /** One-to-one collection. If no redispatch publish fails, a complete AwaitResults returns exactly one
      result for every distinct expected ID and none for any other, whatever messages arrive. */
  lemma OneToOne(states: seq<State>, steps: seq<Step>, i: nat, id: string)
    requires IsRun(states, steps) && NoRedispatchFails(steps) && i < |states| && Complete(states[i].phase)
    ensures Results(states[i].results, id) == (if id in states[0].ids then 1 else 0)
  {
    if id in states[0].ids {
      TaskAlong(states, steps, i, id, false);
      NothingAfterComplete(states, steps, i, id);
    } else {
      StrangerAlong(states, steps, i, id);
    }
  }

  lemma Extend(states: seq<State>, steps: seq<Step>, step: Step) returns (states': seq<State>, steps': seq<Step>)
    requires IsRun(states, steps) && OneReply(states, steps) && Enabled(states[|steps|], step)
    requires step.Deliver? ==> step.id in states[|steps|].flight
    ensures IsRun(states', steps') && OneReply(states', steps')
    ensures |steps'| == |steps| + 1 && |states'| == |steps'| + 1 && states'[|steps'|] == Apply(states[|steps|], step) && states'[0] == states[0]
  {
    hide Apply, Enabled;
    states', steps' := states + [Apply(states[|steps|], step)], steps + [step];
    forall i | 0 <= i < |steps'| ensures Enabled(states'[i], steps'[i]) && states'[i + 1] == Apply(states'[i], steps'[i]) {
      if i < |steps| { assert Enabled(states[i], steps[i]) && states[i + 1] == Apply(states[i], steps[i]); }
    }
  }

  /** The start of the run below: the only task is published, its reply asks for a retry. */
  lemma RetryPending() returns (states: seq<State>, steps: seq<Step>)
    ensures IsRun(states, steps) && OneReply(states, steps) && |states| == |steps| + 1
    ensures var s := states[|steps|];
            s.phase.Awaiting? && s.holder.Free? && !s.released && s.timers == multiset{"a"} && s.pending == {"a"} && s.buffer == [] && s.results == []
    ensures states[0].ids == ["a"]
  {
    hide IsRun, OneReply;
    states, steps := [Prepared(["a"], {"a"}, 1)], [];
    RunStarts(["a"], {"a"}, 1);
    states, steps := Extend(states, steps, Dispatch(true));
    states, steps := Extend(states, steps, BeginAwait);
    assert "a" in states[|steps|].flight;
    states, steps := Extend(states, steps, Deliver("a", Retryable));
  }

  /** Without that hypothesis a result can be lost: the retry of the only task fails to publish and has
      removed the task from pending when the monitor looks, so AwaitResults returns complete and empty. */
  lemma LostResult() returns (states: seq<State>, steps: seq<Step>)
    ensures IsRun(states, steps) && OneReply(states, steps)
    ensures states[0].ids == ["a"] && Complete(states[|steps|].phase) && states[|steps|].results == []
  {
    hide IsRun, OneReply, Handle, Arrive, Publishes;
    states, steps := RetryPending();
    states, steps := Extend(states, steps, RetryAcquires("a"));
    states, steps := Extend(states, steps, Republish(false));
    states, steps := Extend(states, steps, RemovePending);
    assert states[|steps|].pending == {};
    states, steps := Extend(states, steps, Monitor);
    states, steps := Extend(states, steps, SeeDone);
    states, steps := Extend(states, steps, Finish);
  }

  /** The start of the run below: an ID expected twice, its first reply asks for a retry and its second answers. */
  lemma AnsweredBeforeRetry() returns (states: seq<State>, steps: seq<Step>)
    ensures IsRun(states, steps) && OneReply(states, steps) && |states| == |steps| + 1 && states[0].ids == ["a", "a"]
    ensures var s := states[|steps|];
            s.phase.Awaiting? && s.holder.Free? && !s.released && s.timers == multiset{"a"} && s.pending == {} && s.results == []
            && s.buffer == [TaskResult("a", Success)]
  {
    hide IsRun, OneReply;
    states, steps := [Prepared(["a", "a"], {"a"}, 1)], [];
    RunStarts(["a", "a"], {"a"}, 1);
    states, steps := Extend(states, steps, Dispatch(true));
    states, steps := Extend(states, steps, Dispatch(true));
    states, steps := Extend(states, steps, BeginAwait);
    assert states[|steps|].flight == multiset{"a", "a"} && states[|steps|].pending == {"a"} && states[|steps|].known == {"a"};
    states, steps := Replies(states, steps);
  }

  lemma Replies(states: seq<State>, steps: seq<Step>) returns (states': seq<State>, steps': seq<Step>)
    requires IsRun(states, steps) && OneReply(states, steps) && |states| == |steps| + 1
    requires var s := states[|steps|];
      s.phase.Awaiting? && s.holder.Free? && !s.released && s.timers == multiset{} && s.pending == {"a"} && s.results == [] && s.buffer == []
      && s.flight == multiset{"a", "a"} && s.known == {"a"} && s.retryCounts == map[] && s.maxRetries == 1
    ensures IsRun(states', steps') && OneReply(states', steps') && |states'| == |steps'| + 1 && states'[0] == states[0]
    ensures var s := states'[|steps'|];
            s.phase.Awaiting? && s.holder.Free? && !s.released && s.timers == multiset{"a"} && s.pending == {} && s.results == []
            && s.buffer == [TaskResult("a", Success)]
  {
    hide IsRun, OneReply;
    AsksForRetry(states[|steps|]);
    AnswersNext(Apply(states[|steps|], Deliver("a", Retryable)));
    hide Apply;
    states', steps' := Extend(states, steps, Deliver("a", Retryable));
    states', steps' := Extend(states', steps', Deliver("a", Answered));
  }

  lemma AsksForRetry(s: State)
    requires s.pending == {"a"} && s.flight == multiset{"a", "a"} && s.known == {"a"} && s.retryCounts == map[] && s.maxRetries == 1
    ensures var s' := Apply(s, Deliver("a", Retryable));
            s' == s.(flight := multiset{"a"}, timers := s.timers + multiset{"a"}, retryCounts := s'.retryCounts, errors := s'.errors)
  {
  }

  lemma AnswersNext(s: State)
    requires s.pending == {"a"} && s.flight == multiset{"a"}
    ensures Apply(s, Deliver("a", Answered)) == s.(pending := {}, flight := multiset{}, buffer := s.buffer + [TaskResult("a", Success)])
  {
  }

  /** The retry then fails to publish, and sends its failure for a task that has its result: two results for
      one ID, although nothing sits in the gap. */
  lemma DoubledResult() returns (states: seq<State>, steps: seq<Step>)
    ensures IsRun(states, steps) && OneReply(states, steps) && states[0].ids == ["a", "a"]
    ensures Complete(states[|steps|].phase) && states[|steps|].holder.Free? && Results(states[|steps|].results, "a") == 2
  {
    hide IsRun, OneReply, Handle, Arrive, Publishes, Results;
    states, steps := AnsweredBeforeRetry();
    states, steps := Extend(states, steps, RetryAcquires("a"));
    states, steps := Extend(states, steps, Republish(false));
    states, steps := Extend(states, steps, RemovePending);
    states, steps := Extend(states, steps, SendFailure);
    states, steps := Extend(states, steps, Monitor);
    states, steps := Extend(states, steps, SeeDone);
    assert states[|steps|].buffer == [TaskResult("a", Success), TaskResult("a", RedispatchFailed)];
    states, steps := TakeBoth(states, steps);
  }

  lemma TakeBoth(states: seq<State>, steps: seq<Step>) returns (states': seq<State>, steps': seq<Step>)
    requires IsRun(states, steps) && OneReply(states, steps) && |states| == |steps| + 1
    requires states[|steps|].phase.Draining? && states[|steps|].holder.Free? && states[|steps|].results == []
    requires states[|steps|].buffer == [TaskResult("a", Success), TaskResult("a", RedispatchFailed)]
    ensures IsRun(states', steps') && OneReply(states', steps') && |states'| == |steps'| + 1 && states'[0] == states[0]
    ensures Complete(states'[|steps'|].phase) && states'[|steps'|].holder.Free? && Results(states'[|steps'|].results, "a") == 2
  {
    hide IsRun, OneReply, Handle, Arrive, Publishes;
    states', steps' := Extend(states, steps, Take);
    states', steps' := Extend(states', steps', Take);
    states', steps' := Extend(states', steps', Finish);
    var first, second := TaskResult("a", Success), TaskResult("a", RedispatchFailed);
    assert [] + [first] == [first] && states'[|steps'|].results == [first] + [second];
    ResultsMore([], first, "a");
    ResultsMore([first], second, "a");
  }

  lemma RunStarts(ids: seq<string>, known: set<string>, maxRetries: int)
    ensures IsRun([Prepared(ids, known, maxRetries)], []) && OneReply([Prepared(ids, known, maxRetries)], [])
  {
  }

  lemma DeliverIs(s: State, id: string, outcome: Outcome)
    ensures Apply(s, Deliver(id, outcome)) == Handle(Arrive(s, id, outcome), id, outcome)
  {
    hide Handle, Arrive;
  }

  /** The shared state of a collection: the maps and channels PrepareCollect closes over, the handle's
      once-only state, and the AwaitResults locals. */
  class Collection {
    const ids: seq<string>
    const known: set<string>
    const maxRetries: int
    var pending: set<string>
    var retryCounts: map<string, nat>
    var buffer: seq<TaskResult>
    var timers: multiset<string>
    var holder: Holder
    var released: bool
    var done: bool
    var phase: Phase
    var results: seq<TaskResult>
    ghost var flight: multiset<string>
    ghost var log: seq<Event>
    ghost var errors: map<string, nat>

    ghost function View(): State
      reads this
    {
      State(ids, known, maxRetries, pending, retryCounts, buffer, timers, holder, released, done, phase, results, flight, log, errors)
    }

    /** PrepareCollect: fills pending in a loop over the expected IDs. */
    constructor (ids: seq<string>, known: set<string>, maxRetries: int)
      ensures View() == Prepared(ids, known, maxRetries)
    {
      this.ids, this.known, this.maxRetries := ids, known, maxRetries;
      pending, retryCounts, buffer, timers := {}, map[], [], multiset{};
      holder, released, done, phase, results := Free, false, false, Dispatching(0), [];
      flight, log, errors := multiset{}, [], map[];
      new;
      for i := 0 to |ids|
        invariant View() == Prepared(ids, known, maxRetries).(pending := IdSet(ids[..i]))
      {
        assert IdSet(ids[..i + 1]) == IdSet(ids[..i]) + {ids[i]};
        pending := pending + {ids[i]};
      }
      assert ids[..|ids|] == ids;
    }

    /** The result handler, under mu. */
    method HandleResult(id: string, outcome: Outcome)
      modifies this
      ensures View() == Handle(old(View()), id, outcome)
    {
      hide CountOf;
      if id !in pending { return; }
      var kind := Success;
      if !outcome.Answered? {
        var retryCount := CountOf(retryCounts, id);
        if retryCount < maxRetries && !outcome.Truncated? {
          retryCounts := retryCounts[id := retryCount + 1];
          if id in known {
            timers := timers + multiset{id};
            return;
          }
          kind := MissingTask;
        } else {
          kind := if outcome.Truncated? then OutputTruncated else RetryExhausted;
        }
      }
      pending := pending - {id};
      buffer := buffer + [TaskResult(id, kind)];
    }

    /** One message of the subscription: it leaves the wire and is handled. */
    method Receive(id: string, outcome: Outcome)
      modifies this
      ensures View() == Apply(old(View()), Deliver(id, outcome))
    {
      DeliverIs(View(), id, outcome);
      hide Handle, Apply;
      flight := flight - multiset{id};
      errors := if outcome.Retryable? then Bump(errors, id) else errors;
      assert View() == Arrive(old(View()), id, outcome);
      HandleResult(id, outcome);
    }

    /** A retry whose timer fired takes redispatchMu and checks released. */
    method RetryFires(id: string)
      requires Enabled(View(), RetryAcquires(id))
      modifies this
      ensures View() == Apply(old(View()), RetryAcquires(id))
    {
      timers := timers - multiset{id};
      if !released { holder := Checked(id); }
    }

    /** The retry publishes and unlocks, or keeps the lock to report the failure. */
    method RetryPublishes(succeeds: bool)
      requires Enabled(View(), Republish(succeeds))
      modifies this
      ensures View() == Apply(old(View()), Republish(succeeds))
    {
      if succeeds {
        log, flight := log + [Publish(holder.id)], flight + multiset{holder.id};
        holder := Free;
      } else {
        holder := Failing(holder.id);
      }
    }

    /** A retry that could not publish removes its task, under mu. */
    method RetryRemoves()
      requires Enabled(View(), RemovePending)
      modifies this
      ensures View() == Apply(old(View()), RemovePending)
    {
      pending := pending - {holder.id};
      holder := Gap(holder.id);
    }

    /** It then sends the task's error result, mu released, and unlocks redispatchMu. */
    method RetrySends()
      requires Enabled(View(), SendFailure)
      modifies this
      ensures View() == Apply(old(View()), SendFailure)
    {
      buffer := buffer + [TaskResult(holder.id, RedispatchFailed)];
      holder := Free;
    }

    /** CollectionHandle.release: close released under redispatchMu, once. */
    method CloseReleased()
      requires Enabled(View(), Release)
      modifies this
      ensures View() == Apply(old(View()), Release)
    {
      released, phase := true, Released(phase.complete);
    }

    /** The deferred abandon, after release. */
    method AbandonUnlessComplete()
      requires Enabled(View(), Abandon)
      modifies this
      ensures View() == Apply(old(View()), Abandon)
    {
      if !phase.complete { log := log + [Abandoned]; }
      phase := Ended(phase.complete);
    }

    /** The drain at the end of AwaitResults: everything buffered is collected, in order. */
    method Drain()
      requires phase.Draining?
      modifies this
      ensures View() == old(View()).(results := old(results) + old(buffer), buffer := [], phase := Returned(true))
    {
      while buffer != []
        invariant View() == old(View()).(results := results, buffer := buffer)
        invariant results + buffer == old(results) + old(buffer)
        decreases |buffer|
      {
        results, buffer := results + [buffer[0]], buffer[1..];
      }
      phase := Returned(true);
    }
  }
}
