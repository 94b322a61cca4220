/** How one stage run splits its tasks: which it may look up and store (planCache), which are
    answered by a pre-built or cached result and which are dispatched (executeAnalyzer), and which
    replies it stores (putResults). */
module StagePlan {
  import opened ResultCache
  import opened CacheProtocol

  /** The key of a task the analyzer can cache: its request identity under a probed, observed model,
      with a catalog known for its controls. */
  datatype CacheKey = Uncacheable | Cacheable(key: Key)

  datatype Task = Task(id: string, preBuilt: bool, cacheKey: CacheKey)

  function Occurrences(tasks: seq<Task>, id: string): nat {
    if tasks == [] then 0 else Occurrences(tasks[..|tasks| - 1], id) + (if tasks[|tasks| - 1].id == id then 1 else 0)
  }

  lemma {:induction false} OccursIffIn(tasks: seq<Task>, id: string)
    ensures Occurrences(tasks, id) > 0 <==> exists i :: 0 <= i < |tasks| && tasks[i].id == id
  {
    if tasks != [] {
      var rest := tasks[..|tasks| - 1];
      OccursIffIn(rest, id);
      assert forall i :: 0 <= i < |rest| ==> rest[i] == tasks[i];
    }
  }

  /** A task whose ID occurs once is the only one with it. */
  lemma {:induction false} OnceIsUnique(tasks: seq<Task>, i: nat, j: nat)
    requires i < |tasks| && j < |tasks| && tasks[i].id == tasks[j].id && Occurrences(tasks, tasks[i].id) <= 1
    ensures i == j
  {
    var last := |tasks| - 1;
    var rest := tasks[..last];
    if i != j {
      if i < last && j < last {
        assert rest[i] == tasks[i] && rest[j] == tasks[j];
        OnceIsUnique(rest, i, j);
      } else {
        var k := if i < last then i else j;
        assert rest[k] == tasks[k];
        OccursIffIn(rest, tasks[k].id);
      }
    }
  }

  predicate Plannable(tasks: seq<Task>, t: Task) {
    !t.preBuilt && t.cacheKey.Cacheable? && Occurrences(tasks, t.id) == 1
  }

  /** The plan holds exactly the tasks that can be recorded unambiguously, each under its own key. */
  ghost predicate IsPlan(tasks: seq<Task>, plan: map<string, Key>) {
    && (forall i :: 0 <= i < |tasks| && Plannable(tasks, tasks[i]) ==> tasks[i].id in plan && plan[tasks[i].id] == tasks[i].cacheKey.key)
    && (forall id :: id in plan ==> exists i :: 0 <= i < |tasks| && tasks[i].id == id && Plannable(tasks, tasks[i]))
  }

  /** planCache's two loops: count the IDs, then plan every task whose ID is unique in the stage. */
  method PlanCache(tasks: seq<Task>) returns (plan: map<string, Key>)
    ensures IsPlan(tasks, plan)
  {
    var idCount: map<string, nat> := map[];
    for i := 0 to |tasks|
      invariant forall id :: (if id in idCount then idCount[id] else 0) == Occurrences(tasks[..i], id)
    {
      assert tasks[..i + 1][..i] == tasks[..i];
      var id := tasks[i].id;
      idCount := idCount[id := (if id in idCount then idCount[id] else 0) + 1];
    }
    assert tasks[..|tasks|] == tasks;
    plan := map[];
    for i := 0 to |tasks|
      invariant forall j :: 0 <= j < i && Plannable(tasks, tasks[j]) ==> tasks[j].id in plan && plan[tasks[j].id] == tasks[j].cacheKey.key
      invariant forall id :: id in plan ==> exists j :: 0 <= j < i && tasks[j].id == id && Plannable(tasks, tasks[j])
    {
      var t := tasks[i];
      assert Occurrences(tasks, t.id) > 0 by { OccursIffIn(tasks, t.id); }
      if !t.preBuilt && idCount[t.id] <= 1 && t.cacheKey.Cacheable? {
        forall j | 0 <= j < i && Plannable(tasks, tasks[j]) ensures tasks[j].id != t.id {
          if tasks[j].id == t.id { OnceIsUnique(tasks, i, j); }
        }
        plan := plan[t.id := t.cacheKey.key];
      }
    }
  }

  // ---- the split ----

  datatype Part = PreBuilt | Hit | Dispatched

  /** The task IDs the lookup answered. */
  function CachedIds(plan: map<string, Key>, found: map<Key, Row>): set<string> {
    set id | id in plan && plan[id] in found
  }

  function PartOf(t: Task, cached: set<string>): Part {
    if t.preBuilt then PreBuilt else if t.id in cached then Hit else Dispatched
  }

  /** The tasks of one part, in the order of the stage. */
  function Select(tasks: seq<Task>, cached: set<string>, part: Part): seq<Task> {
    if tasks == [] then [] else
    var last := tasks[|tasks| - 1];
    Select(tasks[..|tasks| - 1], cached, part) + (if PartOf(last, cached) == part then [last] else [])
  }

  /** The split of a stage: a pre-built task is never dispatched or looked up, a hit is a planned task whose key was
      found, and every other task is dispatched. */
  ghost predicate IsSplit(plan: map<string, Key>, found: map<Key, Row>, preBuilt: seq<Task>, hits: seq<Task>, dispatch: seq<Task>) {
    && (forall t :: t in preBuilt ==> t.preBuilt)
    && (forall t :: t in hits ==> !t.preBuilt && t.id in plan && plan[t.id] in found)
    && (forall t :: t in dispatch ==> !t.preBuilt && !(t.id in plan && plan[t.id] in found))
  }

  /** executeAnalyzer's partition. It loses and repeats no task and keeps their order; tasks = pre-built + Hits +
      Dispatched holds for every task list, repeated IDs included, and Hits is the number of hit entries the stage
      records, so the stats row of a stage that planned and found so counts its three parts. */
  method Partition(tasks: seq<Task>, plan: map<string, Key>, found: map<Key, Row>)
    returns (preBuilt: seq<Task>, hits: seq<Task>, dispatch: seq<Task>)
    requires IsPlan(tasks, plan)
    ensures preBuilt == Select(tasks, CachedIds(plan, found), PreBuilt)
    ensures hits == Select(tasks, CachedIds(plan, found), Hit)
    ensures dispatch == Select(tasks, CachedIds(plan, found), Dispatched)
    ensures IsSplit(plan, found, preBuilt, hits, dispatch)
    ensures multiset(tasks) == multiset(preBuilt) + multiset(hits) + multiset(dispatch)
    ensures |tasks| == |preBuilt| + |HitEntries(plan, found)| + |dispatch|
    ensures forall a: Attempt :: a.total == |tasks| && a.preBuilt == |preBuilt| && a.hits == HitEntries(plan, found) ==>
              StatsRow(a) == Stats(|tasks|, |hits|, |dispatch|)
  {
    hide Select, StatsRow, HitEntries, IsSplit;
    var cached := CachedIds(plan, found);
    preBuilt, hits, dispatch := [], [], [];
    NothingSelected(tasks, cached);
    for i := 0 to |tasks|
      invariant preBuilt == Select(tasks[..i], cached, PreBuilt)
      invariant hits == Select(tasks[..i], cached, Hit)
      invariant dispatch == Select(tasks[..i], cached, Dispatched)
      invariant i == |preBuilt| + |hits| + |dispatch|
    {
      SelectMore(tasks, i, cached);
      var t := tasks[i];
      if t.preBuilt {
        preBuilt := preBuilt + [t];
      } else if t.id in cached {
        hits := hits + [t];
      } else {
        dispatch := dispatch + [t];
      }
    }
    assert tasks[..|tasks|] == tasks;
    HitsCounted(tasks, plan, found);
    SplitIsExact(tasks, cached);
    SelectSplits(tasks, plan, found);
    forall a: Attempt | a.total == |tasks| && a.preBuilt == |preBuilt| && a.hits == HitEntries(plan, found)
      ensures StatsRow(a) == Stats(|tasks|, |hits|, |dispatch|)
    {
      StatsCount(a, |hits|, |dispatch|);
    }
  }

  lemma NothingSelected(tasks: seq<Task>, cached: set<string>)
    ensures forall part :: Select(tasks[..0], cached, part) == []
  {
  }

  lemma SelectMore(tasks: seq<Task>, i: nat, cached: set<string>)
    requires i < |tasks|
    ensures forall part :: Select(tasks[..i + 1], cached, part) ==
                             Select(tasks[..i], cached, part) + (if PartOf(tasks[i], cached) == part then [tasks[i]] else [])
  {
    assert tasks[..i + 1][..i] == tasks[..i];
  }

  lemma SelectSplits(tasks: seq<Task>, plan: map<string, Key>, found: map<Key, Row>)
    ensures var cached := CachedIds(plan, found);
            IsSplit(plan, found, Select(tasks, cached, PreBuilt), Select(tasks, cached, Hit), Select(tasks, cached, Dispatched))
  {
    var cached := CachedIds(plan, found);
    forall part, t | t in Select(tasks, cached, part) ensures PartOf(t, cached) == part { SelectIff(tasks, cached, part, t); }
    hide Select;
  }

  /** The stats row counts the parts of the split. */
  lemma StatsCount(a: Attempt, hits: nat, dispatched: nat)
    requires hits == |a.hits| && a.total == a.preBuilt + hits + dispatched
    ensures StatsRow(a) == Stats(a.total, hits, dispatched)
  {
  }

  /** A part holds exactly the tasks that belong to it. */
  lemma {:induction false} SelectIff(tasks: seq<Task>, cached: set<string>, part: Part, t: Task)
    ensures t in Select(tasks, cached, part) <==> t in tasks && PartOf(t, cached) == part
  {
    if tasks != [] {
      var rest, last := tasks[..|tasks| - 1], tasks[|tasks| - 1];
      assert tasks == rest + [last];
      SelectIff(rest, cached, part, t);
    }
  }

  /** The split loses and repeats nothing, and no task ID is both a hit and dispatched. */
  lemma {:induction false} SplitIsExact(tasks: seq<Task>, cached: set<string>)
    ensures multiset(tasks) == multiset(Select(tasks, cached, PreBuilt)) + multiset(Select(tasks, cached, Hit)) +
                               multiset(Select(tasks, cached, Dispatched))
    ensures forall h, d :: h in Select(tasks, cached, Hit) && d in Select(tasks, cached, Dispatched) ==> h.id != d.id
  {
    if tasks != [] {
      var rest, last := tasks[..|tasks| - 1], tasks[|tasks| - 1];
      assert tasks == rest + [last];
      SplitIsExact(rest, cached);
    }
    forall h, d | h in Select(tasks, cached, Hit) && d in Select(tasks, cached, Dispatched) ensures h.id != d.id {
      SelectIff(tasks, cached, Hit, h);
      SelectIff(tasks, cached, Dispatched, d);
    }
  }

  function Ids(tasks: seq<Task>): set<string> {
    set t | t in tasks :: t.id
  }

  /** The hit tasks have distinct IDs, because a planned ID occurs once in the stage. */
  lemma {:induction false} HitIdsDistinct(all: seq<Task>, plan: map<string, Key>, ids: set<string>, n: nat)
    requires n <= |all| && IsPlan(all, plan) && ids <= plan.Keys
    ensures |Select(all[..n], ids, Hit)| == |Ids(Select(all[..n], ids, Hit))|
  {
    if n > 0 {
      assert all[..n][..n - 1] == all[..n - 1];
      HitIdsDistinct(all, plan, ids, n - 1);
      var t, before := all[n - 1], Select(all[..n - 1], ids, Hit);
      if PartOf(t, ids) == Hit {
        HitIsNew(all, plan, ids, n);
        assert Ids(before + [t]) == Ids(before) + {t.id};
      } else {
        assert Select(all[..n], ids, Hit) == before;
      }
    }
  }

  lemma HitIsNew(all: seq<Task>, plan: map<string, Key>, ids: set<string>, n: nat)
    requires 0 < n <= |all| && IsPlan(all, plan) && ids <= plan.Keys && PartOf(all[n - 1], ids) == Hit
    ensures all[n - 1].id !in Ids(Select(all[..n - 1], ids, Hit))
  {
    forall u | u in Select(all[..n - 1], ids, Hit) ensures u.id != all[n - 1].id {
      SelectIff(all[..n - 1], ids, Hit, u);
      var j :| 0 <= j < n - 1 && all[j] == u;
      if u.id == all[n - 1].id {
        OnceIsUnique(all, j, n - 1);
      }
    }
  }

  /** Every cached ID is the ID of exactly one dispatchable task, so the hits are counted right. */
  lemma HitsCounted(tasks: seq<Task>, plan: map<string, Key>, found: map<Key, Row>)
    requires IsPlan(tasks, plan)
    ensures |Select(tasks, CachedIds(plan, found), Hit)| == |HitEntries(plan, found)|
  {
    var ids := CachedIds(plan, found);
    var hits := Select(tasks, ids, Hit);
    assert tasks[..|tasks|] == tasks;
    HitIdsDistinct(tasks, plan, ids, |tasks|);
    forall id | id in ids ensures id in Ids(hits) {
      var i :| 0 <= i < |tasks| && tasks[i].id == id && Plannable(tasks, tasks[i]);
      SelectIff(tasks, ids, Hit, tasks[i]);
    }
    forall t | t in hits ensures t.id in ids { SelectIff(tasks, ids, Hit, t); }
    assert Ids(hits) == ids;
    EntriesPerId(plan, found, ids);
  }

  /** One hit entry per cached ID. */
  lemma {:induction false} EntriesPerId(plan: map<string, Key>, found: map<Key, Row>, ids: set<string>)
    requires ids <= CachedIds(plan, found)
    ensures |ids| == |(set t | t in ids :: Entry(t, RoleHit, plan[t], found[plan[t]].result, found[plan[t]].job))|
    ensures ids == CachedIds(plan, found) ==> |ids| == |HitEntries(plan, found)|
    decreases |ids|
  {
    var entries := set t | t in ids :: Entry(t, RoleHit, plan[t], found[plan[t]].result, found[plan[t]].job);
    if ids != {} {
      var id :| id in ids;
      EntriesPerId(plan, found, ids - {id});
      var e := Entry(id, RoleHit, plan[id], found[plan[id]].result, found[plan[id]].job);
      var rest := set t | t in ids - {id} :: Entry(t, RoleHit, plan[t], found[plan[t]].result, found[plan[t]].job);
      assert entries == rest + {e} && e !in rest;
    }
    if ids == CachedIds(plan, found) {
      assert entries == HitEntries(plan, found);
    }
  }

  // ---- putResults ----

  /** One collected result: failed, or a reply the analyzer would or would not use. */
  datatype TaskResult = TaskResult(task: string, failed: bool, usable: bool, reply: Reply)

  predicate Accepts(plan: map<string, Key>, r: TaskResult) {
    r.task in plan && !r.failed && Storable(plan[r.task], r.reply) && r.usable
  }

  /** The writes Put accepted for `results`, when the store answers the i-th result's Put with outcomes[i]. */
  function Written(plan: map<string, Key>, results: seq<TaskResult>, outcomes: seq<CallResult>): seq<Entry>
    requires |outcomes| == |results|
  {
    if results == [] then [] else
    var n := |results| - 1;
    Written(plan, results[..n], outcomes[..n]) +
    (if Accepts(plan, results[n]) && outcomes[n].Committed? then [WriteEntry(results[n].task, plan[results[n].task], results[n].reply)] else [])
  }

  /** Some Put of an accepted result was lost. */
  predicate LostOne(plan: map<string, Key>, results: seq<TaskResult>, outcomes: seq<CallResult>)
    requires |outcomes| == |results|
  {
    exists i :: 0 <= i < |results| && Accepts(plan, results[i]) && outcomes[i].Lost?
  }

  class StageCache {
    const plan: map<string, Key>
    var writes: seq<Entry>
    var uncertain: bool

    constructor (plan: map<string, Key>)
      ensures this.plan == plan && writes == [] && !uncertain
    {
      this.plan, writes, uncertain := plan, [], false;
    }

    /** putResults: store every successful result that the alias's observed model and deployment gave. */
    method PutResults(results: seq<TaskResult>, outcomes: seq<CallResult>)
      requires |outcomes| == |results|
      modifies this
      ensures writes == old(writes) + Written(plan, results, outcomes)
      ensures uncertain == (old(uncertain) || LostOne(plan, results, outcomes))
    {
      for i := 0 to |results|
        invariant writes == old(writes) + Written(plan, results[..i], outcomes[..i])
        invariant uncertain == (old(uncertain) || LostOne(plan, results[..i], outcomes[..i]))
      {
        assert results[..i + 1][..i] == results[..i] && outcomes[..i + 1][..i] == outcomes[..i];
        var r := results[i];
        LostGrows(plan, results, outcomes, i);
        if Accepts(plan, r) {
          match outcomes[i]
          case Committed => writes := writes + [WriteEntry(r.task, plan[r.task], r.reply)];
          case Refused =>
          case Lost(_) => uncertain := true;
        }
      }
      assert results[..|results|] == results && outcomes[..|results|] == outcomes;
    }
  }

  lemma LostGrows(plan: map<string, Key>, results: seq<TaskResult>, outcomes: seq<CallResult>, i: nat)
    requires |outcomes| == |results| && i < |results|
    ensures LostOne(plan, results[..i + 1], outcomes[..i + 1]) ==
              (LostOne(plan, results[..i], outcomes[..i]) || (Accepts(plan, results[i]) && outcomes[i].Lost?))
  {
    if LostOne(plan, results[..i], outcomes[..i]) {
      var j :| 0 <= j < i && Accepts(plan, results[..i][j]) && outcomes[..i][j].Lost?;
      assert results[..i + 1][j] == results[j] && outcomes[..i + 1][j] == outcomes[j];
    }
    if Accepts(plan, results[i]) && outcomes[i].Lost? {
      assert results[..i + 1][i] == results[i] && outcomes[..i + 1][i] == outcomes[i];
    }
  }

  predicate IsWrite(plan: map<string, Key>, r: TaskResult, outcome: CallResult, e: Entry) {
    && r.task in plan && !r.failed && r.usable && outcome.Committed?
    && r.reply.model != "" && r.reply.model == plan[r.task].observed && r.reply.deployment == plan[r.task].deployment
    && e == Entry(r.task, RoleWrite, plan[r.task], r.reply, "")
  }

  /** What is written is exactly the results whose Put committed among those that may be stored: a planned task's, that
      did not fail, that names the model and deployment of the task's own key, and that the analyzer would use. */
  lemma {:induction false} WritesAreOwn(plan: map<string, Key>, results: seq<TaskResult>, outcomes: seq<CallResult>)
    requires |outcomes| == |results|
    ensures forall e :: e in Written(plan, results, outcomes) <==>
              exists i :: 0 <= i < |results| && IsWrite(plan, results[i], outcomes[i], e)
  {
    if results != [] {
      var n := |results| - 1;
      var rest, outs := results[..n], outcomes[..n];
      assert forall k :: 0 <= k < n ==> rest[k] == results[k] && outs[k] == outcomes[k];
      WritesAreOwn(plan, rest, outs);
      forall e ensures e in Written(plan, results, outcomes) <==> exists i :: 0 <= i < |results| && IsWrite(plan, results[i], outcomes[i], e) {
        assert e in Written(plan, rest, outs) <==> exists i :: 0 <= i < n && IsWrite(plan, results[i], outcomes[i], e);
      }
    }
  }

  predicate TasksDiffer(writes: seq<Entry>) {
    forall i, j :: 0 <= i < j < |writes| ==> writes[i].task != writes[j].task
  }

  /** When no task succeeded twice, no task is written twice, which is what the seal relies on. */
  lemma {:induction false} WrittenOnce(plan: map<string, Key>, results: seq<TaskResult>, outcomes: seq<CallResult>)
    requires |outcomes| == |results|
    requires forall i, j :: 0 <= i < j < |results| && !results[i].failed && !results[j].failed ==> results[i].task != results[j].task
    ensures TasksDiffer(Written(plan, results, outcomes))
  {
    if results != [] {
      var n := |results| - 1;
      var rest, outs := results[..n], outcomes[..n];
      assert forall k :: 0 <= k < n ==> rest[k] == results[k] && outs[k] == outcomes[k];
      WrittenOnce(plan, rest, outs);
      WritesAreOwn(plan, rest, outs);
      var w := Written(plan, rest, outs);
      var w' := Written(plan, results, outcomes);
      assert w' == w + (if Accepts(plan, results[n]) && outcomes[n].Committed? then [WriteEntry(results[n].task, plan[results[n].task], results[n].reply)] else []);
      if Accepts(plan, results[n]) && outcomes[n].Committed? {
        assert w' == w + [WriteEntry(results[n].task, plan[results[n].task], results[n].reply)];
        forall i | 0 <= i < |w| ensures w[i].task != results[n].task {
          assert w[i] in w;
          var k :| 0 <= k < n && IsWrite(plan, results[k], outcomes[k], w[i]);
        }
      } else {
        assert w' == w;
      }
    }
  }
}
