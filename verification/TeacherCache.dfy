/** The cache object: its records and statistics are updated in place and written to its file,
    and each method is proved to be the corresponding step of the cache model. */
module TeacherCaches {
  import opened Common
  import opened TeacherModel
  import opened TeacherRuns

  class CacheFile {
    var content: Saved
  }

  predicate ValidTask(tasks: seq<(string, string)>, i: int) {
    0 <= i < |tasks| ==> ValidPass(tasks[i].0, tasks[i].1, 0)
  }

  datatype Pass = Pass(env: string, task: string, index: int, key: string)

  class TeacherCache {
    const settings: Settings
    const path: CacheFile
    var records: Records
    var stats: Stats

    function State(): Cache
      reads this
    {
      Cache(records, stats)
    }

    ghost function Here(): World
      reads this, path
    {
      World(State(), path.content)
    }

    constructor Of(settings: Settings, path: CacheFile, cache: Cache)
      ensures this.settings == settings && this.path == path && State() == cache
    {
      this.settings, this.path, records, stats := settings, path, cache.records, cache.stats;
    }

    /** Loading: succeeds exactly when every stored record passes the checks. */
    static method Load(settings: Settings, path: CacheFile) returns (r: Result<TeacherCache>)
      ensures r.Ok? <==> Open(settings, path.content).Ok?
      ensures r.Ok? ==> fresh(r.value) && r.value.settings == settings && r.value.path == path
      ensures r.Ok? ==> r.value.State() == Open(settings, path.content).value
    {
      var loaded: Records, stats := map[], EMPTY_STATS;
      match path.content {
        case NoFile =>
        case Unreadable => return Err("invalid teacher cache");
        case File(schema, runId, cache) =>
          if schema != SCHEMA_VERSION { return Err("unsupported teacher cache schema"); }
          if runId != "" && runId != settings.runId { return Err("teacher cache collection run mismatch"); }
          var pending := cache.records.Keys;
          while pending != {}
            invariant pending <= cache.records.Keys
            invariant loaded == map k | k in cache.records && k !in pending :: cache.records[k]
            invariant forall k | k in loaded :: Loadable(settings, k, loaded[k])
          {
            var k :| k in pending;
            pending := pending - {k};
            if !Loadable(settings, k, cache.records[k]) { return Err("teacher cache record key/provenance mismatch"); }
            loaded := loaded[k := cache.records[k]];
          }
          assert loaded == cache.records;
          stats := cache.stats;
      }
      var cache := new TeacherCache.Of(settings, path, Cache(loaded, stats));
      cache.RefreshCompletedTasks();
      r := Ok(cache);
    }

    method RefreshCompletedTasks()
      modifies this
      ensures State() == Refresh(old(State()))
    {
      var pairs, inFlight := Survey();
      var completed := CountCompleted(pairs);
      stats := stats.(completed := completed, inFlight := inFlight);
    }

    /** The task keys of the successful records, and the number of records in flight. */
    method Survey() returns (pairs: set<string>, inFlight: nat)
      ensures inFlight == |KeysWith(records, InFlight)|
      ensures pairs == set k | k in records && records[k].status == Success :: NamedTask(records[k])
    {
      pairs, inFlight := {}, 0;
      ghost var flying: set<string> := {};
      var pending := records.Keys;
      while pending != {}
        invariant pending <= records.Keys
        invariant flying == (set k | k in records && k !in pending && records[k].status == InFlight) &&
          inFlight == |flying|
        invariant pairs == set k | k in records && k !in pending && records[k].status == Success ::
          NamedTask(records[k])
      {
        var k :| k in pending;
        pending := pending - {k};
        if records[k].status == Success { pairs := pairs + {NamedTask(records[k])}; }
        if records[k].status == InFlight {
          flying := flying + {k};
          inFlight := inFlight + 1;
        }
      }
      assert flying == KeysWith(records, InFlight);
    }

    /** How many of the given task keys have both passes done. */
    method CountCompleted(pairs: set<string>) returns (completed: nat)
      requires pairs == set k | k in records && records[k].status == Success :: NamedTask(records[k])
      ensures completed == |CompletedTasks(records)|
    {
      completed := 0;
      ghost var done: set<string> := {};
      var left := pairs;
      while left != {}
        invariant left <= pairs
        invariant done == (set t | t in pairs && t !in left && PassDone(records, t, 0) && PassDone(records, t, 1)) &&
          completed == |done|
      {
        var t :| t in left;
        left := left - {t};
        if PassDone(records, t, 0) && PassDone(records, t, 1) {
          done := done + {t};
          completed := completed + 1;
        }
      }
      assert done == CompletedTasks(records);
    }

    method Write()
      modifies path
      ensures path.content == File(SCHEMA_VERSION, settings.runId, State()) && State() == old(State())
    {
      path.content := File(SCHEMA_VERSION, settings.runId, State());
    }

    /** `claim`: the request id of a paid request, or nothing when the pass may not be re-issued. */
    method Claim(env: string, task: string, index: int, requestId: string, given: Option<Provenance>)
      returns (r: Result<Option<string>>)
      modifies this, path
      ensures r.Err? <==> !ValidPass(env, task, index)
      ensures var op := DoClaim(env, task, index, requestId, given);
        Here() == Step(settings, old(Here()), op) && (r.Ok? ==> r.value == Claimed(settings, old(Here()), op))
      ensures var key := KeyOf(TaskKey(env, task), index);
        r.Ok? ==> r.value == if key in old(records) && old(records)[key].status != Error then None else Some(requestId)
    {
      var k := PassKey(env, task, index);
      if k.Err? { return Err(k.reason); }
      var key := k.value;
      if Blocked(records, key) { return Ok(None); }
      var provenance := MakeProvenance(settings, env, task, index);
      if given.Some? { provenance := Updated(provenance, given.value); }
      records := records[key := Record(InFlight, Some(requestId), provenance, "", false)];
      RefreshCompletedTasks();
      Write();
      r := Ok(Some(requestId));
    }

    method NoteMissingReasoning(missing: bool, missingCount: int)
      modifies this
      ensures records == old(records)
      ensures stats == old(stats).(missingReasoning :=
        old(stats).missingReasoning + Max(0, Max(missingCount, if missing then 1 else 0)))
    {
      if missing { stats := stats.(missingReasoning := stats.missingReasoning + 1); }
      var count := Max(missingCount, if missing then 1 else 0);
      if count != 0 {
        stats := stats.(missingReasoning := stats.missingReasoning + Max(0, count - if missing then 1 else 0));
      }
    }

    method RecordSuccess(env: string, task: string, index: int, provenance: Provenance, trajectory: string,
                         tokens: int, valid: bool, missing: bool, missingCount: int)
      returns (r: Result<bool>)
      modifies this, path
      ensures r.Err? <==> Raises(settings, old(Here()),
        DoRecordSuccess(env, task, index, provenance, trajectory, tokens, valid, missing, missingCount))
      ensures r.Ok? ==> r.value == !HasStatus(old(records), KeyOf(TaskKey(env, task), index), Success)
      ensures Here() == Step(settings, old(Here()),
        DoRecordSuccess(env, task, index, provenance, trajectory, tokens, valid, missing, missingCount))
      ensures r == Ok(true) ==> records == old(records)[KeyOf(TaskKey(env, task), index) :=
        Record(if valid then Success else Invalid, None, provenance, trajectory, false)]
      ensures r != Ok(true) ==> State() == old(State()) && path.content == old(path.content)
    {
      var k := PassKey(env, task, index);
      if k.Err? { return Err(k.reason); }
      var key := k.value;
      if HasStatus(records, key, Success) { return Ok(false); }
      if !SuccessAllowed(env, task, index, provenance) { return Err("provenance does not match the cache record"); }
      StoreResult(key, provenance, trajectory, tokens, valid, missing, missingCount);
      Write();
      r := Ok(true);
    }

    method StoreResult(key: string, provenance: Provenance, trajectory: string, tokens: int, valid: bool,
                       missing: bool, missingCount: int)
      modifies this
      ensures State() == TeacherModel.RecordSuccess(old(State()), key, provenance, trajectory, tokens, valid, missing,
        missingCount)
    {
      NoteMissingReasoning(missing, missingCount);
      records := records[key := Record(if valid then Success else Invalid, None, provenance, trajectory, false)];
      stats := stats.(valid := stats.valid + (if valid then 1 else 0),
                      invalid := stats.invalid + (if valid then 0 else 1),
                      tokens := stats.tokens + tokens);
      RefreshCompletedTasks();
    }

    method ReconcileInFlight(env: string, task: string, index: int, retry: bool) returns (r: Result<()>)
      modifies this, path
      ensures r.Err? <==> !ValidPass(env, task, index)
      ensures Here() == Step(settings, old(Here()), DoReconcile(env, task, index, retry))
    {
      var k := PassKey(env, task, index);
      if k.Err? { return Err(k.reason); }
      var key := k.value;
      if !HasStatus(records, key, InFlight) { return Ok(()); }
      if retry {
        records := records - {key};
      } else {
        records := records[key := records[key].(status := Error, reconcileRequired := false)];
      }
      RefreshCompletedTasks();
      Write();
      r := Ok(());
    }

    method AbandonInFlight(env: string, task: string, index: int) returns (r: Result<bool>)
      modifies this, path
      ensures r.Err? <==> !ValidPass(env, task, index)
      ensures r.Ok? ==> r.value == HasStatus(old(records), KeyOf(TaskKey(env, task), index), InFlight)
      ensures Here() == Step(settings, old(Here()), DoAbandon(env, task, index))
    {
      var k := PassKey(env, task, index);
      if k.Err? { return Err(k.reason); }
      var key := k.value;
      if !HasStatus(records, key, InFlight) { return Ok(false); }
      records := records[key := records[key].(status := Abandoned, reconcileRequired := false)];
      stats := stats.(abandoned := stats.abandoned + 1);
      RefreshCompletedTasks();
      Write();
      r := Ok(true);
    }

    method RecordError(env: string, task: string, index: int, error: string, retryable: bool, given: Option<Provenance>)
      returns (r: Result<()>)
      modifies this, path
      ensures r.Err? <==> !ValidPass(env, task, index)
      ensures Here() == Step(settings, old(Here()), DoRecordError(env, task, index, error, retryable, given))
    {
      var k := PassKey(env, task, index);
      if k.Err? { return Err(k.reason); }
      var key := k.value;
      if HasStatus(records, key, Success) { return Ok(()); }
      var provenance := if key in records then records[key].provenance else MakeProvenance(settings, env, task, index);
      if given.Some? { provenance := Updated(provenance, given.value); }
      records := records[key := Record(if retryable then Error else InFlight, None, provenance, error, !retryable)];
      stats := stats.(apiErrors := stats.apiErrors + 1);
      RefreshCompletedTasks();
      Write();
      r := Ok(());
    }

    /** The claim a pending pass stands for would be granted. */
    predicate Claimable(env: string, task: string, index: int)
      reads this, path
    {
      Claimed(settings, World(State(), path.content), DoClaim(env, task, index, "id", None)).Some?
    }

    /** `pending`: in task order, exactly the passes for which a claim would return an id. */
    method Pending(tasks: seq<(string, string)>, passK: int) returns (r: Result<seq<Pass>>)
      ensures r.Ok? <==> passK == 2 && forall i :: ValidTask(tasks, i)
      ensures r.Ok? ==> r.value == Claimables(tasks)
    {
      if passK != 2 { return Err("the SFT Teacher protocol requires pass_k=2"); }
      var output: seq<Pass> := [];
      for i := 0 to |tasks|
        invariant Listed(tasks, i, output)
      {
        ListedNext(tasks, i, output);
        var passes := PendingPasses(tasks[i].0, tasks[i].1);
        if passes.Err? {
          assert !ValidTask(tasks, i);
          return Err(passes.reason);
        }
        output := output + passes.value;
      }
      assert tasks[..|tasks|] == tasks;
      r := Ok(output);
    }

    /** The first i tasks are valid and `output` lists their claimable passes. */
    ghost predicate Listed(tasks: seq<(string, string)>, i: nat, output: seq<Pass>)
      requires i <= |tasks|
      reads this, path
    {
      output == Claimables(tasks[..i]) && forall j | j < i :: ValidTask(tasks, j)
    }

    lemma ListedNext(tasks: seq<(string, string)>, i: nat, output: seq<Pass>)
      requires i < |tasks| && Listed(tasks, i, output)
      ensures ValidTask(tasks, i) ==> Listed(tasks, i + 1, output + Passes(tasks[i].0, tasks[i].1, 2))
    {
      assert tasks[..i + 1][..i] == tasks[..i] && tasks[..i + 1][i] == tasks[i];
    }

    method PendingPasses(env: string, task: string) returns (r: Result<seq<Pass>>)
      ensures r.Ok? <==> ValidPass(env, task, 0)
      ensures r.Ok? ==> r.value == Passes(env, task, 2)
    {
      var output: seq<Pass> := [];
      for index := 0 to 2
        invariant index > 0 ==> ValidPass(env, task, 0)
        invariant output == Passes(env, task, index)
      {
        var pass := PendingPass(env, task, index);
        if pass.Err? { return Err(pass.reason); }
        output := output + pass.value;
      }
      r := Ok(output);
    }

    /** The test `pending` makes on one pass. */
    method PendingPass(env: string, task: string, index: int) returns (r: Result<seq<Pass>>)
      requires index == 0 || index == 1
      ensures r.Ok? <==> ValidPass(env, task, 0)
      ensures r.Ok? ==> r.value == OnePass(env, task, index)
    {
      var key := PassKey(env, task, index);
      if key.Err? { return Err(key.reason); }
      if !HasStatus(records, key.value, Success) &&
         !(key.value in records && records[key.value].status in {InFlight, Invalid, Abandoned}) {
        r := Ok([Pass(env, task, index, key.value)]);
      } else {
        r := Ok([]);
      }
    }

    function Passes(env: string, task: string, n: nat): seq<Pass>
      reads this, path
    {
      if n == 0 then [] else Passes(env, task, n - 1) + OnePass(env, task, n - 1)
    }

    function OnePass(env: string, task: string, index: int): seq<Pass>
      reads this, path
    {
      if Claimable(env, task, index) then [Pass(env, task, index, KeyOf(TaskKey(env, task), index))] else []
    }

    function Claimables(tasks: seq<(string, string)>): seq<Pass>
      reads this, path
    {
      if tasks == [] then [] else
        Claimables(tasks[..|tasks| - 1]) + Passes(tasks[|tasks| - 1].0, tasks[|tasks| - 1].1, 2)
    }

    /** Exactly the passes 0 and 1 of the given tasks whose claim would be granted. */
    lemma {:induction false} ClaimablesExactly(tasks: seq<(string, string)>, p: Pass)
      ensures p in Claimables(tasks) <==>
        (p.env, p.task) in tasks && p.index in {0, 1} && p.key == KeyOf(TaskKey(p.env, p.task), p.index) &&
        Claimable(p.env, p.task, p.index)
    {
      if tasks == [] {
      } else {
        var last := tasks[|tasks| - 1];
        ClaimablesExactly(tasks[..|tasks| - 1], p);
        assert tasks == tasks[..|tasks| - 1] + [last];
        assert Passes(last.0, last.1, 1) == Passes(last.0, last.1, 0) + OnePass(last.0, last.1, 0);
        assert Passes(last.0, last.1, 2) == OnePass(last.0, last.1, 0) + OnePass(last.0, last.1, 1);
      }
    }

    /** They are the passes of the given tasks that are valid and have no record, or one of a retryable
        error. */
    lemma PendingMeans(tasks: seq<(string, string)>, p: Pass)
      ensures p in Claimables(tasks) <==>
        (p.env, p.task) in tasks && p.index in {0, 1} && p.key == KeyOf(TaskKey(p.env, p.task), p.index) &&
        Strip(p.env) != "" && Strip(p.task) != "" && (p.key !in records || records[p.key].status == Error)
    {
      ClaimablesExactly(tasks, p);
    }

    /** The pass at slot s of the task list: both passes of a task, then those of the next one. */
    function PassAt(tasks: seq<(string, string)>, s: nat): Pass
      requires s / 2 < |tasks|
    {
      var (env, task) := tasks[s / 2];
      Pass(env, task, s % 2, KeyOf(TaskKey(env, task), s % 2))
    }

    predicate Unbilled(p: Pass)
      reads this
    {
      Strip(p.env) != "" && Strip(p.task) != "" && (p.key !in records || records[p.key].status == Error)
    }

    /** The n-th entry is the pass of the n-th slot, in strictly increasing order. */
    ghost predicate InSlots(tasks: seq<(string, string)>, list: seq<Pass>, slots: seq<nat>) {
      |list| == |slots| &&
      (forall n | 0 <= n < |slots| :: slots[n] / 2 < |tasks| && list[n] == PassAt(tasks, slots[n])) &&
      forall m, n | 0 <= m < n < |slots| :: slots[m] < slots[n]
    }

    ghost predicate SlotListed(tasks: seq<(string, string)>, slots: seq<nat>, s: nat)
      requires s / 2 < |tasks|
      reads this
    {
      s in slots <==> Unbilled(PassAt(tasks, s))
    }

    /** The list names each unbilled pass of the first slots once, task by task, pass 0 before pass 1. */
    ghost predicate ListsEach(tasks: seq<(string, string)>, list: seq<Pass>, slots: seq<nat>, limit: nat)
      reads this
    {
      limit <= 2 * |tasks| && InSlots(tasks, list, slots) && (forall n | 0 <= n < |slots| :: slots[n] < limit) &&
      forall s: nat | s < limit :: SlotListed(tasks, slots, s)
    }

    lemma SlotNext(tasks: seq<(string, string)>, list: seq<Pass>, slots: seq<nat>, s: nat) returns (more: seq<nat>)
      requires ListsEach(tasks, list, slots, s) && s / 2 < |tasks|
      ensures ListsEach(tasks, list + OnePass(tasks[s / 2].0, tasks[s / 2].1, s % 2), more, s + 1)
    {
      var p := PassAt(tasks, s);
      more := slots + (if Unbilled(p) then [s] else []);
      forall x: nat | x < s + 1 ensures SlotListed(tasks, more, x) {
        assert x < s ==> SlotListed(tasks, slots, x);
        assert s !in slots;
      }
    }

    lemma TaskNext(tasks: seq<(string, string)>, list: seq<Pass>, slots: seq<nat>, n: nat) returns (more: seq<nat>)
      requires n < |tasks| && ListsEach(tasks, list, slots, 2 * n)
      ensures ListsEach(tasks, list + OnePass(tasks[n].0, tasks[n].1, 0) + OnePass(tasks[n].0, tasks[n].1, 1), more,
                        2 * n + 2)
    {
      assert 2 * n / 2 == n && 2 * n % 2 == 0 && (2 * n + 1) / 2 == n && (2 * n + 1) % 2 == 1;
      more := SlotNext(tasks, list, slots, 2 * n);
      more := SlotNext(tasks, list + OnePass(tasks[n].0, tasks[n].1, 0), more, 2 * n + 1);
    }

    lemma SlotsWiden(tasks: seq<(string, string)>, list: seq<Pass>, slots: seq<nat>)
      requires tasks != [] && ListsEach(tasks[..|tasks| - 1], list, slots, 2 * (|tasks| - 1))
      ensures ListsEach(tasks, list, slots, 2 * (|tasks| - 1))
    {
      forall s: nat | s < 2 * (|tasks| - 1) ensures SlotListed(tasks, slots, s) {
        assert SlotListed(tasks[..|tasks| - 1], slots, s);
      }
    }

    /** The list of pending passes names each of them once, in task order. */
    lemma {:induction false} PendingInOrder(tasks: seq<(string, string)>) returns (slots: seq<nat>)
      ensures ListsEach(tasks, Claimables(tasks), slots, 2 * |tasks|)
    {
      if tasks == [] {
        slots := [];
      } else {
        var n := |tasks| - 1;
        var list := Claimables(tasks[..n]);
        slots := PendingInOrder(tasks[..n]);
        SlotsWiden(tasks, list, slots);
        slots := TaskNext(tasks, list, slots, n);
        TwoPasses(tasks);
      }
    }

    lemma TwoPasses(tasks: seq<(string, string)>)
      requires tasks != []
      ensures var (env, task) := tasks[|tasks| - 1];
        Claimables(tasks) == Claimables(tasks[..|tasks| - 1]) + OnePass(env, task, 0) + OnePass(env, task, 1)
    {
      var (env, task) := tasks[|tasks| - 1];
      assert Passes(env, task, 1) == OnePass(env, task, 0);
    }
  }
}
