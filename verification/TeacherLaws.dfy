/** What each cache call does, read off the records before and after; what makes a pass claimable
    again; and which files a cache refuses to open. */
module TeacherLaws {
  import opened Common
  import opened TeacherModel
  import opened TeacherRuns

  // ---------- keys ----------

  predicate AllBlank(s: string) { forall i | 0 <= i < |s| :: s[i] in {' ', '\t', '\n', '\r'} }

  /** The name without the blanks around it. */
  ghost predicate Stripped(s: string, r: string, a: string, b: string) {
    s == a + r + b && AllBlank(a) && AllBlank(b) &&
    (r != "" ==> r[0] !in {' ', '\t', '\n', '\r'} && r[|r| - 1] !in {' ', '\t', '\n', '\r'})
  }

  lemma {:induction false} LeftMeans(s: string) returns (a: string)
    ensures s == a + StripLeft(s) && AllBlank(a)
  {
    if s == [] || !Blank(s[0]) {
      a := [];
    } else {
      var rest := LeftMeans(s[1..]);
      a := [s[0]] + rest;
      assert s == [s[0]] + s[1..];
    }
  }

  lemma {:induction false} RightMeans(s: string) returns (b: string)
    ensures s == StripRight(s) + b && AllBlank(b)
  {
    if s == [] || !Blank(s[|s| - 1]) {
      b := [];
    } else {
      var n := |s| - 1;
      var rest := RightMeans(s[..n]);
      b := rest + [s[n]];
      assert s == s[..n] + [s[n]];
    }
  }

  /** Stripping takes away exactly the blanks at both ends. */
  lemma StripMeans(s: string)
    ensures exists a, b :: Stripped(s, Strip(s), a, b)
  {
    var a := LeftMeans(s);
    var b := RightMeans(StripLeft(s));
    StripLeftDone(s);
    StripRightDone(StripLeft(s));
    assert s == a + Strip(s) + b;
    assert Strip(s) != "" ==> Strip(s)[0] == StripLeft(s)[0];
    assert Stripped(s, Strip(s), a, b);
  }

  /** A pass key exists for non-blank names and index 0 or 1, and is env, task and index in order. */
  lemma PassKeyMeans(env: string, task: string, index: int)
    ensures PassKey(env, task, index).Ok? <==> Strip(env) != "" && Strip(task) != "" && (index == 0 || index == 1)
    ensures PassKey(env, task, index).Ok? ==>
      PassKey(env, task, index).value == Strip(env) + "::" + Strip(task) + "::" + (if index == 0 then "0" else "1")
  {
  }

  // ---------- what each call stores ----------

  /** Updating provenance replaces exactly the given entries. */
  lemma UpdatedMeans(base: Provenance, given: Provenance)
    ensures var p := Updated(base, given);
      p.taskKey == (if given.taskKey.Some? then given.taskKey else base.taskKey) &&
      p.envName == (if given.envName.Some? then given.envName else base.envName) &&
      p.taskId == (if given.taskId.Some? then given.taskId else base.taskId) &&
      p.passIndex == (if given.passIndex.Some? then given.passIndex else base.passIndex) &&
      p.thinking == (if given.thinking.Some? then given.thinking else base.thinking) &&
      p.reasoningEffort == (if given.reasoningEffort.Some? then given.reasoningEffort else base.reasoningEffort) &&
      p.poolHash == (if given.poolHash.Some? then given.poolHash else base.poolHash) &&
      forall k :: (k in p.others <==> k in base.others || k in given.others) &&
        (k in p.others ==> p.others[k] == if k in given.others then given.others[k] else base.others[k])
  {
  }

  /** The statistics other than the two recounted ones. */
  predicate OnlyRecounted(a: Stats, b: Stats) {
    a.valid == b.valid && a.invalid == b.invalid && a.abandoned == b.abandoned && a.apiErrors == b.apiErrors &&
    a.missingReasoning == b.missingReasoning && a.tokens == b.tokens
  }

  /** A claim is granted if and only if the pass is valid and its key has no record or one of a
      retryable error; then it stores an in-flight record with the request id, and nothing else. */
  lemma ClaimMeans(s: Settings, w: World, env: string, task: string, index: int, requestId: string,
                   given: Option<Provenance>)
    ensures var op, key := DoClaim(env, task, index, requestId, given), KeyOf(TaskKey(env, task), index);
      var free := ValidPass(env, task, index) && (key !in w.cache.records || w.cache.records[key].status == Error);
      var made := MakeProvenance(s, env, task, index);
      Claimed(s, w, op) == (if free then Some(requestId) else None) &&
      (!free ==> Step(s, w, op) == w) &&
      (free ==>
        Step(s, w, op).cache.records == w.cache.records[key :=
          Record(InFlight, Some(requestId), if given.Some? then Updated(made, given.value) else made, "", false)] &&
        OnlyRecounted(Step(s, w, op).cache.stats, w.cache.stats))
  {
  }

  /** A result is stored as given, a success only once, and counted as valid or invalid. */
  lemma ResultMeans(s: Settings, w: World, op: Op)
    requires op.DoRecordSuccess?
    ensures var key, p := OpKey(op), op.provenance;
      var done := key in w.cache.records && w.cache.records[key].status == Success;
      var refused := !ValidPass(op.env, op.task, op.index) ||
        (!done && !(p.taskKey == Some(TaskKey(op.env, op.task)) && p.passIndex == Some(op.index) &&
                    p.reasoningEffort.Some? && p.reasoningEffort.value != "" && p.thinking == Some("enabled")));
      var c, c' := w.cache, Step(s, w, op).cache;
      (Raises(s, w, op) <==> refused) &&
      (refused || done ==> Step(s, w, op) == w) &&
      (!refused && !done ==>
        c'.records == c.records[key := Record(if op.valid then Success else Invalid, None, p, op.trajectory, false)] &&
        c'.stats.valid == c.stats.valid + (if op.valid then 1 else 0) &&
        c'.stats.invalid == c.stats.invalid + (if op.valid then 0 else 1) &&
        c'.stats.tokens == c.stats.tokens + op.tokens && c'.stats.abandoned == c.stats.abandoned &&
        c'.stats.apiErrors == c.stats.apiErrors &&
        c'.stats.missingReasoning == c.stats.missingReasoning +
          if op.missing && op.missingCount < 1 then 1 else if op.missingCount > 0 then op.missingCount else 0)
  {
  }

  /** An error is stored as retryable or to be reconciled, over anything but a success. */
  lemma ErrorMeans(s: Settings, w: World, op: Op)
    requires op.DoRecordError?
    ensures var key, c, c' := OpKey(op), w.cache, Step(s, w, op).cache;
      var kept := !ValidPass(op.env, op.task, op.index) || (key in c.records && c.records[key].status == Success);
      var base := if key in c.records then c.records[key].provenance else MakeProvenance(s, op.env, op.task, op.index);
      (kept ==> Step(s, w, op) == w) &&
      (!kept ==>
        c'.records == c.records[key := Record(if op.retryable then Error else InFlight, None,
          if op.given.Some? then Updated(base, op.given.value) else base, op.error, !op.retryable)] &&
        c'.stats.apiErrors == c.stats.apiErrors + 1 &&
        OnlyRecounted(c'.stats.(apiErrors := c.stats.apiErrors), c.stats))
  {
  }

  /** Reconciling and abandoning touch only an in-flight record. */
  lemma InFlightMeans(s: Settings, w: World, op: Op)
    requires op.DoReconcile? || op.DoAbandon?
    ensures var key, c, c' := OpKey(op), w.cache, Step(s, w, op).cache;
      var flying := ValidPass(op.env, op.task, op.index) && key in c.records && c.records[key].status == InFlight;
      (!flying ==> Step(s, w, op) == w) &&
      (flying && op.DoReconcile? && op.retry ==> c'.records == c.records - {key}) &&
      (flying && op.DoReconcile? && !op.retry ==>
        c'.records == c.records[key := c.records[key].(status := Error, reconcileRequired := false)]) &&
      (flying && op.DoReconcile? ==> OnlyRecounted(c'.stats, c.stats)) &&
      (flying && op.DoAbandon? ==>
        c'.records == c.records[key := c.records[key].(status := Abandoned, reconcileRequired := false)] &&
        c'.stats.abandoned == c.stats.abandoned + 1 &&
        OnlyRecounted(c'.stats.(abandoned := c.stats.abandoned), c.stats))
  {
  }

  // ---------- claimable again ----------

  predicate Free(rs: Records, key: string) { key !in rs || rs[key].status == Error }

  /** A retryable error on a pass without success, or reconciling one in flight. */
  predicate SetsFree(w: World, op: Op, key: string) {
    !op.DoReload? && ValidPass(op.env, op.task, op.index) && OpKey(op) == key &&
    ((op.DoRecordError? && op.retryable && !(key in w.cache.records && w.cache.records[key].status == Success)) ||
     (op.DoReconcile? && key in w.cache.records && w.cache.records[key].status == InFlight))
  }

  /** A call on the key that stores another status than a retryable error. */
  predicate StoresOther(s: Settings, w: World, op: Op, key: string) {
    !op.DoReload? && OpKey(op) == key && !Raises(s, w, op) &&
    (op.DoClaim? || op.DoRecordSuccess? || (op.DoRecordError? && !op.retryable))
  }

  lemma StepSetsFree(s: Settings, w: World, op: Op, key: string)
    requires SetsFree(w, op, key)
    ensures Free(Step(s, w, op).cache.records, key)
  {
    if op.DoRecordError? { ErrorMeans(s, w, op); } else { InFlightMeans(s, w, op); }
  }

  lemma StepKeepsFree(s: Settings, w: World, op: Op, key: string)
    requires InStep(s, w) && Free(w.cache.records, key) && !StoresOther(s, w, op, key)
    ensures Free(Step(s, w, op).cache.records, key)
  {
    match op
    case DoReload => StepInStep(s, w, op);
    case DoClaim(env, task, index, requestId, given) => ClaimMeans(s, w, env, task, index, requestId, given);
    case DoRecordSuccess(_, _, _, _, _, _, _, _, _) => ResultMeans(s, w, op);
    case DoRecordError(_, _, _, _, _, _) => ErrorMeans(s, w, op);
    case DoReconcile(_, _, _, _) => InFlightMeans(s, w, op);
    case DoAbandon(_, _, _) => InFlightMeans(s, w, op);
  }

  ghost predicate StoredAt(s: Settings, ops: seq<Op>, m: nat, key: string) {
    m < |ops| && StoresOther(s, Run(s, ops[..m]), ops[m], key)
  }

  lemma FreedNext(s: Settings, ops: seq<Op>, i: nat, key: string)
    requires i < |ops| && SetsFree(Run(s, ops[..i]), ops[i], key)
    ensures Free(Run(s, ops[..i + 1]).cache.records, key)
  {
    RunPrefix(s, ops, i);
    StepSetsFree(s, Run(s, ops[..i]), ops[i], key);
  }

  lemma FreeNext(s: Settings, ops: seq<Op>, m: nat, key: string)
    requires m < |ops| && Free(Run(s, ops[..m]).cache.records, key) && !StoredAt(s, ops, m, key)
    ensures Free(Run(s, ops[..m + 1]).cache.records, key)
  {
    RunPrefix(s, ops, m);
    RunInStep(s, ops[..m]);
    StepKeepsFree(s, Run(s, ops[..m]), ops[m], key);
  }

  lemma {:induction false} StaysFree(s: Settings, ops: seq<Op>, i: nat, j: nat, key: string)
    requires i < j <= |ops| && SetsFree(Run(s, ops[..i]), ops[i], key)
    requires forall m: nat | i < m < j :: !StoredAt(s, ops, m, key)
    ensures Free(Run(s, ops[..j]).cache.records, key)
    decreases j
  {
    if j == i + 1 {
      FreedNext(s, ops, i, key);
    } else {
      var m := j - 1;
      StaysFree(s, ops, i, m, key);
      FreeNext(s, ops, m, key);
    }
  }

  lemma RunPrefix(s: Settings, ops: seq<Op>, m: nat)
    requires m < |ops|
    ensures Run(s, ops[..m + 1]) == Step(s, Run(s, ops[..m]), ops[m])
  {
    assert ops[..m + 1][..m] == ops[..m] && ops[..m + 1][m] == ops[m];
  }

  /** After a retryable error or a reconciliation, the next claim on the key is granted, unless some
      call on it in between stored another status. */
  lemma GrantedAgain(s: Settings, ops: seq<Op>, i: nat, j: nat, key: string)
    requires i < j < |ops| && SetsFree(Run(s, ops[..i]), ops[i], key)
    requires forall m: nat | i < m < j :: !StoredAt(s, ops, m, key)
    requires ops[j].DoClaim? && ValidPass(ops[j].env, ops[j].task, ops[j].index) && OpKey(ops[j]) == key
    ensures Claimed(s, Run(s, ops[..j]), ops[j]) == Some(ops[j].requestId)
  {
    StaysFree(s, ops, i, j, key);
    ClaimMeans(s, Run(s, ops[..j]), ops[j].env, ops[j].task, ops[j].index, ops[j].requestId, ops[j].given);
  }

  // ---------- which files open ----------

  /** Under a clear name, a record whose task key is its own or missing loads if and only if no other
      entry contradicts the pass or the task pool. */
  lemma LoadableIff(s: Settings, env: string, task: string, index: int, r: Record)
    requires ValidPass(env, task, index) && ClearName(Strip(env))
    requires r.provenance.taskKey == None || r.provenance.taskKey == Some(TaskKey(env, task))
    ensures var p := r.provenance;
      Loadable(s, KeyOf(TaskKey(env, task), index), r) <==>
        (p.passIndex == None || p.passIndex == Some(index)) &&
        (p.envName == None || p.envName == Some("") || p.envName == Some(Strip(env))) &&
        (p.taskId == None || p.taskId == Some("") || p.taskId == Some(Strip(task))) &&
        (s.poolHash == "" || p.poolHash == None || p.poolHash == Some("") || p.poolHash == Some(s.poolHash))
  {
    var key := KeyOf(TaskKey(env, task), index);
    StripIdempotent(env);
    StripIdempotent(task);
    SeparatorAfterName(Strip(env), Strip(task), 0);
    TaskKeyParts(Strip(env), Strip(task));
    assert key[..|key| - 3] == TaskKey(env, task);
    assert IndexInKey(key) == Some(index) && TaskInKey(key) == Some(TaskKey(env, task));
    assert key[|key| - 1..] == IndexText(index);
    if r.provenance.passIndex.Some? && PassKey(Strip(env), Strip(task), r.provenance.passIndex.value) == Ok(key) {
      KeyNamesTask(TaskKey(env, task), TaskKey(env, task), index, r.provenance.passIndex.value);
    }
  }

  /** A record whose task key names another pass is refused. */
  lemma OtherTaskRefused(s: Settings, env: string, task: string, index: int, env': string, task': string, r: Record)
    requires ValidPass(env, task, index) && ClearName(Strip(env)) && ClearName(Strip(env'))
    requires r.provenance.taskKey == Some(TaskKey(env', task'))
    requires (Strip(env') != Strip(env) || Strip(task') != Strip(task))
    ensures !Loadable(s, KeyOf(TaskKey(env, task), index), r)
  {
    StripIdempotent(env');
    StripIdempotent(task');
    SeparatorAfterName(Strip(env'), Strip(task'), 0);
    TaskKeyParts(Strip(env'), Strip(task'));
    if Loadable(s, KeyOf(TaskKey(env, task), index), r) {
      var index' := if r.provenance.passIndex.Some? then r.provenance.passIndex.value
        else IndexInKey(KeyOf(TaskKey(env, task), index)).value;
      KeyNamesPass(env, task, index, env', task', index');
    }
  }

  /** A readable file opens if and only if its schema is known, its run id is missing or the same,
      and every record loads; the cache then holds exactly its records. */
  lemma OpenIff(s: Settings, schema: string, runId: string, c: Cache)
    ensures Open(s, Unreadable).Err?
    ensures Open(s, File(schema, runId, c)).Ok? <==>
      schema == "travelgym-teacher-cache-v1" && (runId == "" || runId == s.runId) &&
      forall k | k in c.records :: Loadable(s, k, c.records[k])
    ensures Open(s, File(schema, runId, c)).Ok? ==>
      Open(s, File(schema, runId, c)).value.records == c.records &&
      OnlyRecounted(Open(s, File(schema, runId, c)).value.stats, c.stats)
  {
  }

  // ---------- the recounted statistics ----------

  /** Refreshing recounts passes in flight and tasks with both passes recorded as successes. */
  lemma RefreshMeans(c: Cache)
    ensures Refresh(c).records == c.records && OnlyRecounted(Refresh(c).stats, c.stats)
    ensures Refresh(c).stats.inFlight == |set k | k in c.records && c.records[k].status == InFlight|
    ensures Refresh(c).stats.completed == |CompletedTasks(c.records)|
    ensures forall t :: t in CompletedTasks(c.records) <==> BothDone(c.records, t)
  {
    forall t ensures t in CompletedTasks(c.records) <==> BothDone(c.records, t) {
      if BothDone(c.records, t) {
        var k :| DoneBy(c.records, t, 0, k);
        var k' :| DoneBy(c.records, t, 1, k');
        assert NamedTask(c.records[k]) == t;
        assert PassDone(c.records, t, 0) && PassDone(c.records, t, 1);
      }
      if t in CompletedTasks(c.records) {
        var k :| k in c.records && c.records[k].status == Success && c.records[k].provenance.taskKey == Some(t) &&
          c.records[k].provenance.passIndex == Some(0);
        var k' :| k' in c.records && c.records[k'].status == Success && c.records[k'].provenance.taskKey == Some(t) &&
          c.records[k'].provenance.passIndex == Some(1);
        assert DoneBy(c.records, t, 0, k) && DoneBy(c.records, t, 1, k');
      }
    }
  }

  ghost predicate BothDone(rs: Records, t: string) {
    (exists k :: DoneBy(rs, t, 0, k)) && exists k :: DoneBy(rs, t, 1, k)
  }

  predicate DoneBy(rs: Records, t: string, index: int, k: string) {
    k in rs && rs[k].status == Success && rs[k].provenance.taskKey == Some(t) &&
    rs[k].provenance.passIndex == Some(index)
  }
}
