/** Whole runs of the teacher cache, with saving and reloading: what is billed once, what the
    statistics count, and what a reload restores. */
module TeacherRuns {
  import opened Common
  import opened TeacherModel

  /** The cache in memory and its file. */
  datatype World = World(cache: Cache, file: Saved)

  datatype Op =
    | DoClaim(env: string, task: string, index: int, requestId: string, given: Option<Provenance>)
    | DoRecordSuccess(env: string, task: string, index: int, provenance: Provenance, trajectory: string,
                      tokens: int, valid: bool, missing: bool, missingCount: int)
    | DoReconcile(env: string, task: string, index: int, retry: bool)
    | DoAbandon(env: string, task: string, index: int)
    | DoRecordError(env: string, task: string, index: int, error: string, retryable: bool, given: Option<Provenance>)
    | DoReload

  function OpKey(op: Op): string
    requires !op.DoReload?
  {
    KeyOf(TaskKey(op.env, op.task), op.index)
  }

  predicate Raises(s: Settings, w: World, op: Op) {
    if op.DoReload? then Open(s, w.file).Err?
    else if !ValidPass(op.env, op.task, op.index) then true
    else op.DoRecordSuccess? && !HasStatus(w.cache.records, OpKey(op), Success) &&
         !SuccessAllowed(op.env, op.task, op.index, op.provenance)
  }

  /** The cache after a call, if the call changes it. */
  function Effect(s: Settings, c: Cache, op: Op): Option<Cache>
    requires !op.DoReload?
  {
    var key := OpKey(op);
    match op
    case DoClaim(env, task, index, requestId, given) =>
      if Blocked(c.records, key) then None
      else Some(Claim(c, key, requestId, Chosen(MakeProvenance(s, env, task, index), given)))
    case DoRecordSuccess(_, _, _, p, trajectory, tokens, valid, missing, missingCount) =>
      if HasStatus(c.records, key, Success) then None
      else Some(RecordSuccess(c, key, p, trajectory, tokens, valid, missing, missingCount))
    case DoReconcile(_, _, _, retry) =>
      if HasStatus(c.records, key, InFlight) then Some(Reconcile(c, key, retry)) else None
    case DoAbandon(_, _, _) =>
      if HasStatus(c.records, key, InFlight) then Some(Abandon(c, key)) else None
    case DoRecordError(env, task, index, error, retryable, given) =>
      if HasStatus(c.records, key, Success) then None
      else Some(RecordError(c, key, error, retryable, MakeProvenance(s, env, task, index), given))
  }

  /** A call either raises, leaves everything alone, or changes the cache and writes the file. */
  function Step(s: Settings, w: World, op: Op): World {
    if Raises(s, w, op) then w
    else if op.DoReload? then World(Open(s, w.file).value, w.file)
    else match Effect(s, w.cache, op)
      case None => w
      case Some(c) => World(c, File(SCHEMA_VERSION, s.runId, c))
  }

  /** What a claim returns. */
  function Claimed(s: Settings, w: World, op: Op): Option<string> {
    if op.DoClaim? && !Raises(s, w, op) && !Blocked(w.cache.records, OpKey(op)) then Some(op.requestId) else None
  }

  const EMPTY_WORLD := World(Refresh(Cache(map[], EMPTY_STATS)), NoFile)

  function Run(s: Settings, ops: seq<Op>): World {
    if ops == [] then EMPTY_WORLD else Step(s, Run(s, ops[..|ops| - 1]), ops[|ops| - 1])
  }

  // ---------- the file follows the cache ----------

  ghost predicate InStep(s: Settings, w: World) {
    w.cache == Refresh(w.cache) &&
    match w.file
    case NoFile => w.cache == EMPTY_WORLD.cache
    case Unreadable => false
    case File(schema, runId, c) => schema == SCHEMA_VERSION && runId == s.runId && c == w.cache
  }

  lemma StepInStep(s: Settings, w: World, op: Op)
    requires InStep(s, w)
    ensures InStep(s, Step(s, w, op)) && (op.DoReload? ==> Step(s, w, op) == w)
  {
  }

  lemma {:induction false} RunInStep(s: Settings, ops: seq<Op>)
    ensures InStep(s, Run(s, ops))
  {
    if ops == [] {
      assert KeysWith(map[], InFlight) == {} && CompletedTasks(map[]) == {};
    } else {
      RunInStep(s, ops[..|ops| - 1]);
      StepInStep(s, Run(s, ops[..|ops| - 1]), ops[|ops| - 1]);
    }
  }

  // ---------- a success record never changes ----------

  lemma StepKeepsSuccess(s: Settings, w: World, op: Op, key: string)
    requires InStep(s, w) && HasStatus(w.cache.records, key, Success)
    ensures HasStatus(Step(s, w, op).cache.records, key, Success)
    ensures Step(s, w, op).cache.records[key] == w.cache.records[key]
  {
    StepInStep(s, w, op);
  }

  /** In every run, whatever is called later, a recorded success stays exactly as recorded. */
  lemma {:induction false} SuccessNeverChanges(s: Settings, ops: seq<Op>, n: nat, key: string)
    requires n <= |ops| && HasStatus(Run(s, ops[..n]).cache.records, key, Success)
    ensures key in Run(s, ops).cache.records && Run(s, ops).cache.records[key] == Run(s, ops[..n]).cache.records[key]
    decreases |ops|
  {
    if n == |ops| {
      assert ops[..n] == ops;
    } else {
      var before := ops[..|ops| - 1];
      assert before[..n] == ops[..n];
      SuccessNeverChanges(s, before, n, key);
      RunInStep(s, before);
      StepKeepsSuccess(s, Run(s, before), ops[|ops| - 1], key);
    }
  }

  // ---------- no pass is billed twice ----------

  /** The calls that may free a pass for another paid request. */
  predicate Frees(op: Op, key: string) {
    (op.DoReconcile? && OpKey(op) == key) || (op.DoRecordError? && op.retryable && OpKey(op) == key)
  }

  lemma StepKeepsBlocked(s: Settings, w: World, op: Op, key: string)
    requires InStep(s, w) && Blocked(w.cache.records, key) && !Frees(op, key)
    ensures Blocked(Step(s, w, op).cache.records, key)
  {
    StepInStep(s, w, op);
  }

  lemma {:induction false} StaysBlocked(s: Settings, ops: seq<Op>, n: nat, key: string)
    requires n <= |ops| && Blocked(Run(s, ops[..n]).cache.records, key)
    requires forall m | n <= m < |ops| :: !Frees(ops[m], key)
    ensures Blocked(Run(s, ops).cache.records, key)
    decreases |ops|
  {
    if n == |ops| {
      assert ops[..n] == ops;
    } else {
      var before := ops[..|ops| - 1];
      assert before[..n] == ops[..n];
      StaysBlocked(s, before, n, key);
      RunInStep(s, before);
      StepKeepsBlocked(s, Run(s, before), ops[|ops| - 1], key);
    }
  }

  lemma ClaimBlocks(s: Settings, w: World, op: Op)
    requires Claimed(s, w, op).Some?
    ensures Blocked(Step(s, w, op).cache.records, OpKey(op))
  {
  }

  lemma ClaimedStaysBlocked(s: Settings, ops: seq<Op>, i: nat, j: nat)
    requires i < j < |ops| && Claimed(s, Run(s, ops[..i]), ops[i]).Some?
    requires forall m | i < m < j :: !Frees(ops[m], OpKey(ops[i]))
    ensures Blocked(Run(s, ops[..j]).cache.records, OpKey(ops[i]))
  {
    var before := ops[..j];
    assert ops[..i + 1][..i] == ops[..i] && before[..i + 1] == ops[..i + 1];
    ClaimBlocks(s, Run(s, ops[..i]), ops[i]);
    StaysBlocked(s, before, i + 1, OpKey(ops[i]));
  }

  /** Two claims on one key that both return a request id are separated by a reconciliation or a
      retryable error on that key, whatever else happens between them. */
  lemma ClaimsAreSeparated(s: Settings, ops: seq<Op>, i: nat, j: nat)
    requires i < j < |ops| && Claimed(s, Run(s, ops[..i]), ops[i]).Some? && Claimed(s, Run(s, ops[..j]), ops[j]).Some?
    requires OpKey(ops[i]) == OpKey(ops[j])
    ensures exists m :: i < m < j && Frees(ops[m], OpKey(ops[i]))
  {
    if forall m | i < m < j :: !Frees(ops[m], OpKey(ops[i])) { ClaimedStaysBlocked(s, ops, i, j); }
  }

  // ---------- keys and provenance of honest runs ----------

  lemma {:induction false} StripLeftDone(s: string)
    ensures StripLeft(s) == [] || !Blank(StripLeft(s)[0])
  {
    if s == [] || !Blank(s[0]) {
    } else {
      StripLeftDone(s[1..]);
    }
  }

  lemma {:induction false} StripRightDone(s: string)
    ensures StripRight(s) <= s && (StripRight(s) == [] || !Blank(StripRight(s)[|StripRight(s)| - 1]))
    ensures s != [] && !Blank(s[0]) ==> StripRight(s) != []
  {
    if s == [] || !Blank(s[|s| - 1]) {
    } else {
      StripRightDone(s[..|s| - 1]);
    }
  }

  lemma StripIdempotent(s: string)
    ensures Strip(Strip(s)) == Strip(s)
  {
    StripLeftDone(s);
    StripRightDone(StripLeft(s));
  }

  /** The name holds no "::" and does not end in a colon. */
  predicate ClearName(env: string) { FirstSeparator(env + ":", 0) == None }

  lemma {:induction false} SeparatorAfterName(env: string, task: string, from: nat)
    requires from <= |env|
    ensures FirstSeparator(env + "::" + task, from) == Some(|env|) <==> FirstSeparator(env + ":", from) == None
    decreases |env| - from
  {
    var s, t := env + "::" + task, env + ":";
    if from == |env| {
      assert s[from] == ':' && s[from + 1] == ':';
    } else {
      assert s[from] == t[from] && s[from + 1] == t[from + 1];
      SeparatorAfterName(env, task, from + 1);
    }
  }

  /** A name without any colon is clear. */
  lemma {:induction false} NoColonIsClear(env: string, from: nat)
    requires ':' !in env && from <= |env|
    ensures FirstSeparator(env + ":", from) == None
    decreases |env| - from
  {
    if from == |env| {
    } else {
      assert (env + ":")[from] == env[from] && env[from] in env;
      NoColonIsClear(env, from + 1);
    }
  }

  /** No entry of the provenance speaks of another pass or another task pool; entries may be missing. */
  predicate Agrees(s: Settings, p: Provenance, env: string, task: string, index: int) {
    (p.taskKey.Some? ==> p.taskKey.value == TaskKey(env, task)) && (p.passIndex.Some? ==> p.passIndex.value == index) &&
    MissingOr(p.envName, Strip(env)) && MissingOr(p.taskId, Strip(task)) && PoolFits(s, p)
  }

  /** Clear environment names, and given provenance that agrees with the pass. */
  predicate Honest(s: Settings, op: Op) {
    op.DoReload? || (
    ClearName(Strip(op.env)) &&
    match op
    case DoClaim(env, task, index, _, given) => given.Some? ==> Agrees(s, given.value, env, task, index)
    case DoRecordSuccess(env, task, index, p, _, _, _, _, _) => Agrees(s, p, env, task, index)
    case DoRecordError(env, task, index, _, _, given) => given.Some? ==> Agrees(s, given.value, env, task, index)
    case _ => true)
  }

  /** The key is that of a pass with a clear name, and the provenance agrees with that pass. */
  ghost predicate Consistent(s: Settings, key: string, p: Provenance) {
    exists env, task, index :: ConsistentWith(s, key, p, env, task, index)
  }

  predicate ConsistentWith(s: Settings, key: string, p: Provenance, env: string, task: string, index: int) {
    ValidPass(env, task, index) && ClearName(Strip(env)) && key == KeyOf(TaskKey(env, task), index) &&
    Agrees(s, p, env, task, index)
  }

  /** Key and provenance name the same pass, and a success names it in full. */
  ghost predicate RecordFits(s: Settings, key: string, r: Record) {
    Consistent(s, key, r.provenance) &&
    (r.status == Success ==> r.provenance.taskKey.Some? && r.provenance.passIndex.Some?)
  }

  ghost predicate AllConsistent(s: Settings, rs: Records) {
    forall k | k in rs :: RecordFits(s, k, rs[k])
  }

  lemma KeyNamesTask(taskKey: string, taskKey': string, index: int, index': int)
    requires KeyOf(taskKey, index) == KeyOf(taskKey', index')
    ensures taskKey == taskKey' && IndexText(index) == IndexText(index')
  {
    var n := |KeyOf(taskKey, index)|;
    assert KeyOf(taskKey, index)[..n - 3] == taskKey && KeyOf(taskKey', index')[..n - 3] == taskKey';
    assert KeyOf(taskKey, index)[n - 1..] == IndexText(index) && KeyOf(taskKey', index')[n - 1..] == IndexText(index');
  }

  /** With clear names the key determines the pass. */
  lemma KeyNamesPass(env: string, task: string, index: int, env': string, task': string, index': int)
    requires ValidPass(env, task, index) && ValidPass(env', task', index') && ClearName(Strip(env)) &&
      ClearName(Strip(env'))
    requires KeyOf(TaskKey(env, task), index) == KeyOf(TaskKey(env', task'), index')
    ensures Strip(env) == Strip(env') && Strip(task) == Strip(task') && index == index'
  {
    KeyNamesTask(TaskKey(env, task), TaskKey(env', task'), index, index');
    SeparatorAfterName(Strip(env), Strip(task), 0);
    SeparatorAfterName(Strip(env'), Strip(task'), 0);
    TaskKeyParts(Strip(env), Strip(task));
    TaskKeyParts(Strip(env'), Strip(task'));
  }

  lemma TaskKeyParts(env: string, task: string)
    ensures (env + "::" + task)[..|env|] == env && (env + "::" + task)[|env| + 2..] == task
  {
  }

  /** Under a clear name, agreeing provenance loads. */
  lemma AgreeingLoads(s: Settings, key: string, r: Record, env: string, task: string, index: int)
    requires ConsistentWith(s, key, r.provenance, env, task, index)
    ensures Loadable(s, key, r)
  {
    StripIdempotent(env);
    StripIdempotent(task);
    SeparatorAfterName(Strip(env), Strip(task), 0);
    TaskKeyParts(Strip(env), Strip(task));
    assert key[..|key| - 3] == TaskKey(env, task);
    assert IndexInKey(key) == Some(index) && TaskInKey(key) == Some(TaskKey(env, task));
  }

  lemma ChosenAgrees(s: Settings, base: Provenance, given: Option<Provenance>, env: string, task: string, index: int)
    requires Agrees(s, base, env, task, index) && (given.Some? ==> Agrees(s, given.value, env, task, index))
    ensures Agrees(s, Chosen(base, given), env, task, index)
  {
  }

  /** What a call leaves under its own key agrees with its pass, if what was there did. */
  lemma EffectAgrees(s: Settings, c: Cache, op: Op)
    requires !op.DoReload? && Honest(s, op) && Effect(s, c, op).Some? && OpKey(op) in Effect(s, c, op).value.records
    requires OpKey(op) in c.records ==> Agrees(s, c.records[OpKey(op)].provenance, op.env, op.task, op.index)
    ensures Agrees(s, Effect(s, c, op).value.records[OpKey(op)].provenance, op.env, op.task, op.index)
  {
    var made := MakeProvenance(s, op.env, op.task, op.index);
    match op
    case DoClaim(env, task, index, _, given) => ChosenAgrees(s, made, given, env, task, index);
    case DoRecordError(env, task, index, _, _, given) =>
      var base := if OpKey(op) in c.records then c.records[OpKey(op)].provenance else made;
      ChosenAgrees(s, base, given, env, task, index);
    case _ =>
  }

  lemma EffectElsewhere(s: Settings, c: Cache, op: Op, k: string)
    requires !op.DoReload? && Effect(s, c, op).Some? && k in Effect(s, c, op).value.records
    ensures k != OpKey(op) ==> k in c.records && Effect(s, c, op).value.records[k] == c.records[k]
    ensures Effect(s, c, op).value.records[k].status == Success ==>
      (k in c.records && Effect(s, c, op).value.records[k] == c.records[k]) ||
      (op.DoRecordSuccess? && Effect(s, c, op).value.records[k].provenance == op.provenance)
  {
  }

  lemma RecordAgrees(s: Settings, k: string, r: Record, env: string, task: string, index: int)
    requires RecordFits(s, k, r) && ValidPass(env, task, index) && ClearName(Strip(env)) &&
      k == KeyOf(TaskKey(env, task), index)
    ensures Agrees(s, r.provenance, env, task, index)
  {
    var env', task', index' :| ConsistentWith(s, k, r.provenance, env', task', index');
    KeyNamesPass(env', task', index', env, task, index);
  }

  /** A call leaves each record alone, or its own pass keeps provenance that agrees with it. */
  lemma EffectFits(s: Settings, w: World, op: Op, k: string)
    requires !op.DoReload? && Honest(s, op) && !Raises(s, w, op) && Effect(s, w.cache, op).Some?
    requires AllConsistent(s, w.cache.records) && k in Effect(s, w.cache, op).value.records
    ensures RecordFits(s, k, Effect(s, w.cache, op).value.records[k])
  {
    var c := w.cache;
    EffectElsewhere(s, c, op, k);
    if k in c.records { assert RecordFits(s, k, c.records[k]); }
    if k == OpKey(op) {
      if k in c.records { RecordAgrees(s, k, c.records[k], op.env, op.task, op.index); }
      EffectAgrees(s, c, op);
      assert ConsistentWith(s, k, Effect(s, c, op).value.records[k].provenance, op.env, op.task, op.index);
    }
  }

  lemma StepConsistent(s: Settings, w: World, op: Op)
    requires InStep(s, w) && AllConsistent(s, w.cache.records) && Honest(s, op)
    ensures AllConsistent(s, Step(s, w, op).cache.records)
  {
    if op.DoReload? {
      StepInStep(s, w, op);
    } else if !Raises(s, w, op) && Effect(s, w.cache, op).Some? {
      var c := Effect(s, w.cache, op).value;
      forall k | k in c.records ensures RecordFits(s, k, c.records[k]) { EffectFits(s, w, op, k); }
    }
  }

  ghost predicate HonestRun(s: Settings, ops: seq<Op>) {
    forall i | 0 <= i < |ops| :: Honest(s, ops[i])
  }

  lemma {:induction false} RunConsistent(s: Settings, ops: seq<Op>)
    requires HonestRun(s, ops)
    ensures AllConsistent(s, Run(s, ops).cache.records)
  {
    if ops == [] {
    } else {
      RunConsistent(s, ops[..|ops| - 1]);
      RunInStep(s, ops[..|ops| - 1]);
      StepConsistent(s, Run(s, ops[..|ops| - 1]), ops[|ops| - 1]);
    }
  }

  /** After every honest run the saved file opens again, to the same records and statistics. */
  lemma ReloadRestores(s: Settings, ops: seq<Op>)
    requires HonestRun(s, ops)
    ensures Open(s, Run(s, ops).file) == Ok(Run(s, ops).cache)
  {
    RunInStep(s, ops);
    RunConsistent(s, ops);
    var w := Run(s, ops);
    forall k | k in w.cache.records ensures Loadable(s, k, w.cache.records[k]) {
      assert RecordFits(s, k, w.cache.records[k]);
      var env, task, index :| ConsistentWith(s, k, w.cache.records[k].provenance, env, task, index);
      AgreeingLoads(s, k, w.cache.records[k], env, task, index);
    }
  }

  /** The name check is exact: a record made for a pass loads again if and only if the
      environment name is clear. */
  lemma LoadsIffClearName(s: Settings, env: string, task: string, index: int, r: Record)
    requires ValidPass(env, task, index) && r.provenance == MakeProvenance(s, env, task, index)
    ensures Loadable(s, KeyOf(TaskKey(env, task), index), r) <==> ClearName(Strip(env))
  {
    SeparatorAfterName(Strip(env), Strip(task), 0);
    if ClearName(Strip(env)) { AgreeingLoads(s, KeyOf(TaskKey(env, task), index), r, env, task, index); }
  }

  // ---------- when a run leaves a file that opens ----------

  /** Every provenance the caller gives is the one `make_provenance` makes for the pass. */
  predicate GivesMade(s: Settings, op: Op) {
    match op
    case DoClaim(env, task, index, _, given) => given.Some? ==> given.value == MakeProvenance(s, env, task, index)
    case DoRecordSuccess(env, task, index, p, _, _, _, _, _) => p == MakeProvenance(s, env, task, index)
    case DoRecordError(env, task, index, _, _, given) =>
      given.Some? ==> given.value == MakeProvenance(s, env, task, index)
    case _ => true
  }

  ghost predicate MadeRun(s: Settings, ops: seq<Op>) {
    forall i | 0 <= i < |ops| :: GivesMade(s, ops[i])
  }

  /** The record's provenance is the one made for some pass with the record's key. */
  ghost predicate MadeRecord(s: Settings, key: string, r: Record) {
    exists env, task, index :: MadeWith(s, key, r, env, task, index)
  }

  predicate MadeWith(s: Settings, key: string, r: Record, env: string, task: string, index: int) {
    ValidPass(env, task, index) && key == KeyOf(TaskKey(env, task), index) &&
    r.provenance == MakeProvenance(s, env, task, index)
  }

  ghost predicate AllMade(s: Settings, rs: Records) {
    forall k | k in rs :: MadeRecord(s, k, rs[k])
  }

  lemma UpdatedMade(s: Settings, env: string, task: string, index: int, env': string, task': string, index': int)
    ensures Updated(MakeProvenance(s, env, task, index), MakeProvenance(s, env', task', index')) ==
      MakeProvenance(s, env', task', index')
  {
    assert s.others + s.others == s.others;
  }

  /** What a call leaves under its own key: what was there, or what is made for its own pass. */
  lemma EffectMade(s: Settings, c: Cache, op: Op)
    requires !op.DoReload? && GivesMade(s, op) && Effect(s, c, op).Some? && OpKey(op) in Effect(s, c, op).value.records
    requires OpKey(op) in c.records ==> MadeRecord(s, OpKey(op), c.records[OpKey(op)])
    ensures var p := Effect(s, c, op).value.records[OpKey(op)].provenance;
      p == MakeProvenance(s, op.env, op.task, op.index) ||
        (OpKey(op) in c.records && p == c.records[OpKey(op)].provenance)
  {
    UpdatedMade(s, op.env, op.task, op.index, op.env, op.task, op.index);
    if OpKey(op) in c.records {
      var env, task, index :| MadeWith(s, OpKey(op), c.records[OpKey(op)], env, task, index);
      UpdatedMade(s, env, task, index, op.env, op.task, op.index);
    }
  }

  lemma StepMade(s: Settings, w: World, op: Op)
    requires InStep(s, w) && AllMade(s, w.cache.records) && GivesMade(s, op)
    ensures AllMade(s, Step(s, w, op).cache.records)
  {
    if op.DoReload? {
      StepInStep(s, w, op);
    } else if !Raises(s, w, op) && Effect(s, w.cache, op).Some? {
      var c := Effect(s, w.cache, op).value;
      forall k | k in c.records ensures MadeRecord(s, k, c.records[k]) { RecordMade(s, w, op, k); }
    }
  }

  lemma RecordMade(s: Settings, w: World, op: Op, k: string)
    requires !op.DoReload? && GivesMade(s, op) && !Raises(s, w, op) && Effect(s, w.cache, op).Some?
    requires AllMade(s, w.cache.records) && k in Effect(s, w.cache, op).value.records
    ensures MadeRecord(s, k, Effect(s, w.cache, op).value.records[k])
  {
    var c, r := w.cache, Effect(s, w.cache, op).value.records[k];
    EffectElsewhere(s, c, op, k);
    if k in c.records { assert MadeRecord(s, k, c.records[k]); }
    if k == OpKey(op) {
      EffectMade(s, c, op);
      if r.provenance == MakeProvenance(s, op.env, op.task, op.index) {
        assert MadeWith(s, k, r, op.env, op.task, op.index);
      } else {
        var env, task, index :| MadeWith(s, k, c.records[k], env, task, index);
        assert MadeWith(s, k, r, env, task, index);
      }
    }
  }

  lemma {:induction false} RunMade(s: Settings, ops: seq<Op>)
    requires MadeRun(s, ops)
    ensures AllMade(s, Run(s, ops).cache.records)
  {
    if ops == [] {
    } else {
      RunMade(s, ops[..|ops| - 1]);
      RunInStep(s, ops[..|ops| - 1]);
      StepMade(s, Run(s, ops[..|ops| - 1]), ops[|ops| - 1]);
    }
  }

  /** The environment the record's provenance names. */
  predicate NamesClearly(r: Record) { r.provenance.envName.Some? && ClearName(r.provenance.envName.value) }

  /** After every run whose given provenance is made for its pass, the file opens if and only if
      every stored record names a clear environment; and then the cache is restored. */
  lemma RunOpensIff(s: Settings, ops: seq<Op>)
    requires MadeRun(s, ops)
    ensures var w := Run(s, ops);
      (Open(s, w.file).Ok? <==> forall k | k in w.cache.records :: NamesClearly(w.cache.records[k])) &&
      (Open(s, w.file).Ok? ==> Open(s, w.file) == Ok(w.cache))
  {
    RunInStep(s, ops);
    RunMade(s, ops);
    var w := Run(s, ops);
    forall k | k in w.cache.records ensures Loadable(s, k, w.cache.records[k]) <==> NamesClearly(w.cache.records[k]) {
      assert MadeRecord(s, k, w.cache.records[k]);
      var env, task, index :| MadeWith(s, k, w.cache.records[k], env, task, index);
      LoadsIffClearName(s, env, task, index, w.cache.records[k]);
    }
  }

  /** So one claim for an environment named a::b leaves a file that no longer opens. */
  lemma ColonPairBreaksReload(s: Settings)
    ensures var op := DoClaim("a::b", "t", 0, "id", None);
      Claimed(s, EMPTY_WORLD, op) == Some("id") && Open(s, Step(s, EMPTY_WORLD, op).file).Err?
  {
    var op := DoClaim("a::b", "t", 0, "id", None);
    assert StripLeft("a::b") == "a::b" && StripRight("a::b") == "a::b";
    assert StripLeft("t") == "t" && StripRight("t") == "t";
    var key := OpKey(op);
    var records := Step(s, EMPTY_WORLD, op).cache.records;
    assert FirstSeparator("a::b:", 1) == Some(1);
    LoadsIffClearName(s, "a::b", "t", 0, records[key]);
    assert key in records && !Loadable(s, key, records[key]);
  }

  // ---------- the statistics are exact ----------

  lemma KeysAfterUpdate(rs: Records, key: string, r: Record, status: Status)
    ensures KeysWith(rs[key := r], status) ==
      if r.status == status then KeysWith(rs, status) + {key} else KeysWith(rs, status) - {key}
  {
  }

  lemma EffectCountsValid(s: Settings, c: Cache, op: Op)
    requires !op.DoReload? && Effect(s, c, op).Some? && c.stats.valid == |KeysWith(c.records, Success)|
    ensures var c' := Effect(s, c, op).value; c'.stats.valid == |KeysWith(c'.records, Success)|
  {
    var key, c' := OpKey(op), Effect(s, c, op).value;
    assert key !in KeysWith(c.records, Success);
    if op.DoReconcile? && op.retry {
      assert KeysWith(c'.records, Success) == KeysWith(c.records, Success);
    } else {
      assert c'.records == c.records[key := c'.records[key]];
      KeysAfterUpdate(c.records, key, c'.records[key], Success);
    }
  }

  function Tally(stats: Stats, abandoned: bool): int { if abandoned then stats.abandoned else stats.invalid }
  function Tallied(abandoned: bool): Status { if abandoned then Abandoned else Invalid }

  /** The call replaces a record of the tallied status: an error or another result recorded for a
      pass that is invalid or abandoned.  A caller can see it coming. */
  predicate Overwrites(s: Settings, w: World, op: Op, abandoned: bool) {
    (op.DoRecordError? || op.DoRecordSuccess?) && !Raises(s, w, op) &&
    HasStatus(w.cache.records, OpKey(op), Tallied(abandoned))
  }

  /** How many calls of a run overwrote such a record. */
  function Lost(s: Settings, ops: seq<Op>, abandoned: bool): nat {
    if ops == [] then 0 else
      var before := ops[..|ops| - 1];
      Lost(s, before, abandoned) + if Overwrites(s, Run(s, before), ops[|ops| - 1], abandoned) then 1 else 0
  }

  lemma StepTally(s: Settings, w: World, op: Op, abandoned: bool)
    requires InStep(s, w)
    ensures var w', status := Step(s, w, op), Tallied(abandoned);
      Tally(w'.cache.stats, abandoned) - |KeysWith(w'.cache.records, status)| ==
      Tally(w.cache.stats, abandoned) - |KeysWith(w.cache.records, status)| +
      if Overwrites(s, w, op, abandoned) then 1 else 0
  {
    if op.DoReload? {
      StepInStep(s, w, op);
    } else if !Raises(s, w, op) && Effect(s, w.cache, op).Some? {
      EffectTally(s, w, op, abandoned);
    }
  }

  lemma EffectTally(s: Settings, w: World, op: Op, abandoned: bool)
    requires !op.DoReload? && !Raises(s, w, op) && Effect(s, w.cache, op).Some?
    ensures var c', status := Effect(s, w.cache, op).value, Tallied(abandoned);
      Tally(c'.stats, abandoned) - |KeysWith(c'.records, status)| ==
      Tally(w.cache.stats, abandoned) - |KeysWith(w.cache.records, status)| +
      if Overwrites(s, w, op, abandoned) then 1 else 0
  {
    var key, status, c' := OpKey(op), Tallied(abandoned), Effect(s, w.cache, op).value;
    if op.DoReconcile? && op.retry {
      assert KeysWith(c'.records, status) == KeysWith(w.cache.records, status);
    } else {
      assert c'.records == w.cache.records[key := c'.records[key]];
      KeysAfterUpdate(w.cache.records, key, c'.records[key], status);
    }
  }

  /** `invalid_trajectories` and `abandoned_trajectories` count events: in every run they are the
      number of such records plus the number of records lost to overwriting calls. */
  lemma {:induction false} TalliesCount(s: Settings, ops: seq<Op>, abandoned: bool)
    ensures Tally(Run(s, ops).cache.stats, abandoned) ==
      |KeysWith(Run(s, ops).cache.records, Tallied(abandoned))| + Lost(s, ops, abandoned)
  {
    if ops == [] {
      assert KeysWith(map[], Tallied(abandoned)) == {};
    } else {
      var before := ops[..|ops| - 1];
      TalliesCount(s, before, abandoned);
      RunInStep(s, before);
      StepTally(s, Run(s, before), ops[|ops| - 1], abandoned);
    }
  }

  ghost predicate OverwritesAt(s: Settings, ops: seq<Op>, abandoned: bool, i: nat) {
    i < |ops| && Overwrites(s, Run(s, ops[..i]), ops[i], abandoned)
  }

  lemma {:induction false} LostNone(s: Settings, ops: seq<Op>, abandoned: bool)
    ensures Lost(s, ops, abandoned) == 0 <==> forall i: nat :: !OverwritesAt(s, ops, abandoned, i)
  {
    if ops == [] {
    } else {
      var before, n := ops[..|ops| - 1], |ops| - 1;
      LostNone(s, before, abandoned);
      assert ops[..n] == before;
      forall i: nat | i < n ensures OverwritesAt(s, ops, abandoned, i) <==> OverwritesAt(s, before, abandoned, i) {
        assert before[..i] == ops[..i];
      }
      assert OverwritesAt(s, ops, abandoned, n) <==> Overwrites(s, Run(s, before), ops[n], abandoned);
      if i: nat :| OverwritesAt(s, before, abandoned, i) { assert OverwritesAt(s, ops, abandoned, i); }
      if i: nat :| OverwritesAt(s, ops, abandoned, i) && i != n { assert OverwritesAt(s, before, abandoned, i); }
    }
  }

  /** So a count is exact if and only if no call of the run overwrote such a record. */
  lemma TallyExactIff(s: Settings, ops: seq<Op>, abandoned: bool)
    ensures Tally(Run(s, ops).cache.stats, abandoned) == |KeysWith(Run(s, ops).cache.records, Tallied(abandoned))| <==>
      forall i: nat :: !OverwritesAt(s, ops, abandoned, i)
  {
    TalliesCount(s, ops, abandoned);
    LostNone(s, ops, abandoned);
  }

  /** It does happen: a retryable error moves an invalid record on, and the count stays. */
  lemma InvalidMayBeRetried(s: Settings, p: Provenance)
    requires SuccessAllowed("e", "t", 0, p)
    ensures var ops := [DoRecordSuccess("e", "t", 0, p, "", 0, false, false, 0),
      DoRecordError("e", "t", 0, "", true, None)];
      OverwritesAt(s, ops, false, 1) && Lost(s, ops, false) == 1
  {
    var first, second := DoRecordSuccess("e", "t", 0, p, "", 0, false, false, 0),
      DoRecordError("e", "t", 0, "", true, None);
    var ops := [first, second];
    OneLetterPass();
    OneStep(s, first);
    assert ops[..1] == [first] && ops[..|ops| - 1] == [first];
    assert HasStatus(Run(s, [first]).cache.records, OpKey(second), Invalid);
    assert Lost(s, [first], false) == 0;
  }

  lemma OneLetterPass()
    ensures ValidPass("e", "t", 0)
  {
    assert StripLeft("e") == "e" && StripRight("e") == "e" && StripLeft("t") == "t" && StripRight("t") == "t";
  }

  lemma OneStep(s: Settings, op: Op)
    ensures Run(s, [op]) == Step(s, EMPTY_WORLD, op)
    ensures Lost(s, [op], false) == if Overwrites(s, EMPTY_WORLD, op, false) then 1 else 0
  {
    assert [op][..0] == [];
    assert Run(s, []) == EMPTY_WORLD && Lost(s, [], false) == 0;
  }

  lemma StepCountsValid(s: Settings, w: World, op: Op)
    requires InStep(s, w) && w.cache.stats.valid == |KeysWith(w.cache.records, Success)|
    ensures var w' := Step(s, w, op); w'.cache.stats.valid == |KeysWith(w'.cache.records, Success)|
  {
    if op.DoReload? {
      StepInStep(s, w, op);
    } else if !Raises(s, w, op) && Effect(s, w.cache, op).Some? {
      EffectCountsValid(s, w.cache, op);
    }
  }

  /** `valid_trajectories` is the number of success records and `in_flight_passes` the number of
      passes in flight, after every run. */
  lemma {:induction false} CountersExact(s: Settings, ops: seq<Op>)
    ensures Run(s, ops).cache.stats.valid == |KeysWith(Run(s, ops).cache.records, Success)|
    ensures Run(s, ops).cache.stats.inFlight == |KeysWith(Run(s, ops).cache.records, InFlight)|
  {
    RunInStep(s, ops);
    if ops == [] {
      assert KeysWith(map[], Success) == {};
    } else {
      CountersExact(s, ops[..|ops| - 1]);
      RunInStep(s, ops[..|ops| - 1]);
      StepCountsValid(s, Run(s, ops[..|ops| - 1]), ops[|ops| - 1]);
    }
  }

  lemma FitAt(s: Settings, rs: Records, taskKey: string, index: int)
    requires AllConsistent(s, rs) && (index == 0 || index == 1) && HasStatus(rs, KeyOf(taskKey, index), Success)
    ensures var p := rs[KeyOf(taskKey, index)].provenance; p.taskKey == Some(taskKey) && p.passIndex == Some(index)
  {
    var k := KeyOf(taskKey, index);
    assert RecordFits(s, k, rs[k]);
    var env, task, index' :| ConsistentWith(s, k, rs[k].provenance, env, task, index');
    KeyNamesTask(taskKey, TaskKey(env, task), index, index');
  }

  /** A pass is done exactly when the record under its own key is a success. */
  lemma PassDoneByKey(s: Settings, rs: Records, taskKey: string, index: int)
    requires AllConsistent(s, rs) && (index == 0 || index == 1)
    ensures PassDone(rs, taskKey, index) <==> HasStatus(rs, KeyOf(taskKey, index), Success)
  {
    if PassDone(rs, taskKey, index) {
      var k :| k in rs && rs[k].status == Success && rs[k].provenance.taskKey == Some(taskKey) &&
        rs[k].provenance.passIndex == Some(index);
      assert RecordFits(s, k, rs[k]);
    }
    if HasStatus(rs, KeyOf(taskKey, index), Success) { FitAt(s, rs, taskKey, index); }
  }

  /** `completed_tasks` counts exactly the tasks both of whose passes are recorded successes. */
  lemma CompletedExact(s: Settings, ops: seq<Op>, taskKey: string)
    requires HonestRun(s, ops)
    ensures var c := Run(s, ops).cache;
      c.stats.completed == |CompletedTasks(c.records)| &&
      (taskKey in CompletedTasks(c.records) <==>
        HasStatus(c.records, KeyOf(taskKey, 0), Success) && HasStatus(c.records, KeyOf(taskKey, 1), Success))
  {
    RunInStep(s, ops);
    RunConsistent(s, ops);
    var rs := Run(s, ops).cache.records;
    PassDoneByKey(s, rs, taskKey, 0);
    PassDoneByKey(s, rs, taskKey, 1);
    if HasStatus(rs, KeyOf(taskKey, 0), Success) {
      FitAt(s, rs, taskKey, 0);
      assert NamedTask(rs[KeyOf(taskKey, 0)]) == taskKey;
    }
  }
}
