/** The teacher pass cache (teacher_collection.py) on values: keys, provenance, records, the
    statistics, and each cache operation as a step. */
module TeacherModel {

  import opened Common

  // ---------- keys ----------

  predicate Blank(c: char) { c == ' ' || c == '\t' || c == '\n' || c == '\r' }

  function StripLeft(s: string): string {
    if s != [] && Blank(s[0]) then StripLeft(s[1..]) else s
  }

  function StripRight(s: string): string {
    if s != [] && Blank(s[|s| - 1]) then StripRight(s[..|s| - 1]) else s
  }

  function Strip(s: string): string { StripRight(StripLeft(s)) }

  function IndexText(index: int): string { if index == 0 then "0" else "1" }

  function TaskKey(env: string, task: string): string { Strip(env) + "::" + Strip(task) }

  predicate ValidPass(env: string, task: string, index: int) {
    Strip(env) != "" && Strip(task) != "" && (index == 0 || index == 1)
  }

  function KeyOf(taskKey: string, index: int): string { taskKey + "::" + IndexText(index) }

  /** `teacher_pass_key`. */
  function PassKey(env: string, task: string, index: int): Result<string> {
    if ValidPass(env, task, index) then Ok(KeyOf(TaskKey(env, task), index))
    else Err("teacher pass key requires env/task and pass_index 0 or 1")
  }

  // ---------- provenance and records ----------

  /** A provenance mapping: the entries the cache looks at, each of which may be missing, and the
      others. */
  datatype Provenance = Provenance(
    taskKey: Option<string>, envName: Option<string>, taskId: Option<string>, passIndex: Option<int>,
    thinking: Option<string>, reasoningEffort: Option<string>, poolHash: Option<string>, others: map<string, string>)

  /** What a cache puts into the provenance it makes. */
  datatype Settings = Settings(runId: string, thinking: string, reasoningEffort: string, poolHash: string,
                               others: map<string, string>)

  /** `make_provenance`. */
  function MakeProvenance(c: Settings, env: string, task: string, index: int): Provenance {
    Provenance(Some(TaskKey(env, task)), Some(Strip(env)), Some(Strip(task)), Some(index), Some(c.thinking),
               Some(c.reasoningEffort), if c.poolHash != "" then Some(c.poolHash) else None, c.others)
  }

  function Over<T>(base: Option<T>, given: Option<T>): Option<T> { if given.Some? then given else base }

  /** `base.update(given)`: given entries replace, missing ones leave. */
  function Updated(base: Provenance, given: Provenance): Provenance {
    Provenance(Over(base.taskKey, given.taskKey), Over(base.envName, given.envName), Over(base.taskId, given.taskId),
               Over(base.passIndex, given.passIndex), Over(base.thinking, given.thinking),
               Over(base.reasoningEffort, given.reasoningEffort), Over(base.poolHash, given.poolHash),
               base.others + given.others)
  }

  datatype Status = InFlight | Success | Invalid | Abandoned | Error

  /** A stored pass; `payload` stands for the trajectory or the error text. */
  datatype Record = Record(status: Status, requestId: Option<string>, provenance: Provenance, payload: string,
                           reconcileRequired: bool)

  type Records = map<string, Record>

  datatype Stats = Stats(completed: int, valid: int, invalid: int, abandoned: int, apiErrors: int,
                         missingReasoning: int, tokens: int, inFlight: int)

  datatype Cache = Cache(records: Records, stats: Stats)

  predicate HasStatus(rs: Records, key: string, status: Status) { key in rs && rs[key].status == status }

  /** A pass that no claim may re-issue. */
  predicate Blocked(rs: Records, key: string) {
    key in rs && rs[key].status in {Success, InFlight, Invalid, Abandoned}
  }

  // ---------- the derived statistics ----------

  function KeysWith(rs: Records, status: Status): set<string> {
    set k | k in rs && rs[k].status == status
  }

  predicate PassDone(rs: Records, taskKey: string, index: int) {
    exists k | k in rs :: rs[k].status == Success && rs[k].provenance.taskKey == Some(taskKey) &&
      rs[k].provenance.passIndex == Some(index)
  }

  function NamedTask(r: Record): string { if r.provenance.taskKey.Some? then r.provenance.taskKey.value else "" }

  function CompletedTasks(rs: Records): set<string> {
    set k | k in rs && rs[k].status == Success && PassDone(rs, NamedTask(rs[k]), 0) && PassDone(rs, NamedTask(rs[k]), 1)
      :: NamedTask(rs[k])
  }

  /** `_refresh_completed_tasks`. */
  function Refresh(c: Cache): Cache {
    c.(stats := c.stats.(completed := |CompletedTasks(c.records)|, inFlight := |KeysWith(c.records, InFlight)|))
  }

  // ---------- the operations ----------

  /** What the caller gives updates the base. */
  function Chosen(base: Provenance, given: Option<Provenance>): Provenance {
    if given.Some? then Updated(base, given.value) else base
  }

  function Claim(c: Cache, key: string, requestId: string, provenance: Provenance): Cache {
    Refresh(c.(records := c.records[key := Record(InFlight, Some(requestId), provenance, "", false)]))
  }

  predicate SuccessAllowed(env: string, task: string, index: int, p: Provenance) {
    p.taskKey == Some(TaskKey(env, task)) && p.passIndex == Some(index) &&
    p.reasoningEffort.Some? && p.reasoningEffort.value != "" && p.thinking == Some("enabled")
  }

  function RecordSuccess(c: Cache, key: string, p: Provenance, trajectory: string, tokens: int, valid: bool,
                         missing: bool, missingCount: int): Cache {
    Refresh(Cache(
      c.records[key := Record(if valid then Success else Invalid, None, p, trajectory, false)],
      c.stats.(valid := c.stats.valid + (if valid then 1 else 0),
               invalid := c.stats.invalid + (if valid then 0 else 1),
               missingReasoning := c.stats.missingReasoning + Max(0, Max(missingCount, if missing then 1 else 0)),
               tokens := c.stats.tokens + tokens)))
  }

  function Reconcile(c: Cache, key: string, retry: bool): Cache
    requires key in c.records
  {
    Refresh(c.(records := if retry then c.records - {key}
                          else c.records[key := c.records[key].(status := Error, reconcileRequired := false)]))
  }

  function Abandon(c: Cache, key: string): Cache
    requires key in c.records
  {
    Refresh(Cache(c.records[key := c.records[key].(status := Abandoned, reconcileRequired := false)],
                  c.stats.(abandoned := c.stats.abandoned + 1)))
  }

  function RecordError(c: Cache, key: string, error: string, retryable: bool, made: Provenance,
                       given: Option<Provenance>): Cache {
    var p := Chosen(if key in c.records then c.records[key].provenance else made, given);
    Refresh(Cache(c.records[key := Record(if retryable then Error else InFlight, None, p, error, !retryable)],
                  c.stats.(apiErrors := c.stats.apiErrors + 1)))
  }

  // ---------- loading ----------

  /** Position of the first "::". */
  function FirstSeparator(s: string, from: nat): Option<nat>
    decreases |s| - from
  {
    if from + 1 >= |s| then None
    else if s[from] == ':' && s[from + 1] == ':' then Some(from)
    else FirstSeparator(s, from + 1)
  }

  /** The pass index and the task key at the end and the start of a record's key.  A key that ends
      otherwise is never the expected one, whatever the provenance says. */
  predicate EndsInIndex(key: string) {
    |key| >= 3 && key[|key| - 3] == ':' && key[|key| - 2] == ':' && key[|key| - 1] in {'0', '1'}
  }

  function IndexInKey(key: string): Option<int> {
    if EndsInIndex(key) then Some(if key[|key| - 1] == '0' then 0 else 1) else None
  }

  function TaskInKey(key: string): Option<string> {
    if EndsInIndex(key) then Some(key[..|key| - 3]) else None
  }

  predicate MissingOr(field: Option<string>, value: string) {
    field.Some? ==> field.value == "" || field.value == value
  }

  predicate PoolFits(s: Settings, p: Provenance) { s.poolHash == "" || MissingOr(p.poolHash, s.poolHash) }

  /** The checks `_load` makes on one record. */
  predicate Loadable(s: Settings, key: string, r: Record) {
    var p := r.provenance;
    var index, taskKey := Over(IndexInKey(key), p.passIndex), Over(TaskInKey(key), p.taskKey);
    index.Some? && taskKey.Some? &&
    var at := FirstSeparator(taskKey.value, 0);
    at.Some? && at.value + 2 <= |taskKey.value| &&
    var env, task := taskKey.value[..at.value], taskKey.value[at.value + 2..];
    PassKey(env, task, index.value) == Ok(key) &&
    MissingOr(p.envName, env) && MissingOr(p.taskId, task) && PoolFits(s, p)
  }

  const EMPTY_STATS := Stats(0, 0, 0, 0, 0, 0, 0, 0)

  const SCHEMA_VERSION := "travelgym-teacher-cache-v1"

  /** The saved file: schema version, run id and a copy of the cache; or something unreadable. */
  datatype Saved = NoFile | Unreadable | File(schema: string, runId: string, cache: Cache)

  /** Opening a cache on a file. */
  function Open(s: Settings, file: Saved): Result<Cache> {
    match file
    case NoFile => Ok(Refresh(Cache(map[], EMPTY_STATS)))
    case Unreadable => Err("invalid teacher cache")
    case File(schema, runId, cache) =>
      if schema != SCHEMA_VERSION then Err("unsupported teacher cache schema")
      else if runId != "" && runId != s.runId then Err("teacher cache collection run mismatch")
      else if exists k | k in cache.records :: !Loadable(s, k, cache.records[k])
      then Err("teacher cache record key/provenance mismatch")
      else Ok(Refresh(cache))
  }
}
