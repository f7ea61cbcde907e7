/** A run of cache calls and reloads on the cache object and its file. */
module TeacherDriver {
  import opened Common
  import opened TeacherModel
  import opened TeacherRuns
  import opened TeacherCaches

  /** One call that is not a reload; for a claim, what it returned. */
  method Call(cache: TeacherCache, op: Op) returns (granted: Option<string>)
    requires !op.DoReload?
    modifies cache, cache.path
    ensures cache.Here() == Step(cache.settings, old(cache.Here()), op)
    ensures granted == Claimed(cache.settings, old(cache.Here()), op)
  {
    granted := None;
    match op
    case DoClaim(env, task, index, requestId, given) =>
      var r := cache.Claim(env, task, index, requestId, given);
      if r.Ok? { granted := r.value; }
    case DoRecordSuccess(env, task, index, p, trajectory, tokens, valid, missing, missingCount) =>
      var _ := cache.RecordSuccess(env, task, index, p, trajectory, tokens, valid, missing, missingCount);
    case DoReconcile(env, task, index, retry) => var _ := cache.ReconcileInFlight(env, task, index, retry);
    case DoAbandon(env, task, index) => var _ := cache.AbandonInFlight(env, task, index);
    case DoRecordError(env, task, index, error, retryable, given) =>
      var _ := cache.RecordError(env, task, index, error, retryable, given);
  }

  /** One call or reload; a reload gives a new object when the file opens. */
  method Perform(cache: TeacherCache, op: Op) returns (now: TeacherCache, granted: Option<string>)
    modifies cache, cache.path
    ensures (now == cache || fresh(now)) && now.path == cache.path && now.settings == cache.settings
    ensures now.Here() == Step(cache.settings, old(cache.Here()), op)
    ensures granted == Claimed(cache.settings, old(cache.Here()), op)
  {
    now, granted := cache, None;
    if op.DoReload? {
      var reopened := TeacherCache.Load(cache.settings, cache.path);
      if reopened.Ok? { now := reopened.value; }
    } else {
      granted := Call(cache, op);
    }
  }

  ghost predicate Granted(s: Settings, ops: seq<Op>, i: nat, granted: Option<string>) {
    i < |ops| ==> granted == Claimed(s, Run(s, ops[..i]), ops[i])
  }

  lemma RunNext(s: Settings, ops: seq<Op>, i: nat)
    requires i < |ops|
    ensures Run(s, ops[..i + 1]) == Step(s, Run(s, ops[..i]), ops[i])
  {
    assert ops[..i + 1][..i] == ops[..i] && ops[..i + 1][i] == ops[i];
  }

  /** A whole run from no file: the object and its file are always where the run model says, every
      claim is granted exactly when it says, and reopening succeeds exactly when it says (the old
      object stays in use otherwise). */
  method Play(settings: Settings, path: CacheFile, ops: seq<Op>)
    returns (cache: TeacherCache, granted: seq<Option<string>>)
    requires path.content == NoFile
    modifies path
    ensures fresh(cache) && cache.path == path && cache.settings == settings && cache.Here() == Run(settings, ops)
    ensures |granted| == |ops| && forall i | 0 <= i < |ops| :: Granted(settings, ops, i, granted[i])
  {
    var first := TeacherCache.Load(settings, path);
    cache, granted := first.value, [];
    for i := 0 to |ops|
      invariant fresh(cache) && cache.path == path && cache.settings == settings &&
        cache.Here() == Run(settings, ops[..i])
      invariant |granted| == i && forall j | 0 <= j < i :: Granted(settings, ops, j, granted[j])
    {
      RunNext(settings, ops, i);
      var one;
      cache, one := Perform(cache, ops[i]);
      granted := granted + [one];
    }
    assert ops[..|ops|] == ops;
  }
}
