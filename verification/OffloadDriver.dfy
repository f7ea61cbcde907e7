/** A whole forward/backward step on the handler object: every precondition of every call is
    met along every legal run, and what the object returns is what the run theorems say. */
module OffloadDriver {
  import opened Common
  import opened OffloadModel
  import opened OffloadRuns
  import opened OffloadHandler

  lemma {:induction false} LegalPrefix(c: Config, ops: seq<Op>, i: nat)
    requires LegalRun(c, ops) && i < |ops|
    ensures LegalRun(c, ops[..i]) && Legal(c, After(ops[..i]), ops[i])
    decreases |ops|
  {
    if i == |ops| - 1 {
    } else {
      LegalPrefix(c, ops[..|ops| - 1], i);
      assert ops[..|ops| - 1][..i] == ops[..i];
    }
  }

  /** A legal run up to call i leaves a running handler on which call i is enabled. */
  lemma CallEnabled(c: Config, ops: seq<Op>, i: nat)
    requires c.Valid() && LegalRun(c, ops) && i < |ops|
    ensures Execute(c, ops[..i]).Running? && Enabled(c, Execute(c, ops[..i]).s, ops[i])
    ensures Execute(c, ops[..i + 1]) == Running(Step(c, Execute(c, ops[..i]).s, ops[i]))
  {
    LegalPrefix(c, ops, i);
    RunNeverCrashes(c, ops[..i]);
    StepInSync(c, Execute(c, ops[..i]).s, After(ops[..i]), ops[i]);
    assert ops[..i + 1][..i] == ops[..i] && ops[..i + 1][i] == ops[i];
  }

  /** What call i gives back: the pushed contents for a pop, nothing otherwise. */
  ghost predicate RightReturn(ops: seq<Op>, i: nat, given: Option<Tensor>)
    requires i < |ops|
  {
    match ops[i]
    case DoPop(Tagged(tag)) =>
      given.Some? && |PushedUnder(ops[..i], tag)| == 1 && given.value.SameContents(PushedUnder(ops[..i], tag)[0])
    case DoPop(Direct(t)) => given == Some(t)
    case _ => given == None
  }

  /** One call on the handler. */
  method Call(h: AsyncDoubleBufferGroupOffloadHandler, op: Op) returns (given: Option<Tensor>)
    requires h.Valid() && h.Setup().Valid() && Enabled(h.Setup(), h.State(), op)
    modifies h
    ensures h.Valid() && h.State() == Step(h.Setup(), old(h.State()), op)
    ensures given == if op.DoPop? then Some(PopResult(old(h.State()), op.handle)) else None
  {
    given := None;
    match op
    case DoPush(t, need) => var _ := h.TensorPush(t, need);
    case DoCommitForward => h.OnGroupCommitForward();
    case DoCommitBackward => h.OnGroupCommitBackward();
    case DoPop(handle) =>
      var t := h.TensorPop(handle);
      given := Some(t);
  }

  /** A whole run on a fresh handler: each pop returns the contents pushed under its tag, and a
      complete run leaves the handler fresh. */
  method RunStep(h: AsyncDoubleBufferGroupOffloadHandler, ops: seq<Op>) returns (given: seq<Option<Tensor>>)
    requires h.Valid() && h.Setup().Valid() && h.State() == FRESH && LegalRun(h.Setup(), ops)
    modifies h
    ensures |given| == |ops| && forall i | 0 <= i < |ops| :: RightReturn(ops, i, given[i])
    ensures Execute(h.Setup(), ops) == Running(h.State())
    ensures Complete(After(ops)) ==> h.State() == FRESH
  {
    given := [];
    ghost var c := h.Setup();
    for i := 0 to |ops|
      invariant h.Valid() && h.Setup() == c && Execute(c, ops[..i]) == Running(h.State())
      invariant |given| == i && forall j | 0 <= j < i :: RightReturn(ops, j, given[j])
    {
      CallEnabled(c, ops, i);
      LegalPrefix(c, ops, i);
      if ops[i].DoPop? && ops[i].handle.Tagged? { PopReturnsPushed(c, ops[..i], ops[i].handle.tag); }
      var one := Call(h, ops[i]);
      given := given + [one];
    }
    assert ops[..|ops|] == ops;
    if Complete(After(ops)) { CompleteRunRestoresHandler(c, ops); }
  }
}
