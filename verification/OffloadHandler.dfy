/** The handler object itself: its fields are updated in place by every call, and each call is
    proved to be the corresponding step of the offload model. */
module OffloadHandler {
  import opened Common
  import opened OffloadModel

  class AsyncDoubleBufferGroupOffloadHandler {
    const numOffloadGroup: int
    const numLayers: int
    var currentGroup: int
    var tensorCountCurrentGroup: nat
    var tensorTagToState: map<Tag, Saved>
    var tensorTagToBuf: map<Tag, Slot>
    var offloadedGroupCount: int
    var layerWindowMap: map<int, int>
    var groupOffloadMapping: map<int, Copies>

    ghost predicate Valid()
      reads this
    {
      1 <= numOffloadGroup <= numLayers &&
      layerWindowMap == map i | 0 <= i < numOffloadGroup :: WindowAt(numOffloadGroup, numLayers, i)
    }

    ghost function Setup(): Config
      requires numOffloadGroup >= 1
    {
      Schedule(numOffloadGroup, numLayers)
    }

    ghost function State(): Snapshot
      reads this
    {
      Snapshot(currentGroup, tensorCountCurrentGroup, tensorTagToState, tensorTagToBuf,
               offloadedGroupCount, groupOffloadMapping)
    }

    constructor (numOffloadGroup: int, numModelGroup: int)
      requires 1 <= numOffloadGroup <= numModelGroup
      ensures Valid() && Setup().Valid() && State() == FRESH
      ensures this.numOffloadGroup == numOffloadGroup && numLayers == numModelGroup
    {
      this.numOffloadGroup, this.numLayers := numOffloadGroup, numModelGroup;
      currentGroup, tensorCountCurrentGroup, offloadedGroupCount := 0, 0, 0;
      tensorTagToState, tensorTagToBuf, groupOffloadMapping := map[], map[], map[];
      var windows := AsyncDoubleBufferGroupOffloadHandler.WindowMap(
        numOffloadGroup, numModelGroup / numOffloadGroup, numModelGroup % numOffloadGroup);
      layerWindowMap := windows;
      new;
      ScheduleValid(numOffloadGroup, numModelGroup);
    }

    /** The windows of the first i groups. */
    static ghost function WindowPart(quotient: int, remainder: int, i: int): map<int, int> {
      map j | 0 <= j < i :: ShareAt(quotient, remainder, j)
    }

    static lemma WindowPartNext(quotient: int, remainder: int, i: nat)
      ensures WindowPart(quotient, remainder, i + 1) ==
        WindowPart(quotient, remainder, i)[i := ShareAt(quotient, remainder, i)]
    {
    }

    /** The window map for n groups, from the quotient and the remainder of the layers by n. */
    static method WindowMap(n: int, quotient: int, remainder: int) returns (windows: map<int, int>)
      requires n >= 1 && remainder >= 0
      ensures windows == WindowPart(quotient, remainder, n)
    {
      var constant := 0;
      windows := map[];
      for i := 0 to n
        invariant constant == Min(i, remainder)
        invariant windows == WindowPart(quotient, remainder, i)
      {
        WindowPartNext(quotient, remainder, i);
        windows := windows[i := quotient * (i + 1) - 1];
        if i < remainder {
          windows := windows[i := windows[i] + (i + 1)];
          constant := i + 1;
        } else {
          windows := windows[i := windows[i] + constant];
        }
      }
    }

    method TensorPush(tensor: Tensor, need: bool) returns (handle: Handle)
      requires Valid() && PushEnabled(State(), need)
      modifies this
      ensures Valid() && handle == PushHandle(old(State()), tensor, need)
      ensures handle == if need then Tagged(Tag(old(currentGroup), old(tensorCountCurrentGroup))) else Direct(tensor)
      ensures !need ==> State() == old(State())
      ensures State() == Push(Setup(), old(State()), tensor, need)
    {
      if need {
        var tag := Tag(currentGroup, tensorCountCurrentGroup);
        handle := Tagged(tag);
        tensorCountCurrentGroup := tensorCountCurrentGroup + 1;
        assert tag !in tensorTagToState;
        tensorTagToState := tensorTagToState[tag := OnDevice(tensor)];
        if currentGroup < numOffloadGroup {
          tensorTagToBuf := tensorTagToBuf[tag := Held(tensor)];
        }
      } else {
        handle := Direct(tensor);
      }
    }

    method TensorPop(handle: Handle) returns (tensor: Tensor)
      requires Valid() && PopEnabled(State(), handle)
      modifies this
      ensures Valid() && tensor == PopResult(old(State()), handle)
      ensures handle.Direct? ==> tensor == handle.tensor && State() == old(State())
      ensures State() == Pop(old(State()), handle)
    {
      match handle
      case Direct(t) =>
        tensor := t;
      case Tagged(tag) =>
        tensor := tensorTagToState[tag].tensor;
        tensorTagToState := tensorTagToState - {tag};
        tensorTagToBuf := tensorTagToBuf - {tag};
    }

    /** The tags still pending have their old entry, the others their new one. */
    static ghost predicate Between(before: map<Tag, Saved>, after: map<Tag, Saved>, pending: set<Tag>,
                                   now: map<Tag, Saved>)
      requires before.Keys == after.Keys
    {
      now.Keys == before.Keys &&
      forall tag | tag in before :: now[tag] == if tag in pending then before[tag] else after[tag]
    }

    static lemma BetweenNext(before: map<Tag, Saved>, after: map<Tag, Saved>, pending: set<Tag>,
                             now: map<Tag, Saved>, tag: Tag)
      requires before.Keys == after.Keys && Between(before, after, pending, now) && tag in pending && tag in before
      ensures now[tag] == before[tag]
      ensures Between(before, after, pending - {tag}, now[tag := after[tag]])
    {
    }

    /** The host copies so far: right, and complete for the tensors that are done. */
    static ghost predicate Copied(before: map<Tag, Saved>, g: int, pending: set<Tag>, mapping: map<Storage, seq<int>>)
      requires AllOnDevice(before, g)
    {
      (forall tag | tag in before && tag !in pending && tag.group == g :: before[tag].tensor.key in mapping) &&
      forall key | key in mapping :: key in HostCopies(before, g).flats &&
        mapping[key] == HostCopies(before, g).flats[key]
    }

    static lemma CopiedNext(before: map<Tag, Saved>, g: int, pending: set<Tag>,
                            mapping: map<Storage, seq<int>>, tag: Tag)
      requires AllOnDevice(before, g) && KeysAgree(before, g) && Copied(before, g, pending, mapping) && tag in before
      ensures tag.group != g ==> Copied(before, g, pending - {tag}, mapping)
      ensures tag.group == g ==>
        var t := before[tag].tensor;
        Copied(before, g, pending - {tag}, if t.key in mapping then mapping else mapping[t.key := t.flat])
    {
    }

    static lemma AllCopied(before: map<Tag, Saved>, g: int, mapping: map<Storage, seq<int>>)
      requires AllOnDevice(before, g) && Copied(before, g, {}, mapping)
      ensures mapping == HostCopies(before, g).flats
    {
    }

    method BulkOffloadGroup(groupToOffload: int)
      requires Valid() && BulkOffloadEnabled(State(), groupToOffload)
      modifies this
      ensures Valid() && State() == BulkOffload(old(State()), groupToOffload)
    {
      ghost var before, moved := tensorTagToState, MovedToHost(tensorTagToState, groupToOffload);
      var mapping: map<Storage, seq<int>> := map[];
      var pending := tensorTagToState.Keys;
      while pending != {}
        invariant pending <= before.Keys && Between(before, moved, pending, tensorTagToState)
        invariant Copied(before, groupToOffload, pending, mapping)
        invariant Valid() && State() == old(State()).(tagToState := tensorTagToState)
      {
        var tag :| tag in pending;
        BetweenNext(before, moved, pending, tensorTagToState, tag);
        CopiedNext(before, groupToOffload, pending, mapping, tag);
        pending := pending - {tag};
        if tag.group == groupToOffload {
          var t := tensorTagToState[tag].tensor;
          if t.key !in mapping { mapping := mapping[t.key := t.flat]; }
          tensorTagToState := tensorTagToState[tag := OnHost(t.key, t.shape)];
        }
      }
      AllCopied(before, groupToOffload, mapping);
      assert tensorTagToState == moved;
      groupOffloadMapping := groupOffloadMapping[groupToOffload := Copies(mapping)];
    }

    method FreeBuffersOf(group: int)
      requires Valid()
      modifies this
      ensures Valid() && State() == old(State()).(tagToBuf := FreedBuffers(old(tensorTagToBuf), group))
    {
      ghost var before := tensorTagToBuf;
      var pending := tensorTagToBuf.Keys;
      while pending != {}
        invariant pending <= before.Keys == tensorTagToBuf.Keys
        invariant forall tag | tag in before ::
          tensorTagToBuf[tag] == (if tag in pending then before[tag] else FreedBuffers(before, group)[tag])
        invariant Valid() && State() == old(State()).(tagToBuf := tensorTagToBuf)
      {
        var tag :| tag in pending;
        pending := pending - {tag};
        if tag.group == group { tensorTagToBuf := tensorTagToBuf[tag := Freed]; }
      }
      assert tensorTagToBuf == FreedBuffers(before, group);
    }

    method OnGroupCommitForward()
      requires Valid() && Setup().Valid() && CommitForwardEnabled(Setup(), State())
      modifies this
      ensures Valid() && State() == CommitForward(Setup(), old(State()))
    {
      if currentGroup == 0 { BulkOffloadGroup(currentGroup); }
      if layerWindowMap[offloadedGroupCount] == currentGroup {
        FreeBuffersOf(offloadedGroupCount);
        if offloadedGroupCount < numOffloadGroup - 1 { BulkOffloadGroup(offloadedGroupCount + 1); }
        offloadedGroupCount := offloadedGroupCount + 1;
      }
      currentGroup := currentGroup + 1;
      tensorCountCurrentGroup := 0;
    }

    method BulkReloadGroup(groupToReload: int)
      requires Valid() && BulkReloadEnabled(Setup(), State(), groupToReload)
      modifies this
      ensures Valid() && State() == BulkReload(Setup(), old(State()), groupToReload)
    {
      ghost var before := tensorTagToState;
      var copies := groupOffloadMapping[groupToReload];
      groupOffloadMapping := groupOffloadMapping - {groupToReload};
      var pending := tensorTagToState.Keys;
      while pending != {}
        invariant pending <= before.Keys == tensorTagToState.Keys
        invariant forall tag | tag in before ::
          tensorTagToState[tag] ==
            (if tag in pending then before[tag] else MovedToDevice(before, groupToReload, copies)[tag])
        invariant groupOffloadMapping == old(groupOffloadMapping) - {groupToReload}
        invariant Valid() &&
          State() == old(State()).(tagToState := tensorTagToState, groupMapping := groupOffloadMapping)
      {
        var tag :| tag in pending;
        pending := pending - {tag};
        if tag.group == groupToReload && tensorTagToState[tag].OnHost? {
          var OnHost(key, shape) := tensorTagToState[tag];
          tensorTagToState := tensorTagToState[tag :=
            OnDevice(Tensor(Reloaded(groupToReload, key), shape, copies.flats[key]))];
        }
      }
      assert tensorTagToState == MovedToDevice(before, groupToReload, copies);
    }

    method OnGroupCommitBackward()
      requires Valid() && Setup().Valid() && CommitBackwardEnabled(Setup(), State())
      modifies this
      ensures Valid() && State() == CommitBackward(Setup(), old(State()))
    {
      currentGroup := currentGroup - 1;
      assert currentGroup >= 0;
      if layerWindowMap[offloadedGroupCount - 1] == currentGroup {
        BulkReloadGroup(offloadedGroupCount - 1);
        offloadedGroupCount := offloadedGroupCount - if offloadedGroupCount > 1 then 1 else 0;
      }
      if currentGroup == 0 { offloadedGroupCount := 0; }
    }
  }
}
