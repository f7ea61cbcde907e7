/** Activation offloading (verl/utils/activation_offload.py): the window schedule, the
    handler's state, and each handler call as a step on that state. */
module OffloadModel {
  import opened Common

  /** What `_get_unique_tensor_key` identifies.  A reload allocates a new device storage
      for each offloaded key of a group. */
  datatype Storage = Original(id: int) | Reloaded(group: int, source: Storage)

  datatype Tensor = Tensor(key: Storage, shape: seq<nat>, flat: seq<int>) {
    ghost predicate Valid() { |flat| == Numel(shape) }

    /** Equal shape and values; the storage may differ. */
    ghost predicate SameContents(other: Tensor) {
      shape == other.shape && flat == other.flat
    }
  }

  datatype Tag = Tag(group: int, index: nat)
  datatype Handle = Tagged(tag: Tag) | Direct(tensor: Tensor)
  datatype Saved = OnDevice(tensor: Tensor) | OnHost(key: Storage, shape: seq<nat>)
  /** The host copies of one offloaded group, one per storage. */
  datatype Copies = Copies(flats: map<Storage, seq<int>>)
  datatype Slot = Held(tensor: Tensor) | Freed

  function Numel(shape: seq<nat>): nat {
    if shape == [] then 1 else shape[0] * Numel(shape[1..])
  }

  // ---------- the window schedule ----------

  /** The schedule a handler runs on: window[i] is the commit at which the i-th offloaded
      group must have left the device. */
  datatype Config = Config(window: seq<int>, numLayers: int) {
    ghost predicate Valid() {
      1 <= |window| <= numLayers && window[|window| - 1] == numLayers - 1 &&
      (forall i :: OnTime(i)) && (forall i, j :: Increases(i, j))
    }

    /** The i-th entry is not before commit i; strictly after it when some layer is not offloaded. */
    ghost predicate OnTime(i: int) {
      0 <= i < |window| ==> i <= window[i] < numLayers && (|window| < numLayers ==> i < window[i])
    }

    ghost predicate Increases(i: int, j: int) {
      0 <= i < j < |window| ==> window[i] < window[j]
    }
  }

  /** The load-balanced window of the i-th of n offloaded groups among l layers. */
  function WindowAt(n: int, l: int, i: int): int
    requires n >= 1
  {
    ShareAt(l / n, l % n, i)
  }

  function ShareAt(q: int, r: int, i: int): int { q * (i + 1) - 1 + Min(i + 1, r) }

  function Schedule(n: int, l: int): Config
    requires n >= 1
  {
    Config(seq(n, i => WindowAt(n, l, i)), l)
  }

  lemma QuotientAtLeastOne(n: int, l: int) returns (q: int, r: int)
    requires 1 <= n <= l
    ensures q == l / n && r == l % n
    ensures q >= 1 && 0 <= r < n && l == q * n + r
    ensures q == 1 ==> r == l - n
    ensures q >= 2 && n == l - 1 ==> n == 1 && q == 2 && r == 0
  {
    q, r := l / n, l % n;
    if q >= 2 {
      MulMonotone(2, q, n);
      assert q * n == n * q;
    }
  }

  lemma ShareIncreases(q: int, r: int, i: int, j: int)
    requires q >= 1 && 0 <= i < j
    ensures ShareAt(q, r, i) < ShareAt(q, r, j)
  {
    Grows(q, i + 1, j + 1);
  }

  lemma ShareBounds(q: int, r: int, i: int)
    requires q >= 1 && r >= 0 && i >= 0
    ensures ShareAt(q, r, i) >= i
    ensures q >= 2 ==> ShareAt(q, r, i) > i
    ensures q == 1 ==> ShareAt(q, r, i) == i + Min(i + 1, r)
  {
    MulMonotone(1, q, i + 1);
    if q >= 2 { MulMonotone(2, q, i + 1); }
  }

  /** The window map is strictly increasing, never early, and ends at the last layer; with one
      group fewer than layers it is the identity shifted by one. */
  lemma ScheduleValid(n: int, l: int)
    requires 1 <= n <= l
    ensures Schedule(n, l).Valid()
    ensures n == l - 1 ==> forall i | 0 <= i < n :: WindowAt(n, l, i) == i + 1
  {
    var q, r := QuotientAtLeastOne(n, l);
    var c := Schedule(n, l);
    forall i, j ensures c.Increases(i, j) {
      if 0 <= i < j < n { ShareIncreases(q, r, i, j); }
    }
    assert WindowAt(n, l, n - 1) == l - 1;
    forall i | 0 <= i < n
      ensures i <= WindowAt(n, l, i) < l
      ensures n < l ==> i < WindowAt(n, l, i)
      ensures n == l - 1 ==> WindowAt(n, l, i) == i + 1
    {
      assert c.Increases(i, n - 1);
      ShareBounds(q, r, i);
    }
    forall i ensures c.OnTime(i) {
    }
  }

  /** How many layers the i-th offloaded group has to leave the device: from the commit before its
      own window to its own. */
  function Width(n: int, l: int, i: int): int
    requires n >= 1
  {
    if i == 0 then WindowAt(n, l, 0) + 1 else WindowAt(n, l, i) - WindowAt(n, l, i - 1)
  }

  /** The load is balanced: every group gets the quotient of layers by groups, and the first ones
      the remainder, one each. */
  lemma WindowsBalanced(n: int, l: int, i: int)
    requires 1 <= n <= l && 0 <= i < n
    ensures Width(n, l, i) == l / n + if i < l % n then 1 else 0
  {
    var q, r := QuotientAtLeastOne(n, l);
    assert q * (i + 1) == q * i + q && q * 0 == 0;
  }

  ghost predicate Ahead(c: Config, g: int, j: int) {
    0 <= j < |c.window| ==> c.window[j] >= g
  }

  /** How many window entries lie before commit g: the number of groups whose buffers are
      freed by then in forward, and still offloaded in backward. */
  ghost function Passed(c: Config, g: int, i: nat): (k: nat)
    requires i <= |c.window|
    ensures k <= i
    ensures k > 0 ==> c.window[k - 1] < g
    ensures forall j | k <= j < i :: Ahead(c, g, j)
  {
    if i == 0 then 0 else if c.window[i - 1] < g then i else Passed(c, g, i - 1)
  }

  // ---------- the handler's state and its calls ----------

  datatype Snapshot = Snapshot(
    currentGroup: int,
    tensorCount: nat,
    tagToState: map<Tag, Saved>,
    tagToBuf: map<Tag, Slot>,
    offloadedCount: int,
    groupMapping: map<int, Copies>)

  const FRESH := Snapshot(0, 0, map[], map[], 0, map[])

  /** `tensor_push`: tensors that need no offloading are their own handle. */
  function PushHandle(s: Snapshot, t: Tensor, need: bool): Handle {
    if need then Tagged(Tag(s.currentGroup, s.tensorCount)) else Direct(t)
  }

  predicate PushEnabled(s: Snapshot, need: bool) {
    need ==> Tag(s.currentGroup, s.tensorCount) !in s.tagToState
  }

  function Push(c: Config, s: Snapshot, t: Tensor, need: bool): Snapshot {
    var tag := Tag(s.currentGroup, s.tensorCount);
    if !need then s else
      s.(tensorCount := s.tensorCount + 1,
         tagToState := s.tagToState[tag := OnDevice(t)],
         tagToBuf := if s.currentGroup < |c.window| then s.tagToBuf[tag := Held(t)] else s.tagToBuf)
  }

  predicate PopEnabled(s: Snapshot, h: Handle) {
    h.Tagged? ==> h.tag in s.tagToState && s.tagToState[h.tag].OnDevice?
  }

  function PopResult(s: Snapshot, h: Handle): Tensor
    requires PopEnabled(s, h)
  {
    match h case Direct(t) => t case Tagged(tag) => s.tagToState[tag].tensor
  }

  function Pop(s: Snapshot, h: Handle): Snapshot {
    match h
    case Direct(_) => s
    case Tagged(tag) => s.(tagToState := s.tagToState - {tag}, tagToBuf := s.tagToBuf - {tag})
  }

  predicate AllOnDevice(st: map<Tag, Saved>, g: int) {
    forall tag | tag in st && tag.group == g :: st[tag].OnDevice?
  }

  ghost predicate Owns(st: map<Tag, Saved>, g: int, key: Storage, tag: Tag) {
    tag in st && tag.group == g && st[tag].OnDevice? && st[tag].tensor.key == key
  }

  /** Tensors of one group that share a storage key have the same flat contents. */
  ghost predicate KeysAgree(st: map<Tag, Saved>, g: int) {
    forall key, a, b | Owns(st, g, key, a) && Owns(st, g, key, b) :: st[a].tensor.flat == st[b].tensor.flat
  }

  function DeviceKeys(st: map<Tag, Saved>, g: int): set<Storage> {
    set tag | tag in st && tag.group == g && st[tag].OnDevice? :: st[tag].tensor.key
  }

  ghost function FlatOf(st: map<Tag, Saved>, g: int, key: Storage): seq<int>
    requires key in DeviceKeys(st, g)
  {
    assert exists tag :: Owns(st, g, key, tag) by {
      var tag :| tag in st && tag.group == g && st[tag].OnDevice? && st[tag].tensor.key == key;
      assert Owns(st, g, key, tag);
    }
    var tag :| Owns(st, g, key, tag);
    st[tag].tensor.flat
  }

  /** The host copies of a group: one per distinct storage. */
  ghost function HostCopies(st: map<Tag, Saved>, g: int): Copies {
    Copies(map key | key in DeviceKeys(st, g) :: FlatOf(st, g, key))
  }

  ghost predicate BulkOffloadEnabled(s: Snapshot, g: int) {
    AllOnDevice(s.tagToState, g) && KeysAgree(s.tagToState, g)
  }

  function MovedToHost(st: map<Tag, Saved>, g: int): map<Tag, Saved>
    requires AllOnDevice(st, g)
  {
    map tag | tag in st ::
      if tag.group == g then OnHost(st[tag].tensor.key, st[tag].tensor.shape) else st[tag]
  }

  ghost function BulkOffload(s: Snapshot, g: int): Snapshot
    requires BulkOffloadEnabled(s, g)
  {
    s.(tagToState := MovedToHost(s.tagToState, g),
       groupMapping := s.groupMapping[g := HostCopies(s.tagToState, g)])
  }

  function FreedBuffers(buf: map<Tag, Slot>, g: int): map<Tag, Slot> {
    map tag | tag in buf :: if tag.group == g then Freed else buf[tag]
  }

  ghost predicate WindowCommitEnabled(c: Config, s: Snapshot)
    requires c.Valid()
  {
    0 <= s.offloadedCount < |c.window| &&
    (c.window[s.offloadedCount] == s.currentGroup && s.offloadedCount < |c.window| - 1 ==>
      BulkOffloadEnabled(s, s.offloadedCount + 1))
  }

  ghost function WindowCommit(c: Config, s: Snapshot): Snapshot
    requires c.Valid() && WindowCommitEnabled(c, s)
  {
    if c.window[s.offloadedCount] != s.currentGroup then s else
      var o := if s.offloadedCount < |c.window| - 1 then BulkOffload(s, s.offloadedCount + 1) else s;
      o.(tagToBuf := FreedBuffers(o.tagToBuf, s.offloadedCount), offloadedCount := s.offloadedCount + 1)
  }

  ghost predicate CommitForwardEnabled(c: Config, s: Snapshot)
    requires c.Valid()
  {
    (s.currentGroup == 0 ==> BulkOffloadEnabled(s, 0)) &&
    WindowCommitEnabled(c, if s.currentGroup == 0 then BulkOffload(s, 0) else s)
  }

  ghost function CommitForward(c: Config, s: Snapshot): Snapshot
    requires c.Valid() && CommitForwardEnabled(c, s)
  {
    WindowCommit(c, if s.currentGroup == 0 then BulkOffload(s, 0) else s)
      .(currentGroup := s.currentGroup + 1, tensorCount := 0)
  }

  predicate Recoverable(st: map<Tag, Saved>, g: int, copies: Copies) {
    forall tag | tag in st && tag.group == g && st[tag].OnHost? ::
      st[tag].key in copies.flats && |copies.flats[st[tag].key]| == Numel(st[tag].shape)
  }

  function MovedToDevice(st: map<Tag, Saved>, g: int, copies: Copies): map<Tag, Saved>
    requires Recoverable(st, g, copies)
  {
    map tag | tag in st ::
      if tag.group == g && st[tag].OnHost?
      then OnDevice(Tensor(Reloaded(g, st[tag].key), st[tag].shape, copies.flats[st[tag].key]))
      else st[tag]
  }

  /** The reload asserts, the dictionary lookups and `.view(shape)` all succeed. */
  predicate BulkReloadEnabled(c: Config, s: Snapshot, g: int) {
    g < |c.window| && g in s.groupMapping && Recoverable(s.tagToState, g, s.groupMapping[g])
  }

  function BulkReload(c: Config, s: Snapshot, g: int): Snapshot
    requires BulkReloadEnabled(c, s, g)
  {
    s.(tagToState := MovedToDevice(s.tagToState, g, s.groupMapping[g]), groupMapping := s.groupMapping - {g})
  }

  predicate CommitBackwardEnabled(c: Config, s: Snapshot)
    requires c.Valid()
  {
    s.currentGroup >= 1 && 1 <= s.offloadedCount <= |c.window| &&
    (c.window[s.offloadedCount - 1] == s.currentGroup - 1 ==>
      BulkReloadEnabled(c, s, s.offloadedCount - 1))
  }

  function CommitBackward(c: Config, s: Snapshot): Snapshot
    requires c.Valid() && CommitBackwardEnabled(c, s)
  {
    var s1 := if c.window[s.offloadedCount - 1] == s.currentGroup - 1
      then BulkReload(c, s, s.offloadedCount - 1).(offloadedCount := Max(1, s.offloadedCount - 1))
      else s;
    s1.(currentGroup := s.currentGroup - 1,
        offloadedCount := if s.currentGroup - 1 == 0 then 0 else s1.offloadedCount)
  }

  datatype Op = DoPush(tensor: Tensor, need: bool) | DoCommitForward | DoCommitBackward | DoPop(handle: Handle)

  ghost predicate Enabled(c: Config, s: Snapshot, op: Op)
    requires c.Valid()
  {
    match op
    case DoPush(t, need) => PushEnabled(s, need)
    case DoCommitForward => CommitForwardEnabled(c, s)
    case DoCommitBackward => CommitBackwardEnabled(c, s)
    case DoPop(h) => PopEnabled(s, h)
  }

  ghost function Step(c: Config, s: Snapshot, op: Op): Snapshot
    requires c.Valid() && Enabled(c, s, op)
  {
    match op
    case DoPush(t, need) => Push(c, s, t, need)
    case DoCommitForward => CommitForward(c, s)
    case DoCommitBackward => CommitBackward(c, s)
    case DoPop(h) => Pop(s, h)
  }

  lemma HostCopiesHold(st: map<Tag, Saved>, g: int, tag: Tag)
    requires KeysAgree(st, g) && tag in st && tag.group == g && st[tag].OnDevice?
    ensures st[tag].tensor.key in HostCopies(st, g).flats
    ensures HostCopies(st, g).flats[st[tag].tensor.key] == st[tag].tensor.flat
  {
  }
}
