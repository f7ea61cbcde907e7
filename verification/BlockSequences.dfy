/** Joining sequences and cutting them into equal blocks. */
module BlockSequences {
  import opened Common

  function Flatten<A>(blocks: seq<seq<A>>): seq<A> {
    if blocks == [] then [] else blocks[0] + Flatten(blocks[1..])
  }

  lemma BlockFits(n: nat, k: nat, r: nat)
    requires r < n
    ensures 0 <= r * k <= r * k + k <= n * k
  {
    MulMonotone(0, r, k);
    MulMonotone(r + 1, n, k);
    assert (r + 1) * k == r * k + k;
  }

  /** Block r of n equal ones of size k. */
  function Block<A>(x: seq<A>, n: nat, k: nat, r: nat): (b: seq<A>)
    requires |x| == n * k && r < n
    ensures |b| == k
  {
    BlockFits(n, k, r);
    x[r * k..r * k + k]
  }

  function Blocks<A>(x: seq<A>, n: nat, k: nat): (bs: seq<seq<A>>)
    requires |x| == n * k
    ensures |bs| == n && forall r | 0 <= r < n :: |bs[r]| == k
  {
    seq(n, r requires 0 <= r < n => Block(x, n, k, r))
  }

  ghost predicate Even<A>(blocks: seq<seq<A>>, k: nat) {
    forall r | 0 <= r < |blocks| :: |blocks[r]| == k
  }

  lemma {:induction false} FlattenLength<A>(blocks: seq<seq<A>>, k: nat)
    requires Even(blocks, k)
    ensures |Flatten(blocks)| == |blocks| * k
  {
    if blocks == [] {
    } else {
      FlattenLength(blocks[1..], k);
      assert |blocks| * k == k + (|blocks| - 1) * k;
    }
  }

  /** Splitting what was joined gives the blocks back. */
  lemma {:induction false} BlockOfFlatten<A>(blocks: seq<seq<A>>, k: nat, r: nat)
    requires Even(blocks, k) && r < |blocks|
    ensures |Flatten(blocks)| == |blocks| * k && Block(Flatten(blocks), |blocks|, k, r) == blocks[r]
  {
    FlattenLength(blocks, k);
    BlockFits(|blocks|, k, r);
    if r == 0 {
      assert 0 * k == 0;
    } else {
      BlockOfFlatten(blocks[1..], k, r - 1);
      BlockFits(|blocks| - 1, k, r - 1);
      assert r * k == (r - 1) * k + k;
      assert Flatten(blocks)[k..] == Flatten(blocks[1..]);
    }
  }

  lemma BlocksOfFlatten<A>(blocks: seq<seq<A>>, k: nat)
    requires Even(blocks, k)
    ensures |Flatten(blocks)| == |blocks| * k && Blocks(Flatten(blocks), |blocks|, k) == blocks
  {
    FlattenLength(blocks, k);
    forall r | 0 <= r < |blocks| ensures Block(Flatten(blocks), |blocks|, k, r) == blocks[r] {
      BlockOfFlatten(blocks, k, r);
    }
  }

  /** Joining what was split gives the sequence back. */
  lemma {:induction false} FlattenOfBlocks<A>(x: seq<A>, n: nat, k: nat)
    requires |x| == n * k
    ensures Flatten(Blocks(x, n, k)) == x
  {
    if n == 0 {
      assert 0 * k == 0;
    } else {
      assert n * k == k + (n - 1) * k;
      var rest := x[k..];
      FlattenOfBlocks(rest, n - 1, k);
      var bs := Blocks(x, n, k);
      assert 0 * k == 0 && bs[0] == x[..k];
      forall r | 0 <= r < n - 1 ensures bs[1..][r] == Blocks(rest, n - 1, k)[r] {
        BlockFits(n, k, r + 1);
        BlockFits(n - 1, k, r);
        var at := r * k;
        assert (r + 1) * k == at + k;
        assert rest[at..at + k] == x[at + k..at + k + k];
      }
      assert bs[1..] == Blocks(rest, n - 1, k);
    }
  }

  lemma {:induction false} FlattenConcat<A>(a: seq<seq<A>>, b: seq<seq<A>>)
    ensures Flatten(a + b) == Flatten(a) + Flatten(b)
  {
    if a == [] {
      assert a + b == b;
    } else {
      assert (a + b)[1..] == a[1..] + b;
      FlattenConcat(a[1..], b);
    }
  }

  lemma FlattenPrefix<A>(blocks: seq<seq<A>>, p: nat)
    requires p < |blocks|
    ensures Flatten(blocks[..p + 1]) == Flatten(blocks[..p]) + blocks[p]
  {
    assert blocks[..p + 1] == blocks[..p] + [blocks[p]];
    FlattenConcat(blocks[..p], [blocks[p]]);
    assert [blocks[p]][1..] == [];
  }

  /** f applied to every element. */
  function Each<S, T>(f: S -> T, s: seq<S>): (r: seq<T>)
    ensures |r| == |s|
  {
    seq(|s|, i requires 0 <= i < |s| => f(s[i]))
  }

  lemma EachConcat<S, T>(f: S -> T, a: seq<S>, b: seq<S>)
    ensures Each(f, a + b) == Each(f, a) + Each(f, b)
  {
  }
}
