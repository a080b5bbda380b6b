/** The batch blocker: one block request per screen name of the list, in list
    order, duplicates included; an exception from any request ends the batch
    at once (it propagates to the drive loop's single handler). */
module Blocking {

  /** What a batch did: whether every request returned, and the screen names
      a block request was issued for, in issue order (the last one is the
      request that raised when `ok` is false). */
  datatype BlockRun = BlockRun(ok: bool, issued: seq<string>)

  /** The block endpoint: `block(n, name)` is false when the `n`-th block
      request of the run, the one for `name`, raises. */
  type BlockOracle = (nat, string) -> bool

  /** The batch for `names`, when `nb` block requests were issued before it. */
  function BlockAll(block: BlockOracle, nb: nat, names: seq<string>): BlockRun
    decreases |names|
  {
    if names == [] then BlockRun(true, [])
    else if !block(nb, names[0]) then BlockRun(false, [names[0]])
    else
      var rest := BlockAll(block, nb + 1, names[1..]);
      BlockRun(rest.ok, [names[0]] + rest.issued)
  }

  /** The batch that first issued `done`, every request of which returned,
      and then went on as `rest`. */
  function After(done: seq<string>, rest: BlockRun): BlockRun {
    BlockRun(rest.ok, done + rest.issued)
  }

  /** The batch for `names` seen from its `k`-th entry on: that request
      either returns and the batch goes on from the next entry, or raises
      and the batch ends with it. */
  lemma BlockAllStep(block: BlockOracle, nb: nat, names: seq<string>, k: nat, whole: BlockRun)
    requires k < |names|
    requires whole == After(names[..k], BlockAll(block, nb, names[k..]))
    ensures block(nb, names[k]) ==> whole == After(names[..k + 1], BlockAll(block, nb + 1, names[k + 1..]))
    ensures !block(nb, names[k]) ==> whole == BlockRun(false, names[..k + 1])
  {
    assert names[k..][0] == names[k] && names[k..][1..] == names[k + 1..];
    assert names[..k + 1] == names[..k] + [names[k]];
  }

  /** Every request for `names`, issued from request number `nb` on, returns. */
  predicate AllSucceed(block: BlockOracle, nb: nat, names: seq<string>) {
    forall k :: 0 <= k < |names| ==> block(nb + k, names[k])
  }

  /** The requests issued are a prefix of the list; the batch completes
      exactly when every request returns, and then one request was issued per
      entry of the list. */
  lemma {:induction false} BlockAllIssuesInOrder(block: BlockOracle, nb: nat, names: seq<string>)
    ensures BlockAll(block, nb, names).issued <= names
    ensures BlockAll(block, nb, names).ok <==> AllSucceed(block, nb, names)
    ensures BlockAll(block, nb, names).ok ==> BlockAll(block, nb, names).issued == names
    decreases |names|
  {
    if names != [] {
      BlockAllIssuesInOrder(block, nb + 1, names[1..]);
      if block(nb, names[0]) && AllSucceed(block, nb + 1, names[1..]) {
        forall k | 0 <= k < |names|
          ensures block(nb + k, names[k])
        {
          if k > 0 {
            assert names[k] == names[1..][k - 1];
          }
        }
      }
      if AllSucceed(block, nb, names) {
        forall k | 0 <= k < |names[1..]|
          ensures block(nb + 1 + k, names[1..][k])
        {
          assert names[1..][k] == names[k + 1];
        }
      }
    }
  }

  /** A batch that fails stops at the first request that raises: every
      earlier request returned, the last issued one raised, and none of the
      remaining names got a request. */
  lemma {:induction false} BlockAllStopsAtFirstFailure(block: BlockOracle, nb: nat, names: seq<string>)
    requires !BlockAll(block, nb, names).ok
    ensures var issued := BlockAll(block, nb, names).issued;
      && 0 < |issued| <= |names|
      && issued == names[..|issued|]
      && (forall k :: 0 <= k < |issued| - 1 ==> block(nb + k, names[k]))
      && !block(nb + |issued| - 1, names[|issued| - 1])
    decreases |names|
  {
    if block(nb, names[0]) {
      var tail := names[1..];
      BlockAllStopsAtFirstFailure(block, nb + 1, tail);
      var rest := BlockAll(block, nb + 1, tail).issued;
      var issued := BlockAll(block, nb, names).issued;
      assert issued == [names[0]] + rest;
      assert names[..|issued|] == [names[0]] + tail[..|rest|];
      assert names[|issued| - 1] == tail[|rest| - 1];
      forall k | 0 < k < |issued| - 1
        ensures block(nb + k, names[k])
      {
        assert names[k] == tail[k - 1];
      }
    }
  }
}
