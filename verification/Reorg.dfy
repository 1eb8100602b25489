/** The read-only half of a reorg: walking two chains back to their common ancestor, and what the
    indexes must become. */
module Reorg {
  import opened BlockTree

  datatype Error =
    | HeadMissing | InvalidOldChain | InvalidNewChain
    | UnknownAncestor | StateCommitFailed | ForkChoiceFailed | StateNotRecovered

  datatype Result<+T> = Ok(value: T) | Err(error: Error)

  /** oldChain and newChain run from the heads down to, but without, the common block. */
  datatype Fork = Fork(common: Block, oldChain: seq<Block>, newChain: seq<Block>, deletedTxs: seq<Hash>)

  ghost predicate IsOnPath(s: Store, top: Block, b: Block) {
    b.hash in s && s[b.hash] == b && AncestorAt(s, top.hash, b.number) == b.hash
  }

  /** chain is the blocks above bottom on the path to top, highest first. */
  ghost predicate Segment(s: Store, top: Block, bottom: Block, chain: seq<Block>) {
    && IsAncestor(s, bottom.hash, top.hash)
    && s[bottom.hash] == bottom
    && s[top.hash] == top
    && |chain| == top.number - bottom.number
    && forall i | 0 <= i < |chain| :: chain[i].number == top.number - i && IsOnPath(s, top, chain[i])
  }

  function TxsOf(chain: seq<Block>): seq<Hash> {
    if chain == [] then [] else TxsOf(chain[..|chain| - 1]) + chain[|chain| - 1].txs
  }

  lemma {:induction false} TxsOfMember(chain: seq<Block>, tx: Hash)
    ensures tx in TxsOf(chain) <==> exists i :: 0 <= i < |chain| && tx in chain[i].txs
  {
    if chain != [] {
      var front := chain[..|chain| - 1];
      TxsOfMember(front, tx);
      if i :| 0 <= i < |chain| && tx in chain[i].txs {
        if i < |front| {
          assert front[i] == chain[i];
        }
      }
      if i :| 0 <= i < |front| && tx in front[i].txs {
        assert chain[i] == front[i];
      }
    }
  }

  lemma TxsOfSnoc(chain: seq<Block>, b: Block)
    ensures TxsOf(chain + [b]) == TxsOf(chain) + b.txs
  {
    assert (chain + [b])[..|chain|] == chain;
  }

  /** One more step down extends a segment at its low end. */
  lemma SegmentStep(s: Store, genesis: Hash, top: Block, bottom: Block, chain: seq<Block>)
    requires Tree(s, genesis)
    requires Segment(s, top, bottom, chain)
    requires bottom.number > 0
    ensures bottom.parent in s
    ensures Segment(s, top, s[bottom.parent], chain + [bottom])
  {
    assert Attached(s, genesis, bottom.hash);
    var p := s[bottom.parent];
    assert p.hash == bottom.parent by { assert Attached(s, genesis, bottom.parent); }
    assert IsAncestor(s, p.hash, top.hash) by {
      AncestorCompose(s, genesis, top.hash, bottom.number, p.number);
      assert AncestorAt(s, bottom.hash, p.number) == p.hash;
    }
  }

  lemma SegmentEmpty(s: Store, b: Block)
    requires Stored(s, b)
    ensures Segment(s, b, b, [])
  {
  }

  /** The two chains, walked back in step from one number, have not met above their current blocks. */
  ghost predicate Apart(s: Store, a: Block, b: Block, n: nat) {
    n == a.number || n == b.number || AncestorAt(s, a.hash, n + 1) != AncestorAt(s, b.hash, n + 1)
  }

  /** Different blocks at one number have no common ancestor at or above it. */
  lemma MeetIsHighest(s: Store, genesis: Hash, a: Block, b: Block, meet: Block)
    requires Tree(s, genesis)
    requires Stored(s, a) && Stored(s, b)
    requires IsAncestor(s, meet.hash, a.hash) && IsAncestor(s, meet.hash, b.hash) && s[meet.hash] == meet
    requires Apart(s, a, b, meet.number)
    ensures HighestCommon(s, a.hash, b.hash, meet.hash)
  {
    forall x | IsAncestor(s, x, a.hash) && IsAncestor(s, x, b.hash)
      ensures s[x].number <= meet.number
    {
      if s[x].number > meet.number {
        SharedBelow(s, genesis, a.hash, b.hash, s[x].number);
      }
    }
  }

  /** Walk down from head to number n, collecting the blocks passed and their transactions. */
  method Descend(s: Store, ghost genesis: Hash, head: Block, n: nat)
    returns (at: Option<Block>, chain: seq<Block>, txs: seq<Hash>)
    requires n <= head.number
    ensures at.Some? ==> at.value.number == n && txs == TxsOf(chain)
    ensures Tree(s, genesis) && Stored(s, head) ==> at.Some? && Segment(s, head, at.value, chain)
  {
    ghost var good := Tree(s, genesis) && Stored(s, head);
    var block := head;
    chain, txs := [], [];
    if good {
      SegmentEmpty(s, head);
    }
    while block.number != n
      invariant block.number >= n
      invariant good ==> Segment(s, head, block, chain)
      invariant txs == TxsOf(chain)
      decreases block.number
    {
      if good {
        SegmentStep(s, genesis, head, block, chain);
      }
      TxsOfSnoc(chain, block);
      chain, txs := chain + [block], txs + block.txs;
      at := GetBlock(s, block.parent, block.number - 1);
      if at.None? {
        return;
      }
      block := at.value;
    }
    at := Some(block);
  }

  /** The walk of reorg: level the longer chain, then step both back until they meet. */
  method FindFork(s: Store, ghost genesis: Hash, oldHead: Block, newHead: Block) returns (r: Result<Fork>)
    ensures Tree(s, genesis) && Stored(s, oldHead) && Stored(s, newHead) ==>
              && r.Ok?
              && HighestCommon(s, oldHead.hash, newHead.hash, r.value.common.hash)
              && Segment(s, oldHead, r.value.common, r.value.oldChain)
              && Segment(s, newHead, r.value.common, r.value.newChain)
    ensures r.Ok? ==> r.value.deletedTxs == TxsOf(r.value.oldChain)
    ensures r.Err? ==> r.error == InvalidOldChain || r.error == InvalidNewChain
  {
    ghost var good := Tree(s, genesis) && Stored(s, oldHead) && Stored(s, newHead);
    var oldBlock, newBlock := oldHead, newHead;
    var oldChain: seq<Block>, newChain: seq<Block>, deletedTxs: seq<Hash> := [], [], [];
    if good {
      SegmentEmpty(s, oldHead);
      SegmentEmpty(s, newHead);
    }
    var at: Option<Block>;
    if oldBlock.number > newBlock.number {
      at, oldChain, deletedTxs := Descend(s, genesis, oldHead, newBlock.number);
      if at.None? {
        return Err(InvalidOldChain);
      }
      oldBlock := at.value;
    } else {
      var passed;
      at, newChain, passed := Descend(s, genesis, newHead, oldBlock.number);
      if at.None? {
        return Err(InvalidNewChain);
      }
      newBlock := at.value;
    }
    while oldBlock.hash != newBlock.hash
      invariant oldBlock.number == newBlock.number
      invariant good ==> Segment(s, oldHead, oldBlock, oldChain)
      invariant good ==> Segment(s, newHead, newBlock, newChain)
      invariant good ==> Apart(s, oldHead, newHead, oldBlock.number)
      invariant deletedTxs == TxsOf(oldChain)
      decreases oldBlock.number
    {
      if good {
        assert Attached(s, genesis, oldBlock.hash) && Attached(s, genesis, newBlock.hash);
        SegmentStep(s, genesis, oldHead, oldBlock, oldChain);
        SegmentStep(s, genesis, newHead, newBlock, newChain);
      }
      TxsOfSnoc(oldChain, oldBlock);
      oldChain, deletedTxs := oldChain + [oldBlock], deletedTxs + oldBlock.txs;
      newChain := newChain + [newBlock];
      at := GetBlock(s, oldBlock.parent, oldBlock.number - 1);
      if at.None? {
        return Err(InvalidOldChain);
      }
      oldBlock := at.value;
      at := GetBlock(s, newBlock.parent, newBlock.number - 1);
      if at.None? {
        return Err(InvalidNewChain);
      }
      newBlock := at.value;
    }
    if good {
      MeetIsHighest(s, genesis, oldHead, newHead, oldBlock);
    }
    return Ok(Fork(oldBlock, oldChain, newChain, deletedTxs));
  }
}
