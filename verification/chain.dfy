/** The shape of the chain the constructor links: starting at the stage
    `run` calls and following `next`, the sender is reached after exactly one
    hop per node, every node is passed in list order, and no stage is met
    twice. */
module Chain {
  import opened Pipeline

  /** From node `i`, `k` hops land on node `i + k`, or on the sender once the
      nodes are used up. */
  lemma {:induction false} FollowFromNode(p: AsyncPipeline, i: nat, k: nat)
    requires i < |p.nodes| && k <= |p.nodes| - i
    ensures Follow(p, AtNode(i), k) == if i + k < |p.nodes| then AtNode(i + k) else AtSender
    decreases k
  {
    if k > 0 {
      if i + 1 < |p.nodes| {
        FollowFromNode(p, i + 1, k - 1);
      } else {
        assert Follow(p, AtNode(i), k) == Follow(p, AtSender, k - 1);
      }
    }
  }

  /** Following `next` from the first stage: hop `k` is node `k` while
      `k < n`, and hop `n` is the sender. */
  lemma FollowFromFirst(p: AsyncPipeline, k: nat)
    requires k <= |p.nodes|
    ensures k <= Remaining(p, First(p))
    ensures Follow(p, First(p), k) == if k < |p.nodes| then AtNode(k) else AtSender
  {
    if |p.nodes| > 0 {
      FollowFromNode(p, 0, k);
    }
  }

  /** The walk from the first stage has exactly `n` hops and meets no stage
      twice: there is no cycle. */
  lemma ChainIsSimple(p: AsyncPipeline, j: nat, k: nat)
    requires j < k <= |p.nodes|
    ensures Remaining(p, First(p)) == |p.nodes|
    ensures Follow(p, First(p), j) != Follow(p, First(p), k)
  {
    FollowFromFirst(p, j);
    FollowFromFirst(p, k);
  }

  /** The sender is where the walk ends: it is reached only at hop `n`. */
  lemma SenderOnlyAtEnd(p: AsyncPipeline, k: nat)
    requires k <= |p.nodes|
    ensures Follow(p, First(p), k) == AtSender <==> k == |p.nodes|
  {
    FollowFromFirst(p, k);
  }
}
