/** The constructor's wrapping loses nothing: the entry list can be read
    back from the nodes, and every node list is what some entry list
    builds. */
module Construction {
  import opened Wrappers
  import Sender
  import opened Policies
  import opened Pipeline

  /** The entries the nodes were made from, in order. */
  function UnwrapAll(nodes: seq<Node>): (ps: seq<PolicyEntry>)
    ensures |ps| == |nodes|
    ensures forall i | 0 <= i < |nodes| :: ps[i] == Unwrap(nodes[i])
  {
    if nodes == [] then [] else [Unwrap(nodes[0])] + UnwrapAll(nodes[1..])
  }

  /** Wrapping then unwrapping gives back the original list: order, count,
      and which entries were SansIO are all kept. */
  lemma UnwrapAfterWrap(ps: seq<PolicyEntry>)
    ensures UnwrapAll(WrapAll(ps)) == ps
  {
    var back := UnwrapAll(WrapAll(ps));
    forall i | 0 <= i < |ps|
      ensures back[i] == ps[i]
    {
      assert Wraps(ps[i], WrapAll(ps)[i]);
    }
  }

  /** Unwrapping then wrapping gives back the original nodes. */
  lemma WrapAfterUnwrap(nodes: seq<Node>)
    ensures WrapAll(UnwrapAll(nodes)) == nodes
  {
    var again := WrapAll(UnwrapAll(nodes));
    forall i | 0 <= i < |nodes|
      ensures again[i] == nodes[i]
    {
      assert Wraps(UnwrapAll(nodes)[i], again[i]);
    }
  }

  /** A missing list and an empty list both give a pipeline without nodes,
      whose first stage is the sender. */
  lemma NoPoliciesNoNodes(policies: Option<seq<PolicyEntry>>, sender: Sender.AsyncSender)
    requires policies.None? || policies == Some([])
    ensures NewPipeline(policies, sender).nodes == []
    ensures First(NewPipeline(policies, sender)) == AtSender
  {
  }
}
