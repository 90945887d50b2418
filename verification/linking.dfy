/** The linking as the constructor writes it. `next` is a field of each node
    object, and the constructor assigns it position by position: the object
    at position `i` gets the object at position `i + 1`, and the object at
    the last position gets the sender. A runner is a fresh object made for
    its position, but a full policy is the object the caller supplied, so
    one listed twice is assigned twice and keeps the later value.

    With every object listed once this agrees with the position-based chain
    of the Pipeline module; with a full policy listed twice it does not. */
module Linking {
  import opened Policies
  import opened Pipeline

  /** The identity of a node object. */
  datatype Ref = RunnerObj(slot: nat) | PolicyObj(id: nat)

  /** The value of a `next` field: another node object, or the sender. */
  datatype Link = ToObj(target: Ref) | ToSender

  /** The object at position `i`. */
  function RefOf(p: AsyncPipeline, i: nat): Ref
    requires i < |p.nodes|
  {
    match p.nodes[i]
    case Runner(_) => RunnerObj(i)
    case Policy(f) => PolicyObj(f.id)
  }

  /** The value the assignment for position `i` writes: the object at the
      position `Next` names, or the sender. */
  function LinkFor(p: AsyncPipeline, i: nat): Link
    requires i < |p.nodes|
  {
    match Next(p, i)
    case AtNode(j) => ToObj(RefOf(p, j))
    case AtSender => ToSender
  }

  /** The last position before `m` holding object `r`, or -1 if none does. */
  function LastWriter(p: AsyncPipeline, m: nat, r: Ref): (j: int)
    requires m <= |p.nodes|
    ensures -1 <= j < m
    ensures j >= 0 ==> RefOf(p, j) == r && forall k | j < k < m :: RefOf(p, k) != r
    ensures j < 0 ==> forall k | 0 <= k < m :: RefOf(p, k) != r
  {
    if m == 0 then -1
    else if RefOf(p, m - 1) == r then m - 1
    else LastWriter(p, m - 1, r)
  }

  /** The `next` fields after the assignments for positions `0 .. m-1`, made
      in order: an object has a `next` once some position holding it has been
      assigned, and the last such assignment wins. */
  ghost predicate LinkedUpTo(p: AsyncPipeline, m: nat, links: map<Ref, Link>)
    requires m <= |p.nodes|
  {
    && (forall r :: r in links <==> LastWriter(p, m, r) >= 0)
    && (forall r | r in links :: links[r] == LinkFor(p, LastWriter(p, m, r)))
  }

  /** The constructor's two linking steps: the loop over `range(len - 1)`,
      then the assignment of the sender to the last node. */
  method LinkAsWritten(p: AsyncPipeline) returns (links: map<Ref, Link>)
    ensures forall i | 0 <= i < |p.nodes| :: RefOf(p, i) in links
    ensures |p.nodes| > 0 ==> links[RefOf(p, |p.nodes| - 1)] == ToSender
    ensures LinkedUpTo(p, |p.nodes|, links)
  {
    links := map[];
    var index := 0;
    while index < |p.nodes| - 1
      invariant 0 <= index <= |p.nodes|
      invariant |p.nodes| > 0 ==> index <= |p.nodes| - 1
      invariant LinkedUpTo(p, index, links)
    {
      AssignStep(p, index, links);
      links := links[RefOf(p, index) := ToObj(RefOf(p, index + 1))];
      index := index + 1;
    }
    if |p.nodes| > 0 {
      AssignStep(p, |p.nodes| - 1, links);
      links := links[RefOf(p, |p.nodes| - 1) := ToSender];
      assert LastWriter(p, |p.nodes|, RefOf(p, |p.nodes| - 1)) == |p.nodes| - 1;
    }
  }

  /** One assignment, for position `m`, extends the links of the positions
      before it. */
  lemma AssignStep(p: AsyncPipeline, m: nat, links: map<Ref, Link>)
    requires m < |p.nodes|
    requires LinkedUpTo(p, m, links)
    ensures LinkedUpTo(p, m + 1, links[RefOf(p, m) := LinkFor(p, m)])
  {
    var after := links[RefOf(p, m) := LinkFor(p, m)];
    forall r
      ensures r in after <==> LastWriter(p, m + 1, r) >= 0
      ensures r in after ==> after[r] == LinkFor(p, LastWriter(p, m + 1, r))
    {
      if r != RefOf(p, m) {
        assert LastWriter(p, m + 1, r) == LastWriter(p, m, r);
      }
    }
  }

  /** Positions holding the same full-policy identity hold the same object,
      and so the same code: what a well-formed node list satisfies. */
  ghost predicate IdentitiesConsistent(p: AsyncPipeline) {
    forall i, j | 0 <= i < |p.nodes| && 0 <= j < |p.nodes| && RefOf(p, i) == RefOf(p, j) ::
      p.nodes[i] == p.nodes[j]
  }

  /** No object appears at two positions. */
  predicate DistinctObjects(p: AsyncPipeline) {
    forall i, j | 0 <= i < j < |p.nodes| :: RefOf(p, i) != RefOf(p, j)
  }

  /** Runners never collide: objects repeat only when the same full policy
      is listed twice. */
  lemma OnlyRepeatedFullPoliciesCollide(p: AsyncPipeline)
    ensures DistinctObjects(p) <==>
      forall i, j | 0 <= i < j < |p.nodes| && p.nodes[i].Policy? && p.nodes[j].Policy? ::
        p.nodes[i].full.id != p.nodes[j].full.id
  {
    if !DistinctObjects(p) {
      var i, j :| 0 <= i < j < |p.nodes| && RefOf(p, i) == RefOf(p, j);
      assert p.nodes[i].Policy? && p.nodes[j].Policy?;
    } else {
      forall i, j | 0 <= i < j < |p.nodes| && p.nodes[i].Policy? && p.nodes[j].Policy?
        ensures p.nodes[i].full.id != p.nodes[j].full.id
      {
        assert RefOf(p, i) != RefOf(p, j);
      }
    }
  }

  /** When every object is listed once, the fields the constructor writes
      are the position-based links: node `i`'s `next` is node `i + 1`, and
      the last node's is the sender. */
  lemma DistinctObjectsLinkByPosition(p: AsyncPipeline, links: map<Ref, Link>)
    requires DistinctObjects(p)
    requires LinkedUpTo(p, |p.nodes|, links)
    ensures forall i | 0 <= i < |p.nodes| :: RefOf(p, i) in links && links[RefOf(p, i)] == LinkFor(p, i)
  {
    forall i | 0 <= i < |p.nodes|
      ensures RefOf(p, i) in links && links[RefOf(p, i)] == LinkFor(p, i)
    {
      var w := LastWriter(p, |p.nodes|, RefOf(p, i));
      assert w == i;
    }
  }

  /** Listing a full policy `a` twice, as in `[a, b, a]`, links `a` straight
      to the sender: the walk from the first node reaches the sender after
      one hop, and no `next` field leads to `b` at all, where the
      position-based chain calls all three nodes. */
  lemma DuplicatePolicySkipsNode(p: AsyncPipeline, links: map<Ref, Link>, a: FullPolicy, b: FullPolicy)
    requires a.id != b.id
    requires p.nodes == [Policy(a), Policy(b), Policy(a)]
    requires LinkedUpTo(p, |p.nodes|, links)
    ensures IdentitiesConsistent(p)
    ensures RefOf(p, 0) in links && links[RefOf(p, 0)] == ToSender
    ensures forall r | r in links :: links[r] != ToObj(PolicyObj(b.id))
    ensures Next(p, 0) == AtNode(1) && Next(p, 1) == AtNode(2) && Next(p, 2) == AtSender
  {
    assert LastWriter(p, 3, RefOf(p, 0)) == 2;
    forall r | r in links
      ensures links[r] != ToObj(PolicyObj(b.id))
    {
      var w := LastWriter(p, 3, r);
      assert w == 1 || w == 2;
    }
  }
}
