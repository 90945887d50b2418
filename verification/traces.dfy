/** Traces of a run and the properties the run lemmas state about them:
    which stages a trace calls, whether the sender is among them, whether
    every called node forwarded, and which nodes its events belong to. */
module Traces {
  import opened Pipeline
  import opened Policies

  /** The stages whose `send` a trace calls, in call order. */
  function Invoked(trace: seq<Event>): (ts: seq<Target>)
    ensures |ts| <= |trace|
  {
    if trace == [] then []
    else
      var rest := Invoked(trace[1..]);
      match trace[0]
      case NodeSend(i, _, _) => [AtNode(i)] + rest
      case SenderSend(_, _) => [AtSender] + rest
      case _ => rest
  }

  lemma {:induction false} InvokedConcat(a: seq<Event>, b: seq<Event>)
    ensures Invoked(a + b) == Invoked(a) + Invoked(b)
    decreases |a|
  {
    if a == [] {
      assert a + b == b;
    } else {
      assert (a + b)[0] == a[0];
      assert (a + b)[1..] == a[1..] + b;
      InvokedConcat(a[1..], b);
    }
  }

  /** The sender's `send` is called somewhere in the trace. */
  predicate SenderCalled(trace: seq<Event>) {
    exists j :: 0 <= j < |trace| && trace[j].SenderSend?
  }

  /** Every node called in the trace went on to call its `next`. */
  predicate NoShortCircuit(p: AsyncPipeline, trace: seq<Event>) {
    forall j :: 0 <= j < |trace| && trace[j].NodeSend? ==>
      trace[j].node < |p.nodes| && ForwardsOn(p.nodes[trace[j].node], trace[j].request, trace[j].kwargs)
  }

  /** Every event of a node in the trace belongs to a node at or after `lo`. */
  predicate EventsFrom(p: AsyncPipeline, trace: seq<Event>, lo: nat) {
    forall j :: 0 <= j < |trace| && !trace[j].SenderSend? ==> lo <= trace[j].node < |p.nodes|
  }

  lemma SenderCalledConcat(a: seq<Event>, b: seq<Event>)
    ensures SenderCalled(a + b) <==> SenderCalled(a) || SenderCalled(b)
  {
    if SenderCalled(a + b) {
      var j :| 0 <= j < |a + b| && (a + b)[j].SenderSend?;
      if j >= |a| {
        assert b[j - |a|].SenderSend?;
      }
    }
    if SenderCalled(b) {
      var j :| 0 <= j < |b| && b[j].SenderSend?;
      assert (a + b)[|a| + j].SenderSend?;
    }
    if SenderCalled(a) {
      var j :| 0 <= j < |a| && a[j].SenderSend?;
      assert (a + b)[j].SenderSend?;
    }
  }

  lemma NoShortCircuitConcat(p: AsyncPipeline, a: seq<Event>, b: seq<Event>)
    ensures NoShortCircuit(p, a + b) <==> NoShortCircuit(p, a) && NoShortCircuit(p, b)
  {
    if NoShortCircuit(p, a + b) {
      forall j | 0 <= j < |b| && b[j].NodeSend?
        ensures b[j].node < |p.nodes| && ForwardsOn(p.nodes[b[j].node], b[j].request, b[j].kwargs)
      {
        assert (a + b)[|a| + j] == b[j];
      }
      forall j | 0 <= j < |a| && a[j].NodeSend?
        ensures a[j].node < |p.nodes| && ForwardsOn(p.nodes[a[j].node], a[j].request, a[j].kwargs)
      {
        assert (a + b)[j] == a[j];
      }
    }
    if NoShortCircuit(p, a) && NoShortCircuit(p, b) {
      forall j | 0 <= j < |a + b| && (a + b)[j].NodeSend?
        ensures (a + b)[j].node < |p.nodes|
             && ForwardsOn(p.nodes[(a + b)[j].node], (a + b)[j].request, (a + b)[j].kwargs)
      {
        if j >= |a| {
          assert (a + b)[j] == b[j - |a|];
        }
      }
    }
  }

  lemma EventsFromConcat(p: AsyncPipeline, a: seq<Event>, b: seq<Event>, lo: nat)
    ensures EventsFrom(p, a + b, lo) <==> EventsFrom(p, a, lo) && EventsFrom(p, b, lo)
  {
    if EventsFrom(p, a + b, lo) {
      forall j | 0 <= j < |b| && !b[j].SenderSend?
        ensures lo <= b[j].node < |p.nodes|
      {
        assert (a + b)[|a| + j] == b[j];
      }
      forall j | 0 <= j < |a| && !a[j].SenderSend?
        ensures lo <= a[j].node < |p.nodes|
      {
        assert (a + b)[j] == a[j];
      }
    }
    if EventsFrom(p, a, lo) && EventsFrom(p, b, lo) {
      forall j | 0 <= j < |a + b| && !(a + b)[j].SenderSend?
        ensures lo <= (a + b)[j].node < |p.nodes|
      {
        if j >= |a| {
          assert (a + b)[j] == b[j - |a|];
        }
      }
    }
  }

  /** All three trace properties hold of the glue `head + mid + tail` as soon
      as they hold of its pieces. */
  lemma Glue(p: AsyncPipeline, head: seq<Event>, mid: seq<Event>, tail: seq<Event>, lo: nat)
    ensures SenderCalled(head + mid + tail) <==> SenderCalled(head) || SenderCalled(mid) || SenderCalled(tail)
    ensures NoShortCircuit(p, head + mid + tail)
        <==> NoShortCircuit(p, head) && NoShortCircuit(p, mid) && NoShortCircuit(p, tail)
    ensures EventsFrom(p, head + mid + tail, lo)
        <==> EventsFrom(p, head, lo) && EventsFrom(p, mid, lo) && EventsFrom(p, tail, lo)
  {
    SenderCalledConcat(head, mid);
    SenderCalledConcat(head + mid, tail);
    NoShortCircuitConcat(p, head, mid);
    NoShortCircuitConcat(p, head + mid, tail);
    EventsFromConcat(p, head, mid, lo);
    EventsFromConcat(p, head + mid, tail, lo);
  }

  /** The sender's event is in a trace exactly when the sender is among the
      stages the trace calls. */
  lemma {:induction false} SenderCalledInvoked(trace: seq<Event>)
    ensures SenderCalled(trace) <==> AtSender in Invoked(trace)
    decreases |trace|
  {
    if trace != [] {
      SenderCalledInvoked(trace[1..]);
      SenderCalledConcat([trace[0]], trace[1..]);
      assert [trace[0]] + trace[1..] == trace;
    }
  }
}
