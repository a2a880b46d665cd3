/** The relay as a whole: the broker's sessions, the policies behind them, and the bytes of their streams. */
module PermittedStream {
  import opened Upgrade
  import opened BrokerRuns
  import opened Policy
  import Broker
  import RelayStream

  /** A critical section of the broker, or a step of the stream between the two connections of a session. */
  datatype Event = OnBroker(step: Broker.Step) | OnStream(id: string, move: RelayStream.Step)

  function BrokerSteps(events: seq<Event>): seq<Broker.Step> {
    if events == [] then []
    else
      var last := events[|events| - 1];
      BrokerSteps(events[..|events| - 1]) + if last.OnBroker? then [last.step] else []
  }

  function Moves(events: seq<Event>, id: string): seq<RelayStream.Step> {
    if events == [] then []
    else
      var last := events[|events| - 1];
      Moves(events[..|events| - 1], id) + if last.OnStream? && last.id == id then [last.move] else []
  }

  /** The broker has started a proxy pair for the session. */
  ghost predicate Paired(steps: seq<Broker.Step>, id: string) {
    exists p :: p in Broker.Run(steps).pairs && p.id == id
  }

  /** Only `attach` starts pumping between two connections: a stream is joined after the broker made its pair. */
  ghost predicate Brokered(events: seq<Event>) {
    forall k, id :: 0 <= k < |events| && events[k] == OnStream(id, RelayStream.StartPair) ==>
        Paired(BrokerSteps(events[..k]), id)
  }

  lemma PairsStay(steps: seq<Broker.Step>, step: Broker.Step, id: string)
    requires Paired(steps, id)
    ensures Paired(steps + [step], id)
  {
    var p :| p in Broker.Run(steps).pairs && p.id == id;
    assert (steps + [step])[..|steps|] == steps;
    assert p in Broker.Run(steps + [step]).pairs;
  }

  /** A stream that was ever joined belongs to a session the broker paired. */
  lemma {:induction false} JoinedIsPaired(events: seq<Event>, id: string)
    requires Brokered(events) && RelayStream.StartPair in Moves(events, id)
    ensures Paired(BrokerSteps(events), id)
  {
    var n := |events| - 1;
    var before, last := events[..n], events[n];
    assert forall k :: 0 <= k < n ==> before[..k] == events[..k] && before[k] == events[k];
    assert !last.OnBroker? ==> BrokerSteps(events) == BrokerSteps(before);
    if RelayStream.StartPair in Moves(before, id) {
      JoinedIsPaired(before, id);
      if last.OnBroker? {
        PairsStay(BrokerSteps(before), last.step, id);
      }
    } else {
      assert events[n] == OnStream(id, RelayStream.StartPair);
    }
  }

  lemma {:induction false} PairedByStart(h: RelayStream.Handshake, moves: seq<RelayStream.Step>)
    requires RelayStream.Run(h, moves).paired
    ensures RelayStream.StartPair in moves
  {
    if moves != [] && RelayStream.Run(h, moves[..|moves| - 1]).paired {
      PairedByStart(h, moves[..|moves| - 1]);
    }
  }

  /** Until the stream is joined nothing is delivered at either end. */
  lemma UnjoinedDeliversNothing(s: RelayStream.State, e: RelayStream.End)
    requires RelayStream.Inv(s) && !s.paired
    ensures RelayStream.Delivered(s, e) == []
  {
    var from, to := s.At(e.Other()), s.At(e);
    assert RelayStream.RelayTaken(from) == [];
    RelayStream.DownSplits(to);
    assert |to.localOut.sent| <= |RelayStream.DownPayload(to)|;
  }

  /** The session of this id was opened by request `i`, whose own snapshot held an enabled policy from its source
      to its target, and its source and its target then joined it in time, at steps `a` and `b`. */
  ghost predicate PermittedAt(requests: seq<Request>, steps: seq<Broker.Step>, id: string, i: nat, a: nat, b: nat) {
    && i < |requests| == |steps| && steps[i].CreateStep? && steps[i].id == id
    && Authorised(requests[i], steps[i].Session()) && Met(steps, i, a, b, steps[i].Session())
  }

  ghost predicate Permitted(requests: seq<Request>, steps: seq<Broker.Step>, id: string) {
    exists i: nat, a: nat, b: nat :: PermittedAt(requests, steps, id, i, a, b)
  }

  lemma PairIsPermitted(fold: Fold, requests: seq<Request>, steps: seq<Broker.Step>, id: string)
    requires Gated(fold, requests, steps) && Fresh(steps) && Paired(steps, id)
    ensures Permitted(requests, steps, id)
  {
    var p :| p in Broker.Run(steps).pairs && p.id == id;
    PolicyBehindEverySession(fold, requests, steps, id);
    var i: nat :| i < |requests| && requests[i].Open? && requests[i].id == id &&
        Authorised(requests[i], steps[i].Session());
    PairFate(steps, i, p);
    var a: nat, b: nat :| Met(steps, i, a, b, steps[i].Session()) &&
        p == Broker.Pair(p.id, steps[a].conn, steps[b].conn);
    assert PermittedAt(requests, steps, id, i, a, b);
  }

  /** End to end, over every interleaving of broker, agents and applications: what is delivered at one end of a
      session's stream is a prefix of what was written at the other, and nothing at all is delivered unless the
      session was opened under a policy that permits its source to reach its target, and both of those devices
      joined it themselves, in time. */
  lemma DeliveredIsPermitted(fold: Fold, requests: seq<Request>, events: seq<Event>, h: RelayStream.Handshake,
                             id: string,
                             e: RelayStream.End)
    requires Brokered(events) && h.Valid()
    requires Gated(fold, requests, BrokerSteps(events)) && Fresh(BrokerSteps(events))
    ensures var s := RelayStream.Run(h, Moves(events, id));
            && RelayStream.Delivered(s, e.Other()) <= RelayStream.Written(s, e)
            && (RelayStream.Delivered(s, e) != [] ==> Permitted(requests, BrokerSteps(events), id))
  {
    var s := RelayStream.Run(h, Moves(events, id));
    RelayStream.StreamFidelity(h, Moves(events, id), e);
    RelayStream.RunKeepsInv(h, Moves(events, id));
    if s.paired {
      PairedByStart(h, Moves(events, id));
      JoinedIsPaired(events, id);
      PairIsPermitted(fold, requests, BrokerSteps(events), id);
    } else {
      UnjoinedDeliversNothing(s, e);
    }
  }
}
