/** What a joined stream can always still do: deliver everything that was written. */
module StreamProgress {
  import opened Upgrade
  import opened RelayStream

  function After(s: State, steps: seq<Step>): State {
    if steps == [] then s else Apply(After(s, steps[..|steps| - 1]), steps[|steps| - 1])
  }

  lemma {:induction false} AfterConcat(s: State, a: seq<Step>, b: seq<Step>)
    ensures After(s, a + b) == After(After(s, a), b)
  {
    if b == [] {
      assert a + b == a;
    } else {
      AfterConcat(s, a, b[..|b| - 1]);
      assert (a + b)[..|a + b| - 1] == a + b[..|b| - 1];
    }
  }

  lemma {:induction false} RunOn(h: Handshake, moves: seq<Step>, more: seq<Step>)
    ensures Run(h, moves + more) == After(Run(h, moves), more)
  {
    if more == [] {
      assert moves + more == moves;
    } else {
      RunOn(h, moves, more[..|more| - 1]);
      assert (moves + more)[..|moves + more| - 1] == moves + more[..|more| - 1];
    }
  }

  /** Nothing new is written and nothing is closed. */
  predicate Quiet(steps: seq<Step>) {
    forall k :: 0 <= k < |steps| ==> !steps[k].AppWrite? && !steps[k].AgentClose? && !steps[k].RelayClose?
  }

  /** Every step is one agent's, or its application's. */
  predicate OnLeg(steps: seq<Step>, e: End) {
    forall k :: 0 <= k < |steps| ==> OfOneLeg(steps[k]) && steps[k].e == e
  }

  function LegAfter(l: Leg, steps: seq<Step>): Leg {
    if steps == [] then l else ApplyLeg(LegAfter(l, steps[..|steps| - 1]), steps[|steps| - 1])
  }

  lemma {:induction false} AfterOnLeg(s: State, e: End, steps: seq<Step>)
    requires OnLeg(steps, e)
    ensures After(s, steps) == s.With(e, LegAfter(s.At(e), steps))
  {
    if steps != [] {
      AfterOnLeg(s, e, steps[..|steps| - 1]);
      ApplyToLeg(After(s, steps[..|steps| - 1]), steps[|steps| - 1]);
    }
  }

  lemma LegThree(l: Leg, a: Step, b: Step, c: Step)
    ensures LegAfter(l, [a, b, c]) == ApplyLeg(ApplyLeg(ApplyLeg(l, a), b), c)
  {
    assert [a][..0] == [] && [a, b][..1] == [a] && [a, b, c][..2] == [a, b];
    assert LegAfter(l, [a]) == ApplyLeg(l, a);
    assert LegAfter(l, [a, b]) == ApplyLeg(LegAfter(l, [a]), b);
  }

  lemma AfterThree(s: State, a: Step, b: Step, c: Step)
    ensures After(s, [a, b, c]) == Apply(Apply(Apply(s, a), b), c)
  {
    assert [a][..0] == [] && [a, b][..1] == [a] && [a, b, c][..2] == [a, b];
    assert After(s, [a]) == Apply(s, a);
    assert After(s, [a, b]) == Apply(After(s, [a]), b);
  }

  lemma LegConcat(l: Leg, a: seq<Step>, b: seq<Step>)
    ensures LegAfter(l, a + b) == LegAfter(LegAfter(l, a), b)
  {
    if b == [] {
      assert a + b == a;
    } else {
      LegConcat(l, a, b[..|b| - 1]);
      assert (a + b)[..|a + b| - 1] == a + b[..|b| - 1];
    }
  }

  // ---------------------------------------------------------------- one stage at a time

  lemma TakeAll(l: Link)
    ensures l.Chunk(|l.Unread()|) == l.Unread() && l.Take(|l.Unread()|).Unread() == []
  {
  }

  lemma WholeHand(hand: Bytes)
    ensures hand[..Cut(hand, |hand|)] == hand && hand[Cut(hand, |hand|)..] == []
  {
  }

  /** Once the agent has read all there is, it holds the whole response head. */
  lemma HeadArrives(l: Leg)
    requires LegInv(l) && IsResponseHead(l.head) && l.server.Attached?
    ensures Dial(l.down.sent).Upgraded?
  {
    WholeLink(l.down, l.head);
    HeadUpgrades(l.head, DownPayload(l));
  }

  lemma FillAll(l: Leg, e: End)
    requires LegInv(l) && l.agent.Requested?
    ensures var m := ApplyLeg(l, AgentFill(e, |l.down.Unread()|));
            m == l.(agentBuffer := l.down.sent, down := m.down)
  {
    TakeAll(l.down);
    assert l.down.sent[..l.down.taken] + l.down.Unread() == l.down.sent;
  }

  lemma LegTwo(l: Leg, a: Step, b: Step)
    ensures LegAfter(l, [a, b]) == ApplyLeg(ApplyLeg(l, a), b)
  {
    assert [a][..0] == [] && [a, b][..1] == [a];
    assert LegAfter(l, [a]) == ApplyLeg(l, a);
  }

  lemma UpgradeNow(m: Leg, e: End)
    requires m.agent.Requested? && Dial(m.agentBuffer).Upgraded?
    ensures ApplyLeg(m, AgentUpgrade(e)) == m.(agent := Streaming, agentBuffer := Dial(m.agentBuffer).payload)
  {
  }

  lemma AttachedHasAsked(l: Leg)
    requires LegInv(l) && l.server.Attached?
    ensures l.agent.Requested? || l.agent.Streaming?
  {
  }

  lemma FinishUpgrade(l: Leg, e: End) returns (steps: seq<Step>)
    requires LegInv(l) && IsResponseHead(l.head) && l.server.Attached? && l.agent.Requested?
    ensures OnLeg(steps, e) && Quiet(steps)
    ensures var m := LegAfter(l, steps); m == l.(agent := Streaming, agentBuffer := m.agentBuffer, down := m.down)
  {
    var fill, upgrade := AgentFill(e, |l.down.Unread()|), AgentUpgrade(e);
    steps := [fill, upgrade];
    FillAll(l, e);
    HeadArrives(l);
    UpgradeNow(ApplyLeg(l, fill), e);
    LegTwo(l, fill, upgrade);
  }

  /** The agent finishes the upgrade, if it has not: the whole response head is there to be read. */
  lemma UpgradeStage(l: Leg, e: End) returns (steps: seq<Step>)
    requires LegInv(l) && IsResponseHead(l.head) && l.server.Attached? && !l.agentClosed
    ensures OnLeg(steps, e) && Quiet(steps) && AgentPumps(LegAfter(l, steps))
    ensures var m := LegAfter(l, steps); m == l.(agent := Streaming, agentBuffer := m.agentBuffer, down := m.down)
  {
    AttachedHasAsked(l);
    if l.agent.Streaming? {
      steps := [];
    } else {
      steps := FinishUpgrade(l, e);
    }
  }

  /** The agent reads all its application wrote and puts it on the relay connection. */
  lemma UpStage(l: Leg, e: End) returns (steps: seq<Step>)
    requires AgentPumps(l)
    ensures OnLeg(steps, e) && Quiet(steps)
    ensures var m := LegAfter(l, steps);
            m == l.(localIn := m.localIn, upHand := [], up := m.up) && m.localIn.Unread() == []
  {
    var a := UpWrite(e, |l.upHand|);
    WholeHand(l.upHand);
    var first := ApplyLeg(l, a);
    var b := UpRead(e, |first.localIn.Unread()|);
    TakeAll(first.localIn);
    var second := ApplyLeg(first, b);
    var c := UpWrite(e, |second.upHand|);
    WholeHand(second.upHand);
    steps := [a, b, c];
    LegThree(l, a, b, c);
  }

  /** The agent moves one hand's worth on and picks up all its buffer, or all the relay connection, holds. */
  lemma PumpDown(l: Leg, e: End) returns (steps: seq<Step>)
    requires AgentPumps(l)
    ensures OnLeg(steps, e) && Quiet(steps)
    ensures var m := LegAfter(l, steps);
            && m == l.(downHand := [], agentBuffer := [], down := m.down, localOut := m.localOut)
            && (l.agentBuffer == [] ==> m.down.Unread() == [])
  {
    var a := DownWrite(e, |l.downHand|);
    WholeHand(l.downHand);
    var first := ApplyLeg(l, a);
    var n := if l.agentBuffer != [] then |l.agentBuffer| else |l.down.Unread()|;
    var b := DownRead(e, n);
    TakeAll(l.down);
    WholeHand(l.agentBuffer);
    var second := ApplyLeg(first, b);
    var c := DownWrite(e, |second.downHand|);
    WholeHand(second.downHand);
    steps := [a, b, c];
    LegThree(l, a, b, c);
  }

  /** The agent delivers all that is on its relay connection, and its application reads it. */
  lemma DownStage(l: Leg, e: End) returns (steps: seq<Step>)
    requires AgentPumps(l)
    ensures OnLeg(steps, e) && Quiet(steps)
    ensures var m := LegAfter(l, steps);
            && m == l.(downHand := [], agentBuffer := [], down := m.down, localOut := m.localOut)
            && m.down.Unread() == [] && m.localOut.Unread() == []
  {
    var first := PumpDown(l, e);
    var mid := LegAfter(l, first);
    var second := PumpDown(mid, e);
    LegConcat(l, first, second);
    var end := LegAfter(l, first + second);
    var read := AppRead(e, |end.localOut.Unread()|);
    TakeAll(end.localOut);
    steps := first + second + [read];
    assert steps[..|steps| - 1] == first + second;
  }

  predicate Joined(s: State) {
    s.paired && !s.relayClosed
  }

  lemma HandOver(s: State, e: End)
    requires Joined(s)
    ensures var t := Apply(s, RelayWrite(e, |s.At(e).relayHand|)); var to := s.At(e.Other());
            && Joined(t) && t.At(e) == s.At(e).(relayHand := [])
            && t == s.With(e, t.At(e)).With(e.Other(), to.(down := t.At(e.Other()).down))
  {
    WholeHand(s.At(e).relayHand);
  }

  lemma PickUp(s: State, e: End)
    requires Joined(s) && s.At(e).relayHand == []
    ensures var t := Apply(s, RelayRead(e, |s.At(e).up.Unread()|)); var l := t.At(e);
            && Joined(t) && t == s.With(e, l) && l == s.At(e).(relayHand := l.relayHand, up := l.up)
            && l.up.Unread() == []
  {
    TakeAll(s.At(e).up);
  }

  /** The controller moves everything on one leg to the other. */
  lemma RelayStage(s: State, e: End) returns (steps: seq<Step>)
    requires Joined(s)
    ensures Quiet(steps)
    ensures var t := After(s, steps); var from, to := t.At(e), t.At(e.Other());
            && t == s.With(e, s.At(e).(relayHand := [], up := from.up))
                     .With(e.Other(), s.At(e.Other()).(down := to.down))
            && from.up.Unread() == []
  {
    var a := RelayWrite(e, |s.At(e).relayHand|);
    HandOver(s, e);
    var first := Apply(s, a);
    var b := RelayRead(e, |first.At(e).up.Unread()|);
    PickUp(first, e);
    var second := Apply(first, b);
    var c := RelayWrite(e, |second.At(e).relayHand|);
    HandOver(second, e);
    steps := [a, b, c];
    AfterThree(s, a, b, c);
  }

  // ---------------------------------------------------------------- both directions

  /** Both agents pump. */
  predicate Pumping(s: State) {
    Joined(s) && AgentPumps(s.source) && AgentPumps(s.target)
  }

  /** Nothing is left on the way from the application at this end to the controller's other leg. */
  predicate UpEmpty(l: Leg) {
    l.upHand == [] && l.localIn.Unread() == []
  }

  predicate RelayEmpty(l: Leg) {
    UpEmpty(l) && l.relayHand == [] && l.up.Unread() == []
  }

  predicate DownEmpty(l: Leg) {
    l.downHand == [] && l.agentBuffer == [] && l.down.Unread() == [] && l.localOut.Unread() == []
  }

  lemma LiftLeg(s: State, e: End, steps: seq<Step>)
    requires OnLeg(steps, e)
    ensures After(s, steps).At(e) == LegAfter(s.At(e), steps) && After(s, steps).At(e.Other()) == s.At(e.Other())
    ensures After(s, steps).paired == s.paired && After(s, steps).relayClosed == s.relayClosed
  {
    AfterOnLeg(s, e, steps);
  }

  lemma QuietConcat(a: seq<Step>, b: seq<Step>)
    requires Quiet(a) && Quiet(b)
    ensures Quiet(a + b)
  {
  }

  lemma UpgradeBoth(s: State) returns (steps: seq<Step>)
    requires Joined(s) && Inv(s) && IsResponseHead(s.source.head) && IsResponseHead(s.target.head)
    requires !s.source.agentClosed && !s.target.agentClosed
    ensures Quiet(steps) && Pumping(After(s, steps))
  {
    var a := UpgradeStage(s.source, Source);
    LiftLeg(s, Source, a);
    var b := UpgradeStage(s.target, Target);
    LiftLeg(After(s, a), Target, b);
    steps := a + b;
    AfterConcat(s, a, b);
    QuietConcat(a, b);
  }

  lemma UpBoth(s: State) returns (steps: seq<Step>)
    requires Pumping(s)
    ensures Quiet(steps) && Pumping(After(s, steps))
    ensures UpEmpty(After(s, steps).source) && UpEmpty(After(s, steps).target)
  {
    var a := UpStage(s.source, Source);
    LiftLeg(s, Source, a);
    var b := UpStage(s.target, Target);
    LiftLeg(After(s, a), Target, b);
    steps := a + b;
    AfterConcat(s, a, b);
    QuietConcat(a, b);
  }

  lemma RelayBoth(s: State) returns (steps: seq<Step>)
    requires Pumping(s) && UpEmpty(s.source) && UpEmpty(s.target)
    ensures Quiet(steps) && Pumping(After(s, steps))
    ensures RelayEmpty(After(s, steps).source) && RelayEmpty(After(s, steps).target)
  {
    var a := RelayStage(s, Source);
    var b := RelayStage(After(s, a), Target);
    steps := a + b;
    AfterConcat(s, a, b);
    QuietConcat(a, b);
  }

  lemma DownBoth(s: State) returns (steps: seq<Step>)
    requires Pumping(s) && RelayEmpty(s.source) && RelayEmpty(s.target)
    ensures Quiet(steps)
    ensures var t := After(s, steps);
            RelayEmpty(t.source) && RelayEmpty(t.target) && DownEmpty(t.source) && DownEmpty(t.target)
            && t.source.agent.Streaming? && t.target.agent.Streaming?
  {
    var a := DownStage(s.source, Source);
    LiftLeg(s, Source, a);
    var b := DownStage(s.target, Target);
    LiftLeg(After(s, a), Target, b);
    steps := a + b;
    AfterConcat(s, a, b);
    QuietConcat(a, b);
  }

  lemma EmptyIsDelivered(s: State, e: End)
    requires RelayEmpty(s.At(e)) && DownEmpty(s.At(e.Other())) && s.At(e.Other()).agent.Streaming?
    ensures InFlight(s, e) == []
  {
  }

  lemma DrainBoth(s: State) returns (steps: seq<Step>)
    requires Joined(s) && Inv(s) && IsResponseHead(s.source.head) && IsResponseHead(s.target.head)
    requires !s.source.agentClosed && !s.target.agentClosed
    ensures Quiet(steps) && InFlight(After(s, steps), Source) == [] && InFlight(After(s, steps), Target) == []
  {
    var a := UpgradeBoth(s);
    var b := UpBoth(After(s, a));
    AfterConcat(s, a, b);
    var c := RelayBoth(After(s, a + b));
    AfterConcat(s, a + b, c);
    var d := DownBoth(After(s, a + b + c));
    AfterConcat(s, a + b + c, d);
    steps := a + b + c + d;
    QuietConcat(a, b);
    QuietConcat(a + b, c);
    QuietConcat(a + b + c, d);
    EmptyIsDelivered(After(s, steps), Source);
    EmptyIsDelivered(After(s, steps), Target);
  }

  /** From every reachable state in which the pair is started and nobody has closed anything, the relay can still
      deliver all that was written, in both directions, without anything further being written. */
  lemma EverythingCanBeDelivered(h: Handshake, moves: seq<Step>) returns (more: seq<Step>)
    requires h.Valid()
    requires var s := Run(h, moves); s.paired && !s.relayClosed && !s.source.agentClosed && !s.target.agentClosed
    ensures Quiet(more)
    ensures forall e: End :: Delivered(Run(h, moves + more), e.Other()) == Written(Run(h, moves + more), e)
    ensures forall e: End :: Written(Run(h, moves + more), e) == Written(Run(h, moves), e)
  {
    RunKeepsInv(h, moves);
    more := DrainBoth(Run(h, moves));
    RunOn(h, moves, more);
    forall e: End ensures Delivered(Run(h, moves + more), e.Other()) == Written(Run(h, moves + more), e) {
      StreamFidelity(h, moves + more, e);
    }
    forall e: End ensures Written(Run(h, moves + more), e) == Written(Run(h, moves), e) {
      QuietWritesNothing(Run(h, moves), more, e);
    }
  }

  // ---------------------------------------------------------------- closing

  /** Once the controller's pair is closed, nothing more is put on either leg, whatever anybody does. */
  lemma {:induction false} ClosedRelayStops(s: State, steps: seq<Step>, e: End)
    requires s.paired && s.relayClosed && s.At(e).server.Attached?
    ensures var t := After(s, steps);
            t.paired && t.relayClosed && t.At(e).server.Attached? && t.At(e).down.sent == s.At(e).down.sent
  {
    if steps != [] {
      ClosedRelayStops(s, steps[..|steps| - 1], e);
    }
  }

  predicate ClosedAgent(l: Leg) {
    l.agentClosed && l.agent.Streaming?
  }

  lemma ClosedLegStep(l: Leg, step: Step)
    requires ClosedAgent(l)
    ensures var m := ApplyLeg(l, step); ClosedAgent(m) && m.up.sent == l.up.sent && m.localOut.sent == l.localOut.sent
  {
  }

  lemma ClosedAgentStep(s: State, step: Step, e: End)
    requires ClosedAgent(s.At(e))
    ensures var l, m := s.At(e), Apply(s, step).At(e);
            ClosedAgent(m) && m.up.sent == l.up.sent && m.localOut.sent == l.localOut.sent
  {
    ClosedLegStep(s.At(e), step);
  }

  /** Once an agent has closed, it puts nothing more on its relay connection or its application's. */
  lemma {:induction false} ClosedAgentStops(s: State, steps: seq<Step>, e: End)
    requires ClosedAgent(s.At(e))
    ensures var l, m := s.At(e), After(s, steps).At(e);
            ClosedAgent(m) && m.up.sent == l.up.sent && m.localOut.sent == l.localOut.sent
  {
    if steps != [] {
      ClosedAgentStops(s, steps[..|steps| - 1], e);
      ClosedAgentStep(After(s, steps[..|steps| - 1]), steps[|steps| - 1], e);
    }
  }

  lemma RunThen(h: Handshake, moves: seq<Step>, step: Step, more: seq<Step>)
    ensures Run(h, moves + [step] + more) == After(Apply(Run(h, moves), step), more)
  {
    assert (moves + [step])[..|moves|] == moves;
    RunOn(h, moves + [step], more);
  }

  /** Closing the controller's pair takes effect: from the moment when one of its copies ends, its pumps write nothing
      more, in every run. */
  lemma RelayCloseStops(h: Handshake, moves: seq<Step>, more: seq<Step>, e: End)
    requires h.Valid() && Run(h, moves).paired
    ensures Run(h, moves + [RelayClose] + more).At(e).down.sent == Run(h, moves).At(e).down.sent
  {
    RunKeepsInv(h, moves);
    RunThen(h, moves, RelayClose, more);
    RelayCloses(Run(h, moves), e);
    ClosedRelayStops(Apply(Run(h, moves), RelayClose), more, e);
  }

  lemma RelayCloses(s: State, e: End)
    requires Inv(s) && s.paired
    ensures var t := Apply(s, RelayClose);
            t.paired && t.relayClosed && t.At(e) == s.At(e) && t.At(e).server.Attached?
  {
  }

  /** So does closing an agent's pair. */
  lemma AgentCloseStops(h: Handshake, moves: seq<Step>, more: seq<Step>, e: End)
    requires Run(h, moves).At(e).agent.Streaming?
    ensures var l, m := Run(h, moves).At(e), Run(h, moves + [AgentClose(e)] + more).At(e);
            m.up.sent == l.up.sent && m.localOut.sent == l.localOut.sent
  {
    RunThen(h, moves, AgentClose(e), more);
    ClosedAgentStops(Apply(Run(h, moves), AgentClose(e)), more, e);
  }

  lemma NoWrite(s: State, step: Step, e: End)
    requires !step.AppWrite?
    ensures Written(Apply(s, step), e) == Written(s, e)
  {
  }

  lemma {:induction false} QuietWritesNothing(s: State, steps: seq<Step>, e: End)
    requires Quiet(steps)
    ensures Written(After(s, steps), e) == Written(s, e)
  {
    if steps != [] {
      QuietWritesNothing(s, steps[..|steps| - 1], e);
      NoWrite(After(s, steps[..|steps| - 1]), steps[|steps| - 1], e);
    }
  }
}
