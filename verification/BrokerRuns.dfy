/** What holds of every run of the broker: sessions, pairs, wake channels and connections. */
module BrokerRuns {
  import opened Wrappers
  import opened Models
  import opened Broker

  /** Session ids come from `uuid.NewString` and every hijacked connection is new. */
  ghost predicate Fresh(steps: seq<Step>) {
    && (forall i, j :: 0 <= i < j < |steps| && steps[i].CreateStep? && steps[j].CreateStep? ==>
        steps[i].id != steps[j].id)
    && (forall i, j :: 0 <= i < j < |steps| && steps[i].AttachStep? && steps[j].AttachStep? ==>
        steps[i].conn != steps[j].conn)
  }

  lemma Unsnoc(steps: seq<Step>)
    requires steps != []
    ensures Run(steps) == Apply(Run(steps[..|steps| - 1]), steps[|steps| - 1])
    ensures Fresh(steps) ==> Fresh(steps[..|steps| - 1])
  {
  }

  // ---------------------------------------------------------------- the fate of one session

  /** The step finds the session past its deadline and takes it out of the table. */
  predicate Stale(step: Step, z: RelaySession) {
    (step.Cleans() || (step.AttachStep? && step.id == z.id)) && step.now > z.expiresAt
  }

  /** The step offers a connection for a side of the session, from the right device and in time. */
  predicate Joins(step: Step, z: RelaySession, side: Side) {
    step.AttachStep? && step.id == z.id && step.side == side && step.device == Expected(z, side) &&
        step.now <= z.expiresAt
  }

  ghost predicate EverStale(steps: seq<Step>, from: nat, z: RelaySession) {
    exists j :: from < j < |steps| && Stale(steps[j], z)
  }

  ghost predicate EverJoined(steps: seq<Step>, from: nat, z: RelaySession, side: Side) {
    exists j :: from < j < |steps| && Joins(steps[j], z, side)
  }

  ghost predicate FirstJoin(steps: seq<Step>, from: nat, at: nat, z: RelaySession, side: Side) {
    from < at < |steps| && Joins(steps[at], z, side) && forall j :: from < j < at ==> !Joins(steps[j], z, side)
  }

  /** The session is in the table unless it was found stale or both sides joined, and its slots say who did. */
  ghost predicate Fate(s: State, z: RelaySession, stale: bool, client: bool, agent: bool) {
    && (z.id in s.sessions <==> !stale && !(client && agent))
    && (z.id in s.sessions ==>
        var row := s.sessions[z.id]; row.session == z && (row.client.Some? <==> client) && (row.agent.Some? <==> agent))
  }

  lemma FateStep(s: State, step: Step, z: RelaySession, stale: bool, client: bool, agent: bool)
    requires Fate(s, z, stale, client, agent)
    requires step.CreateStep? ==> step.id != z.id
    ensures Fate(Apply(s, step), z, stale || Stale(step, z),
                 client || Joins(step, z, Client), agent || Joins(step, z, Agent))
  {
  }

  lemma HistoryStep(steps: seq<Step>, i: nat, z: RelaySession)
    requires i < |steps| - 1
    ensures var n := |steps| - 1;
            && (EverStale(steps, i, z) <==> EverStale(steps[..n], i, z) || Stale(steps[n], z))
            && forall side :: EverJoined(steps, i, z, side) <==>
               EverJoined(steps[..n], i, z, side) || Joins(steps[n], z, side)
  {
  }

  /** Exactly which sessions are in the table, and which of their slots are filled: a session stays until
      a step finds it stale or both sides have joined it. */
  lemma {:induction false} SessionFate(steps: seq<Step>, i: nat)
    requires Fresh(steps) && i < |steps| && steps[i].CreateStep?
    ensures var z := steps[i].Session();
            Fate(Run(steps), z, EverStale(steps, i, z), EverJoined(steps, i, z, Client), EverJoined(steps, i, z, Agent))
  {
    var z, n := steps[i].Session(), |steps| - 1;
    if i < n {
      var before := steps[..n];
      Unsnoc(steps);
      SessionFate(before, i);
      assert steps[n].CreateStep? ==> steps[n].id != z.id;
      FateStep(Run(before), steps[n], z, EverStale(before, i, z), EverJoined(before, i, z, Client),
               EverJoined(before, i, z, Agent));
      HistoryStep(steps, i, z);
    }
  }

  lemma SlotStep(s: State, step: Step, z: RelaySession, side: Side)
    requires z.id in s.sessions && s.sessions[z.id].session == z && (step.CreateStep? ==> step.id != z.id)
    requires z.id in Apply(s, step).sessions
    ensures var before := s.sessions[z.id].Slot(side);
            Apply(s, step).sessions[z.id].Slot(side) ==
            if before.Some? then before else if Joins(step, z, side) then Some(step.conn) else None
  {
  }

  /** Slots are write-once: each keeps the first connection that joined it. */
  lemma {:induction false} SlotKeepsFirst(steps: seq<Step>, i: nat, at: nat, side: Side)
    requires Fresh(steps) && i < |steps| && steps[i].CreateStep? && steps[i].id in Run(steps).sessions
    requires FirstJoin(steps, i, at, steps[i].Session(), side)
    ensures Run(steps).sessions[steps[i].id].Slot(side) == Some(steps[at].conn)
  {
    var z, n := steps[i].Session(), |steps| - 1;
    var before := steps[..n];
    Unsnoc(steps);
    assert steps[..|steps|] == steps;
    if z.id !in Run(before).sessions {
      NoRevival(steps, i, n, |steps|);
      assert false;
    }
    SessionFate(before, i);
    SlotStep(Run(before), steps[n], z, side);
    if at < n {
      assert FirstJoin(before, i, at, z, side);
      SlotKeepsFirst(before, i, at, side);
    } else {
      assert !EverJoined(before, i, z, side);
    }
  }

  /** A session that left the table never comes back. */
  lemma NoRevival(steps: seq<Step>, i: nat, n: nat, m: nat)
    requires Fresh(steps) && i < n <= m <= |steps| && steps[i].CreateStep?
    requires steps[i].id !in Run(steps[..n]).sessions
    ensures steps[i].id !in Run(steps[..m]).sessions
  {
    var z := steps[i].Session();
    SessionFate(steps[..n], i);
    SessionFate(steps[..m], i);
    forall side | EverJoined(steps[..n], i, z, side) ensures EverJoined(steps[..m], i, z, side) {
      var j :| i < j < n && Joins(steps[..n][j], z, side);
      assert Joins(steps[..m][j], z, side);
    }
    if EverStale(steps[..n], i, z) {
      var j :| i < j < n && Stale(steps[..n][j], z);
      assert Stale(steps[..m][j], z);
    }
  }

  /** Every row of the table was created in this run. */
  lemma {:induction false} RowsAreCreated(steps: seq<Step>, id: string) returns (i: nat)
    requires id in Run(steps).sessions
    ensures i < |steps| && steps[i].CreateStep? && steps[i].id == id
  {
    var n := |steps| - 1;
    if steps[n].CreateStep? && steps[n].id == id {
      i := n;
    } else {
      i := RowsAreCreated(steps[..n], id);
    }
  }

  // ---------------------------------------------------------------- pairs

  /** Both sides joined the session first at `a` and `b`, before anything found it stale. */
  ghost predicate Met(steps: seq<Step>, i: nat, a: nat, b: nat, z: RelaySession) {
    && FirstJoin(steps, i, a, z, Client) && FirstJoin(steps, i, b, z, Agent)
    && forall j :: i < j < |steps| && (j < a || j < b) ==> !Stale(steps[j], z)
  }

  lemma {:induction false} FirstJoinExists(steps: seq<Step>, i: nat, z: RelaySession, side: Side) returns (at: nat)
    requires EverJoined(steps, i, z, side)
    ensures FirstJoin(steps, i, at, z, side)
  {
    var n := |steps| - 1;
    if EverJoined(steps[..n], i, z, side) {
      at := FirstJoinExists(steps[..n], i, z, side);
      assert forall j :: i < j < n ==> steps[..n][j] == steps[j];
    } else {
      at := n;
      assert forall j :: i < j < n ==> steps[..n][j] == steps[j];
    }
  }

  lemma {:induction false} PairsAreCreated(steps: seq<Step>, p: Pair) returns (i: nat)
    requires p in Run(steps).pairs
    ensures i < |steps| && steps[i].CreateStep? && steps[i].id == p.id
  {
    var n := |steps| - 1;
    if p in Run(steps[..n]).pairs {
      i := PairsAreCreated(steps[..n], p);
    } else {
      i := RowsAreCreated(steps[..n], p.id);
    }
  }

  /** The step gives a waiting session its second connection, making the pair `p`. */
  predicate Completes(s: State, step: Step, z: RelaySession, p: Pair) {
    && step.AttachStep? && Joins(step, z, step.side) && z.id in s.sessions
    && s.sessions[z.id].Slot(step.side).None? && p.End(step.side) == step.conn
    && s.sessions[z.id].Slot(Opposite(step.side)) == Some(p.End(Opposite(step.side)))
  }

  function Opposite(side: Side): Side {
    if side.Client? then Agent else Client
  }

  lemma PairStep(s: State, step: Step, z: RelaySession, p: Pair)
    requires p.id == z.id && p !in s.pairs
    requires z.id in s.sessions ==> s.sessions[z.id].session == z
    ensures p in Apply(s, step).pairs <==> Completes(s, step, z, p)
  {
  }

  lemma BeforeCompletion(steps: seq<Step>, i: nat, p: Pair)
    requires Fresh(steps) && i < |steps| - 1 && steps[i].CreateStep? && p.id == steps[i].id
    requires Completes(Run(steps[..|steps| - 1]), steps[|steps| - 1], steps[i].Session(), p)
    ensures var before, z, side := steps[..|steps| - 1], steps[i].Session(), steps[|steps| - 1].side;
            && !EverStale(before, i, z) && !EverJoined(before, i, z, side) && EverJoined(before, i, z, Opposite(side))
  {
    Unsnoc(steps);
    SessionFate(steps[..|steps| - 1], i);
  }

  lemma CompletionMeets(steps: seq<Step>, i: nat, p: Pair) returns (a: nat, b: nat)
    requires Fresh(steps) && i < |steps| - 1 && steps[i].CreateStep? && p.id == steps[i].id
    requires Completes(Run(steps[..|steps| - 1]), steps[|steps| - 1], steps[i].Session(), p)
    ensures a == |steps| - 1 || b == |steps| - 1
    ensures Met(steps, i, a, b, steps[i].Session()) && p == Pair(p.id, steps[a].conn, steps[b].conn)
  {
    var z, n := steps[i].Session(), |steps| - 1;
    var before, last := steps[..n], steps[n];
    Unsnoc(steps);
    BeforeCompletion(steps, i, p);
    assert forall j :: 0 <= j < n ==> before[j] == steps[j];
    assert forall j :: i < j < n ==> !Stale(before[j], z) && !Joins(before[j], z, last.side);
    var first := FirstJoinExists(before, i, z, Opposite(last.side));
    SlotKeepsFirst(before, i, first, Opposite(last.side));
    a, b := if last.side.Client? then n else first, if last.side.Client? then first else n;
  }

  /** Before a meeting ends, one side has joined, the other has not, and nothing found the session stale. */
  lemma BeforeMeeting(steps: seq<Step>, i: nat, a: nat, b: nat, z: RelaySession) returns (first: nat, side: Side)
    requires i < |steps| - 1 && (a == |steps| - 1 || b == |steps| - 1) && Met(steps, i, a, b, z)
    ensures var before := steps[..|steps| - 1];
            && Joins(steps[|steps| - 1], z, Opposite(side)) && first == (if side.Client? then a else b)
            && FirstJoin(before, i, first, z, side) && EverJoined(before, i, z, side)
            && !EverStale(before, i, z) && !EverJoined(before, i, z, Opposite(side))
    ensures |steps| - 1 == if side.Client? then b else a
  {
    var n := |steps| - 1;
    var before := steps[..n];
    assert forall j :: 0 <= j < n ==> before[j] == steps[j];
    assert a != b by {
      assert Joins(steps[a], z, Client) && Joins(steps[b], z, Agent);
    }
    side, first := if a == n then Agent else Client, if a == n then b else a;
    assert FirstJoin(before, i, first, z, side);
  }

  lemma MeetingCompletes(steps: seq<Step>, i: nat, a: nat, b: nat, p: Pair)
    requires Fresh(steps) && i < |steps| - 1 && steps[i].CreateStep? && p.id == steps[i].id
    requires a == |steps| - 1 || b == |steps| - 1
    requires Met(steps, i, a, b, steps[i].Session()) && p == Pair(p.id, steps[a].conn, steps[b].conn)
    ensures Completes(Run(steps[..|steps| - 1]), steps[|steps| - 1], steps[i].Session(), p)
  {
    var z, before := steps[i].Session(), steps[..|steps| - 1];
    Unsnoc(steps);
    var first, side := BeforeMeeting(steps, i, a, b, z);
    SessionFate(before, i);
    SlotKeepsFirst(before, i, first, side);
  }

  /** A pair completed by the last step is a meeting that ends there, and the other way round. */
  lemma LastMeeting(steps: seq<Step>, i: nat, p: Pair)
    requires Fresh(steps) && i < |steps| - 1 && steps[i].CreateStep? && p.id == steps[i].id
    ensures Completes(Run(steps[..|steps| - 1]), steps[|steps| - 1], steps[i].Session(), p) <==>
            exists a: nat, b: nat :: (a == |steps| - 1 || b == |steps| - 1) && Met(steps, i, a, b, steps[i].Session())
                                     && p == Pair(p.id, steps[a].conn, steps[b].conn)
  {
    var z, n := steps[i].Session(), |steps| - 1;
    if Completes(Run(steps[..n]), steps[n], z, p) {
      var a, b := CompletionMeets(steps, i, p);
    }
    forall a: nat, b: nat | (a == n || b == n) && Met(steps, i, a, b, z) &&
        p == Pair(z.id, steps[a].conn, steps[b].conn)
      ensures Completes(Run(steps[..n]), steps[n], z, p)
    {
      MeetingCompletes(steps, i, a, b, p);
    }
  }

  lemma NoPairYet(steps: seq<Step>, p: Pair)
    requires Fresh(steps) && steps != [] && steps[|steps| - 1].CreateStep? && p.id == steps[|steps| - 1].id
    ensures p !in Run(steps).pairs
  {
    if p in Run(steps[..|steps| - 1]).pairs {
      var j := PairsAreCreated(steps[..|steps| - 1], p);
      assert false;
    }
  }

  /** Exactly which proxy pairs a run starts: one for each session that both its source and its
      target joined in time, joining the first connection of each. */
  lemma {:induction false} PairFate(steps: seq<Step>, i: nat, p: Pair)
    requires Fresh(steps) && i < |steps| && steps[i].CreateStep? && p.id == steps[i].id
    ensures p in Run(steps).pairs <==>
            exists a: nat, b: nat :: Met(steps, i, a, b, steps[i].Session()) &&
                p == Pair(p.id, steps[a].conn, steps[b].conn)
  {
    var z, n := steps[i].Session(), |steps| - 1;
    if i == n {
      NoPairYet(steps, p);
    } else {
      var before := steps[..n];
      PairFate(before, i, p);
      assert forall j :: 0 <= j < n ==> before[j] == steps[j];
      assert forall a: nat, b: nat :: a < n && b < n ==> (Met(steps, i, a, b, z) <==> Met(before, i, a, b, z));
      if p !in Run(before).pairs {
        SessionFate(before, i);
        PairStep(Run(before), steps[n], z, p);
        LastMeeting(steps, i, p);
      }
    }
  }

  /** At most one pair per session: no id occurs twice, and a paired session has left the table. */
  lemma {:induction false} OnePairPerSession(steps: seq<Step>)
    requires Fresh(steps)
    ensures var s := Run(steps);
            && (forall k, l :: 0 <= k < l < |s.pairs| ==> s.pairs[k].id != s.pairs[l].id)
            && (forall p :: p in s.pairs ==> p.id !in s.sessions)
  {
    if steps != [] {
      var n := |steps| - 1;
      Unsnoc(steps);
      OnePairPerSession(steps[..n]);
      var s := Run(steps[..n]);
      forall p | p in s.pairs && steps[n].CreateStep? ensures p.id != steps[n].id {
        var j := PairsAreCreated(steps[..n], p);
      }
    }
  }

  /** The pair's session was created for these two devices, whose agents joined it with these connections within
      two minutes. */
  predicate JoinedByDevices(steps: seq<Step>, i: nat, a: nat, b: nat, p: Pair) {
    && i < a < |steps| && i < b < |steps| && steps[i].CreateStep? && steps[i].id == p.id
    && steps[a].AttachStep? && steps[a] == AttachStep(p.id, steps[i].source.id, p.client, Client, steps[a].now)
    && steps[b].AttachStep? && steps[b] == AttachStep(p.id, steps[i].target.id, p.agent, Agent, steps[b].now)
    && steps[a].now <= steps[i].now + 120 && steps[b].now <= steps[i].now + 120
  }

  lemma PairsJoinTheirDevices(steps: seq<Step>, p: Pair)
    requires Fresh(steps) && p in Run(steps).pairs
    ensures exists i: nat, a: nat, b: nat :: JoinedByDevices(steps, i, a, b, p)
  {
    var i := PairsAreCreated(steps, p);
    PairFate(steps, i, p);
    var a: nat, b: nat :| Met(steps, i, a, b, steps[i].Session()) && p == Pair(p.id, steps[a].conn, steps[b].conn);
    assert JoinedByDevices(steps, i, a, b, p);
  }

  /** What is in the table was created in this run, with these fields. */
  lemma SessionsAreAsCreated(steps: seq<Step>, id: string)
    returns (i: nat)
    requires Fresh(steps) && id in Run(steps).sessions
    ensures i < |steps| && steps[i].CreateStep?
    ensures var z, step := Run(steps).sessions[id].session, steps[i];
            && z.id == step.id == id && z.sourceDeviceId == step.source.id && z.targetDeviceId == step.target.id
            && z.targetName == step.target.name && z.targetVirtualIP == step.target.virtualIP
            && z.targetPort == step.port && z.expiresAt == step.now + 120
  {
    i := RowsAreCreated(steps, id);
    SessionFate(steps, i);
  }

  // ---------------------------------------------------------------- pending sessions

  /** What a device is told after a run: exactly its sessions that no agent joined and nothing found stale. */
  lemma PendingIsExact(steps: seq<Step>, target: string, z: RelaySession)
    requires Fresh(steps)
    ensures z in Pending(Run(steps), target) <==>
            exists i: nat :: i < |steps| && steps[i].CreateStep? && z == steps[i].Session() &&
                z.targetDeviceId == target
                             && !EverStale(steps, i, z) && !EverJoined(steps, i, z, Agent)
  {
    var s := Run(steps);
    if z in Pending(s, target) {
      var id :| id in s.sessions && Waiting(s.sessions[id], target) && s.sessions[id].session == z;
      var i := RowsAreCreated(steps, id);
      SessionFate(steps, i);
      assert s.sessions[id].Slot(Agent).None?;
    }
    forall i: nat | i < |steps| && steps[i].CreateStep? && z == steps[i].Session() && z.targetDeviceId == target
                    && !EverStale(steps, i, z) && !EverJoined(steps, i, z, Agent)
      ensures z in Pending(s, target)
    {
      SessionFate(steps, i);
      assert s.sessions[z.id].Slot(Agent).None?;
      assert z.id in s.sessions && Waiting(s.sessions[z.id], target);
    }
  }

  /** The lock-order history of one long poll: it looks, and if it found nothing and may wait it
      captures the wake channel after `gap`, sleeps through `sleep`, and looks again. */
  ghost function PollHistory(before: seq<Step>, gap: seq<Step>, sleep: seq<Step>, target: string,
                             wait: int, now: nat, later: nat): seq<Step> {
    var first := before + [PollStep(target, now)];
    if wait <= 0 || Pending(Run(first), target) != {} then first
    else first + gap + [CaptureStep] + sleep + [PollStep(target, later)]
  }

  /** No pending session is missed: a long poll returns every session created before its last look,
      wherever that `Create` fell (also between the first look and the capture of the wake channel),
      unless an agent joined it or a step whose clock had passed its deadline removed it. */
  lemma NoPendingSessionMissed(before: seq<Step>, gap: seq<Step>, sleep: seq<Step>, target: string,
                               wait: int, now: nat, later: nat, i: nat)
    requires var h := PollHistory(before, gap, sleep, target, wait, now, later);
             Fresh(h) && i < |h| && h[i].CreateStep? && h[i].Session().targetDeviceId == target
    ensures var h := PollHistory(before, gap, sleep, target, wait, now, later); var z := h[i].Session();
            z in Pending(Run(h), target) <==> !EverStale(h, i, z) && !EverJoined(h, i, z, Agent)
  {
    var h := PollHistory(before, gap, sleep, target, wait, now, later);
    PendingIsExact(h, target, h[i].Session());
  }

  /** The poller's own clock does not decide: a request that read a later clock but took the lock
      earlier has already removed a session whose deadline the poller has not reached. */
  lemma ClocksOutOfLockOrder(source: Device, target: Device)
    ensures var h := [CreateStep("s", source, target, 22, 0), ValidateStep("x", "y", Client, 121),
                      PollStep(target.id, 120)];
            Fresh(h) && h[0].Session().expiresAt >= 120 && Pending(Run(h), target.id) == {}
  {
    var h := [CreateStep("s", source, target, 22, 0), ValidateStep("x", "y", Client, 121), PollStep(target.id, 120)];
    assert EverStale(h, 0, h[0].Session()) by {
      assert Stale(h[1], h[0].Session());
    }
    if z :| z in Pending(Run(h), target.id) {
      PendingIsExact(h, target.id, z);
      assert false;
    }
  }

  // ---------------------------------------------------------------- wake channels

  ghost function Creates(steps: seq<Step>): nat {
    |set i | 0 <= i < |steps| && steps[i].CreateStep?|
  }

  lemma CreatesStep(steps: seq<Step>)
    requires steps != []
    ensures Creates(steps) == Creates(steps[..|steps| - 1]) + if steps[|steps| - 1].CreateStep? then 1 else 0
  {
    var n := |steps| - 1;
    var was := set i | 0 <= i < n && steps[..n][i].CreateStep?;
    assert (set i | 0 <= i < |steps| && steps[i].CreateStep?) == was + if steps[n].CreateStep? then {n} else {};
  }

  /** The channels are numbered by the creates: all older ones are closed, once each, and no other. */
  lemma {:induction false} WakesAreCounted(steps: seq<Step>)
    ensures var s := Run(steps); var k := Creates(steps);
            s.wake == k && s.channels == k + 1 && s.closedWakes == seq(k, i => i)
  {
    if steps != [] {
      var n := |steps| - 1;
      WakesAreCounted(steps[..n]);
      CreatesStep(steps);
    }
  }

  lemma {:induction false} CreatesBetween(steps: seq<Step>, n: nat)
    requires n <= |steps|
    ensures Creates(steps[..n]) <= Creates(steps)
    ensures Creates(steps[..n]) < Creates(steps) <==> exists j :: n <= j < |steps| && steps[j].CreateStep?
  {
    if n == |steps| {
      assert steps[..n] == steps;
    } else {
      var before := steps[..|steps| - 1];
      CreatesBetween(before, n);
      assert before[..n] == steps[..n];
      assert forall j :: 0 <= j < |before| ==> before[j] == steps[j];
      CreatesStep(steps);
    }
  }

  /** No wake channel is closed twice, the current one is open, and one captured after the first `n`
      steps is closed exactly when some `Create` has completed since. */
  lemma WakeDiscipline(steps: seq<Step>, n: nat)
    requires n <= |steps|
    ensures var s := Run(steps);
            && (forall k, l :: 0 <= k < l < |s.closedWakes| ==> s.closedWakes[k] != s.closedWakes[l])
            && s.wake !in s.closedWakes
            && (Run(steps[..n]).wake in s.closedWakes <==> exists j :: n <= j < |steps| && steps[j].CreateStep?)
  {
    WakesAreCounted(steps);
    WakesAreCounted(steps[..n]);
    CreatesBetween(steps, n);
    var s, w := Run(steps), Run(steps[..n]).wake;
    if w < Creates(steps) {
      assert s.closedWakes[w] == w;
    }
  }

  /** A sleeping poller is released through its channel exactly by the creates after its capture. A
      `Create` in `gap` does not release it; the poller then learns of that session when its timer fires. */
  lemma CreateReleasesPoller(before: seq<Step>, gap: seq<Step>, sleep: seq<Step>)
    ensures Run(before + gap).wake in Run(before + gap + [CaptureStep] + sleep).closedWakes <==>
            exists j :: 0 <= j < |sleep| && sleep[j].CreateStep?
  {
    var h, n := before + gap + [CaptureStep] + sleep, |before + gap|;
    WakeDiscipline(h, n);
    assert h[..n] == before + gap;
    forall j: nat | n <= j < |h| ensures h[j].CreateStep? ==> j > n && h[j] == sleep[j - n - 1] {}
    forall j: nat | j < |sleep| ensures h[n + 1 + j] == sleep[j] {}
  }

  /** A session created between a poller's first look and its capture is pending, and does not wake it. */
  lemma CreateInGapDoesNotWake(id: string, source: Device, target: Device, now: nat)
    ensures var gap := [CreateStep(id, source, target, 22, now)];
            && gap[0].Session() in Pending(Run(gap + [CaptureStep]), target.id)
            && Run([] + gap).wake !in Run([] + gap + [CaptureStep] + []).closedWakes
  {
    var gap: seq<Step> := [CreateStep(id, source, target, 22, now)];
    var h := gap + [CaptureStep];
    CreateReleasesPoller([], gap, []);
    PendingIsExact(h, target.id, gap[0].Session());
    assert h[0] == gap[0];
    assert !EverStale(h, 0, h[0].Session()) && !EverJoined(h, 0, h[0].Session(), Agent);
  }

  // ---------------------------------------------------------------- the size of the table

  /** `Create` steps stamped no earlier than the TTL before `now`. */
  ghost function CreatesSince(steps: seq<Step>, now: nat): set<nat> {
    set i | 0 <= i < |steps| && steps[i].CreateStep? && steps[i].now + SESSION_TTL >= now
  }

  ghost function IdsOf(steps: seq<Step>, at: set<nat>): set<string> {
    set i | i in at && i < |steps| && steps[i].CreateStep? :: steps[i].id
  }

  lemma {:induction false} FewerIds(steps: seq<Step>, at: set<nat>)
    ensures |IdsOf(steps, at)| <= |at|
    decreases at
  {
    if at != {} {
      var i :| i in at;
      var rest := at - {i};
      FewerIds(steps, rest);
      if i < |steps| && steps[i].CreateStep? {
        assert IdsOf(steps, at) == IdsOf(steps, rest) + {steps[i].id};
      } else {
        assert IdsOf(steps, at) == IdsOf(steps, rest);
      }
    }
  }

  lemma SubsetSize(a: set<string>, b: set<string>)
    requires a <= b
    ensures |a| <= |b|
  {
    assert b == a + (b - a);
  }

  /** After any clean-up at `now`, in whatever order the clocks were read, the table holds at most one
      session for each `Create` stamped within the TTL before `now`. */
  lemma LiveSessionBound(steps: seq<Step>)
    requires Fresh(steps) && steps != [] && steps[|steps| - 1].Cleans()
    ensures var now := steps[|steps| - 1].now;
            && (forall id :: id in Run(steps).sessions ==> now <= Run(steps).sessions[id].session.expiresAt)
            && |Run(steps).sessions| <= |CreatesSince(steps, now)|
  {
    var n := |steps| - 1;
    var now, s := steps[n].now, Run(steps);
    var since := CreatesSince(steps, now);
    forall id | id in s.sessions ensures id in IdsOf(steps, since) {
      var i := RowsAreCreated(steps, id);
      SessionFate(steps, i);
      assert i in since;
    }
    FewerIds(steps, since);
    SubsetSize(s.sessions.Keys, IdsOf(steps, since));
    assert |s.sessions| == |s.sessions.Keys|;
  }

  // ---------------------------------------------------------------- connections

  /** Where a connection given to `attach` can be. */
  datatype Location = InSlot(id: string, side: Side) | InPair(index: nat, end: Side) | Closed | Released

  predicate At(s: State, c: Conn, loc: Location) {
    match loc
    case InSlot(id, side) => id in s.sessions && s.sessions[id].Slot(side) == Some(c)
    case InPair(k, end) => k < |s.pairs| && s.pairs[k].End(end) == c
    case Closed => c in s.closed
    case Released => c in s.released
  }

  ghost function Attached(steps: seq<Step>): set<Conn> {
    set i | 0 <= i < |steps| && steps[i].AttachStep? :: steps[i].conn
  }

  /** The ledger places every connection as the state does, and each at one place only. */
  ghost predicate Balanced(s: State, ledger: map<Conn, Location>) {
    forall c, loc :: At(s, c, loc) <==> c in ledger && ledger[c] == loc
  }

  /** A clean-up moves connections from the slots it empties to `Closed`, and touches no other. */
  lemma CleanupMoves(s: State, now: nat, ledger: map<Conn, Location>) returns (after: map<Conn, Location>)
    requires Balanced(s, ledger)
    ensures Balanced(Cleanup(s, now), after) && after.Keys == ledger.Keys
  {
    after := map c | c in ledger ::
      if ledger[c].InSlot? && ledger[c].id in s.sessions && Dead(s.sessions[ledger[c].id], now) then Closed
          else ledger[c];
    var t := Cleanup(s, now);
    forall c, loc ensures At(t, c, loc) <==> c in after && after[c] == loc {
      assert At(s, c, loc) <==> c in ledger && ledger[c] == loc;
      if c in DeadConns(s.sessions, now) {
        var id :| id in s.sessions && Dead(s.sessions[id], now) && c in s.sessions[id].Conns();
        var side := if s.sessions[id].client == Some(c) then Client else Agent;
        assert At(s, c, InSlot(id, side));
      } else if c in ledger {
        assert At(s, c, ledger[c]);
        assert ledger[c].InSlot? ==> c in s.sessions[ledger[c].id].Conns();
      }
    }
  }

  /** One critical section keeps the ledger balanced and enters exactly the connection it was given. */
  lemma StepMoves(s: State, step: Step, ledger: map<Conn, Location>) returns (after: map<Conn, Location>)
    requires Balanced(s, ledger)
    requires step.CreateStep? ==> step.id !in s.sessions
    requires step.AttachStep? ==> step.conn !in ledger
    ensures Balanced(Apply(s, step), after)
    ensures after.Keys == ledger.Keys + if step.AttachStep? then {step.conn} else {}
  {
    match step
    case CreateStep(id, source, target, port, now) =>
      var t := s.(sessions := s.sessions[id := Row(step.Session(), None, None)]);
      assert Balanced(t, ledger) by {
        forall c, loc ensures At(t, c, loc) <==> At(s, c, loc) {}
      }
      after := CleanupMoves(t, now, ledger);
      forall c, loc ensures At(Apply(s, step), c, loc) <==> At(Cleanup(t, now), c, loc) {}
    case PollStep(_, now) => after := CleanupMoves(s, now, ledger);
    case ValidateStep(_, _, _, now) => after := CleanupMoves(s, now, ledger);
    case CaptureStep => after := ledger;
    case AttachStep(id, device, conn, side, now) =>
      after := AttachMoves(s, step, ledger);
  }

  /** `attach` enters its connection as closed, slotted or paired; a completed session's peer moves
      with it into the pair, and an expired session's peer is released. */
  lemma AttachMoves(s: State, step: Step, ledger: map<Conn, Location>) returns (after: map<Conn, Location>)
    requires Balanced(s, ledger) && step.AttachStep? && step.conn !in ledger
    ensures Balanced(Apply(s, step), after)
    ensures after.Keys == ledger.Keys + {step.conn}
  {
    var id, conn, side := step.id, step.conn, step.side;
    var t, err := Apply(s, step), Attach(s, id, step.device, conn, side, step.now).1;
    assert forall loc :: !At(s, conn, loc);
    assert !At(s, conn, Closed);
    if err.Some? && !err.value.Expired? {
      after := ledger[conn := Closed];
    } else if err.Some? {
      after := map c | c in ledger + map[conn := Closed] ::
        if c == conn then Closed else if ledger[c].InSlot? && ledger[c].id == id then Released else ledger[c];
    } else if id in t.sessions {
      after := ledger[conn := InSlot(id, side)];
    } else {
      after := map c | c in ledger + map[conn := Closed] ::
        if c == conn then InPair(|s.pairs|, side)
        else if ledger[c].InSlot? && ledger[c].id == id then InPair(|s.pairs|, ledger[c].side) else ledger[c];
    }
    forall c, loc ensures At(t, c, loc) <==> c in after && after[c] == loc {
      assert At(s, c, loc) <==> c in ledger && ledger[c] == loc;
      if c in ledger {
        assert At(s, c, ledger[c]);
      }
      if id in s.sessions {
        var row := s.sessions[id];
        assert row.client == Some(c) ==> At(s, c, InSlot(id, Client));
        assert row.agent == Some(c) ==> At(s, c, InSlot(id, Agent));
      }
    }
  }

  lemma AttachedStep(steps: seq<Step>)
    requires Fresh(steps) && steps != []
    ensures var last := steps[|steps| - 1]; var before := Attached(steps[..|steps| - 1]);
            && Attached(steps) == before + (if last.AttachStep? then {last.conn} else {})
            && (last.AttachStep? ==> last.conn !in before)
  {
    var n := |steps| - 1;
    assert forall i :: 0 <= i < n ==> steps[..n][i] == steps[i];
  }

  lemma {:induction false} Ledger(steps: seq<Step>) returns (ledger: map<Conn, Location>)
    requires Fresh(steps)
    ensures Balanced(Run(steps), ledger) && ledger.Keys == Attached(steps)
  {
    if steps == [] {
      ledger := map[];
      forall c, loc ensures !At(Run(steps), c, loc) {}
    } else {
      var n := |steps| - 1;
      var before, last := steps[..n], steps[n];
      Unsnoc(steps);
      ledger := Ledger(before);
      if last.CreateStep? && last.id in Run(before).sessions {
        var i := RowsAreCreated(before, last.id);
        assert false;
      }
      AttachedStep(steps);
      ledger := StepMoves(Run(before), last, ledger);
    }
  }

  /** Connection conservation: in every run each connection given to `attach` is in exactly one place -
      one slot of one live session, one end of one started pair, closed, or released - and no other
      connection is anywhere. */
  lemma ConnectionConservation(steps: seq<Step>, c: Conn)
    requires Fresh(steps)
    ensures c in Attached(steps) ==>
              exists loc :: At(Run(steps), c, loc) && forall other :: At(Run(steps), c, other) ==> other == loc
    ensures c !in Attached(steps) ==> forall loc :: !At(Run(steps), c, loc)
  {
    var ledger := Ledger(steps);
    if c in Attached(steps) {
      assert At(Run(steps), c, ledger[c]);
    }
  }

  /** The step finds its session past the deadline, with `c` waiting in one of its slots. */
  predicate Strands(s: State, step: Step, c: Conn) {
    step.AttachStep? && step.id in s.sessions && Dead(s.sessions[step.id], step.now) && c in s.sessions[step.id].Conns()
  }

  lemma StrandStep(s: State, step: Step, c: Conn)
    ensures c in Apply(s, step).released <==> c in s.released || Strands(s, step, c)
  {
  }

  ghost predicate StrandedAt(steps: seq<Step>, j: nat, c: Conn) {
    j < |steps| && Strands(Run(steps[..j]), steps[j], c)
  }

  lemma {:induction false} StrandedSomewhere(steps: seq<Step>, c: Conn)
    ensures c in Run(steps).released <==> exists j: nat :: StrandedAt(steps, j, c)
  {
    if steps != [] {
      var n := |steps| - 1;
      var before := steps[..n];
      StrandedSomewhere(before, c);
      StrandStep(Run(before), steps[n], c);
      forall j: nat | j < n ensures StrandedAt(before, j, c) <==> StrandedAt(steps, j, c) {
        assert before[..j] == steps[..j];
      }
      assert StrandedAt(steps, n, c) <==> Strands(Run(before), steps[n], c);
    } else {
      assert forall j: nat :: !StrandedAt(steps, j, c);
    }
  }

  /** The connection joined one side of the session first, at `a`; the other side never joined; and the first
      step to find the session stale, at `j`, is an `attach` and not a clean-up. */
  ghost predicate LeftWaiting(steps: seq<Step>, i: nat, a: nat, j: nat, side: Side, c: Conn) {
    && i < a < j < |steps| && steps[i].CreateStep?
    && var z := steps[i].Session();
       && FirstJoin(steps, i, a, z, side) && steps[a].conn == c
       && steps[j].AttachStep? && Stale(steps[j], z)
       && forall l :: i < l < j ==> !Stale(steps[l], z) && !Joins(steps[l], z, Opposite(side))
  }

  /** Where one step finds the session past its deadline, its slots say who was left waiting. */
  lemma StrandedIsLeftWaiting(steps: seq<Step>, i: nat, j: nat, c: Conn) returns (a: nat, side: Side)
    requires Fresh(steps) && i < j && StrandedAt(steps, j, c) && steps[i].CreateStep? && steps[i].id == steps[j].id
    ensures LeftWaiting(steps, i, a, j, side, c)
  {
    var before, z := steps[..j], steps[i].Session();
    assert forall l :: 0 <= l < j ==> before[l] == steps[l];
    SessionFate(before, i);
    var row := Run(before).sessions[z.id];
    side := if row.client == Some(c) then Client else Agent;
    assert row.Slot(side) == Some(c);
    a := FirstJoinExists(before, i, z, side);
    SlotKeepsFirst(before, i, a, side);
    assert !EverStale(before, i, z) && !EverJoined(before, i, z, Opposite(side));
    forall l | i < l < j ensures !Stale(steps[l], z) && !Joins(steps[l], z, Opposite(side)) {
      assert !Stale(before[l], z) && !Joins(before[l], z, Opposite(side));
    }
  }

  lemma LeftWaitingIsStranded(steps: seq<Step>, i: nat, a: nat, j: nat, side: Side, c: Conn)
    requires Fresh(steps) && LeftWaiting(steps, i, a, j, side, c)
    ensures StrandedAt(steps, j, c)
  {
    var before, z := steps[..j], steps[i].Session();
    assert forall l :: 0 <= l < j ==> before[l] == steps[l];
    SessionFate(before, i);
    assert FirstJoin(before, i, a, z, side) && EverJoined(before, i, z, side);
    assert !EverStale(before, i, z) && !EverJoined(before, i, z, Opposite(side));
    SlotKeepsFirst(before, i, a, side);
  }

  /** Exactly which connections are dropped without being closed: the first to join their side of a session
      that the other side never joined, when the first step to find that session past its deadline is an
      `attach`. If a clean-up comes first, the connection is closed. */
  lemma ReleasedExactly(steps: seq<Step>, c: Conn)
    requires Fresh(steps)
    ensures c in Run(steps).released <==>
            exists i: nat, a: nat, j: nat, side: Side :: LeftWaiting(steps, i, a, j, side, c)
  {
    StrandedSomewhere(steps, c);
    if c in Run(steps).released {
      var j: nat :| StrandedAt(steps, j, c);
      var i := RowsAreCreated(steps[..j], steps[j].id);
      var a, side := StrandedIsLeftWaiting(steps, i, j, c);
    }
    forall i: nat, a: nat, j: nat, side: Side | LeftWaiting(steps, i, a, j, side, c) ensures c in Run(steps).released {
      LeftWaitingIsStranded(steps, i, a, j, side, c);
    }
  }

  /** A client waits, its agent comes a second too late: the client's connection is dropped, not closed. */
  lemma LateAttachReleases(source: Device, target: Device)
    ensures var h := [CreateStep("s", source, target, 22, 0), AttachStep("s", source.id, 1, Client, 0),
                      AttachStep("s", target.id, 2, Agent, 121)];
            1 in Run(h).released && 1 !in Run(h).closed && 2 in Run(h).closed
  {
    var h := [CreateStep("s", source, target, 22, 0), AttachStep("s", source.id, 1, Client, 0),
              AttachStep("s", target.id, 2, Agent, 121)];
    assert LeftWaiting(h, 0, 1, 2, Client, 1);
    ReleasedExactly(h, 1);
    ConnectionConservation(h, 1);
    assert h[1].conn in Attached(h);
    assert At(Run(h), 1, Released);
    assert At(Run(h), 1, Closed) ==> Closed == Released;
    var before := h[..2];
    SessionFate(before, 0);
    assert Run(h) == Apply(Run(before), h[2]);
  }
}
