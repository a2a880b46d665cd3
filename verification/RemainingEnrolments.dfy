/** How many devices a one-time invitation can still enrol, and how it comes to enrol two. */
module RemainingEnrolments {
  import opened Wrappers
  import opened Models
  import opened SqliteStore
  import opened Enrolment
  import opened OneTime

  // ---------------------------------------------------------------- no more than the holders

  ghost predicate LookupsFrom(steps: seq<Step>, t: nat) {
    forall j :: 0 <= j < |steps| && steps[j].Lookup? ==> t <= steps[j].now
  }

  /** The invitation is marked, or expired for every clock from `t` on. */
  ghost predicate Shut(s: State, id: string, t: nat) {
    && id in s.tables.invitations && !s.tables.invitations[id].reusable
    && (s.tables.invitations[id].usedAt.Some? || s.tables.invitations[id].expiresAt < t)
  }

  /** The requests that passed the check on this invitation and have yet to insert. */
  ghost function Holders(s: State, id: string): set<nat> {
    set r | r in s.phases && PassedOn(s, r, id)
  }

  ghost predicate EnrolsAtMost(s: State, steps: seq<Step>, id: string, k: nat) {
    Count(RunFrom(s, steps).log, id) <= Count(s.log, id) + k
  }

  ghost predicate EnrolsAtMostEver(s: State, id: string, t: nat, k: nat) {
    forall steps :: LookupsFrom(steps, t) ==> EnrolsAtMost(s, steps, id, k)
  }

  lemma SubsetSize(a: set<nat>, b: set<nat>)
    requires a <= b
    ensures |a| <= |b|
  {
    assert b == a + (b - a);
  }

  /** Nobody new passes a shut invitation's check. */
  lemma NoNewHolders(s: State, step: Step, id: string, t: nat)
    requires Sound(s) && Shut(s, id, t) && (step.Lookup? ==> t <= step.now)
    ensures Shut(Apply(s, step), id, t) && Holders(Apply(s, step), id) <= Holders(s, id)
  {
    RowsKeepTerms(s, step, id);
    forall r | r in Holders(Apply(s, step), id) ensures r in Holders(s, id) {
      if step.Lookup? && step.request == r && r !in s.phases {
        LookupReads(s.tables, step.tokenHash);
      }
    }
  }

  /** Who enrols a device stops holding the invitation. */
  lemma EnrollerLetsGo(s: State, step: Step, id: string)
    requires Count(Apply(s, step).log, id) > Count(s.log, id)
    ensures step.Insert? && step.request in Holders(s, id) && step.request !in Holders(Apply(s, step), id)
    ensures Count(Apply(s, step).log, id) == Count(s.log, id) + 1
  {
    var log := Apply(s, step).log;
    assert log != s.log ==> log[..|log| - 1] == s.log;
  }

  lemma ShutStep(s: State, step: Step, id: string, t: nat)
    requires Sound(s) && Shut(s, id, t) && (step.Lookup? ==> t <= step.now)
    ensures Shut(Apply(s, step), id, t)
    ensures Count(Apply(s, step).log, id) + |Holders(Apply(s, step), id)| <= Count(s.log, id) + |Holders(s, id)|
  {
    NoNewHolders(s, step, id, t);
    if Count(Apply(s, step).log, id) > Count(s.log, id) {
      EnrollerLetsGo(s, step, id);
      SubsetSize(Holders(Apply(s, step), id), Holders(s, id) - {step.request});
    } else {
      SubsetSize(Holders(Apply(s, step), id), Holders(s, id));
    }
  }

  lemma {:induction false} ShutBounds(s: State, steps: seq<Step>, id: string, t: nat)
    requires Sound(s) && Shut(s, id, t) && LookupsFrom(steps, t)
    ensures Shut(RunFrom(s, steps), id, t)
    ensures Count(RunFrom(s, steps).log, id) + |Holders(RunFrom(s, steps), id)| <= Count(s.log, id) + |Holders(s, id)|
  {
    if steps != [] {
      var n := |steps| - 1;
      ShutBounds(s, steps[..n], id, t);
      RunsAreSound(s, steps[..n]);
      ShutStep(RunFrom(s, steps[..n]), steps[n], id, t);
    }
  }

  // ---------------------------------------------------------------- as many as the holders

  lemma {:induction false} FreshNat(used: set<nat>) returns (n: nat)
    ensures forall m :: m in used ==> m < n
    decreases used
  {
    n := 0;
    if m :| m in used {
      var k := FreshNat(used - {m});
      n := if k <= m then m + 1 else k;
      assert used == (used - {m}) + {m};
    }
  }

  lemma FreshString(used: set<string>) returns (x: string)
    ensures x !in used
  {
    var lengths := set u | u in used :: |u|;
    var n := FreshNat(lengths);
    x := seq(n, _ => 'x');
    assert x in used ==> |x| in lengths;
  }

  lemma RunOne(s: State, a: Step)
    ensures RunFrom(s, [a]) == Apply(s, a)
  {
    assert [a][..0] == [];
  }

  lemma RunTwo(s: State, a: Step, b: Step)
    ensures RunFrom(s, [a, b]) == Apply(Apply(s, a), b)
  {
    RunOne(s, a);
    assert [a, b][..1] == [a];
  }

  ghost predicate Free(t: Tables, ip: string) {
    forall d :: d in t.devices ==> t.devices[d].virtualIP != ip
  }

  lemma FreeAddress(s: State, ip: string) returns (step: Step)
    requires Consistent(s.tables)
    ensures step.Remove? && Free(Apply(s, step).tables, ip) && Consistent(Apply(s, step).tables)
    ensures Apply(s, step) == s.(tables := s.tables.(devices := Apply(s, step).tables.devices))
  {
    if d :| d in s.tables.devices && s.tables.devices[d].virtualIP == ip {
      step := Remove(d);
    } else {
      var d := FreshString(s.tables.devices.Keys);
      step := Remove(d);
    }
  }

  const DRAFT := Device([], [], [], [], [], [], [], [], 0)

  lemma InsertEnrols(s: State, r: nat, id: string) returns (step: Step)
    requires Consistent(s.tables) && PassedOn(s, r, id) && Free(s.tables, VirtualIP(0, 0))
    ensures step.Insert? && Consistent(Apply(s, step).tables)
    ensures var s' := Apply(s, step);
            && s'.log == s.log + [Enrolled(r, id, step.id)] && s'.tables.invitations == s.tables.invitations
            && s'.phases == s.phases[r := Inserted(s.phases[r].inv)]
  {
    var d := FreshString(s.tables.devices.Keys);
    step := Insert(r, d, 0, 0, DRAFT, true);
    ConsistentStep(s, step);
    assert CreateDevice(s.tables, DeviceRow(s.phases[r].inv, d, 0, 0, DRAFT)).Success?;
  }

  /** A request that holds an invitation can still enrol a device on it, whatever the others did. */
  lemma HolderEnrols(s: State, r: nat, id: string) returns (steps: seq<Step>)
    requires Consistent(s.tables) && PassedOn(s, r, id)
    ensures |steps| == 2 && steps[0].Remove? && steps[1].Insert?
    ensures var s' := RunFrom(s, steps);
            && Count(s'.log, id) == Count(s.log, id) + 1
            && s'.phases == s.phases[r := Inserted(s.phases[r].inv)] && s'.tables.invitations == s.tables.invitations
            && Consistent(s'.tables)
  {
    var remove := FreeAddress(s, VirtualIP(0, 0));
    var insert := InsertEnrols(Apply(s, remove), r, id);
    steps := [remove, insert];
    RunTwo(s, remove, insert);
    var log := RunFrom(s, steps).log;
    assert log[..|log| - 1] == s.log;
  }

  lemma StillHolds(s: State, mid: State, r: nat, q: nat, id: string)
    requires r in s.phases && !s.phases[r].Done? && mid.phases == s.phases[r := Inserted(s.phases[r].inv)]
    requires q != r && q in Holders(s, id)
    ensures q in Holders(mid, id)
  {
    assert PassedOn(mid, q, id);
  }

  /** Several holders can all enrol, one after the other. */
  lemma {:induction false} HoldersEnrol(s: State, id: string, rs: set<nat>) returns (steps: seq<Step>)
    requires Consistent(s.tables) && rs <= Holders(s, id)
    ensures Count(RunFrom(s, steps).log, id) == Count(s.log, id) + |rs|
    ensures forall j :: 0 <= j < |steps| ==> !steps[j].Lookup?
    decreases rs
  {
    steps := [];
    if r :| r in rs {
      var first := HolderEnrols(s, r, id);
      var mid := RunFrom(s, first);
      forall q | q in rs - {r} ensures q in Holders(mid, id) {
        StillHolds(s, mid, r, q, id);
      }
      assert rs == (rs - {r}) + {r};
      var rest := HoldersEnrol(mid, id, rs - {r});
      steps := first + rest;
      RunFromConcat(s, first, rest);
    }
  }

  /** A request that starts while the invitation is neither marked nor expired can enrol a device on it. */
  lemma NewcomerEnrols(s: State, id: string, t: nat) returns (steps: seq<Step>)
    requires Consistent(s.tables) && id in s.tables.invitations && !s.tables.invitations[id].reusable && !Shut(s, id, t)
    ensures LookupsFrom(steps, t) && Count(RunFrom(s, steps).log, id) == Count(s.log, id) + 1
    ensures RunFrom(s, steps).tables.invitations == s.tables.invitations && Consistent(RunFrom(s, steps).tables)
  {
    var r := FreshNat(s.phases.Keys);
    var lookup := Lookup(r, s.tables.invitations[id].tokenHash, t);
    LookupsAreExact(s.tables, id);
    var rest := HolderEnrols(Apply(s, lookup), r, id);
    steps := [lookup] + rest;
    RunFromConcat(s, [lookup], rest);
    RunOne(s, lookup);
  }

  lemma {:induction false} NewcomersEnrol(s: State, id: string, t: nat, k: nat) returns (steps: seq<Step>)
    requires Consistent(s.tables) && id in s.tables.invitations && !s.tables.invitations[id].reusable && !Shut(s, id, t)
    ensures LookupsFrom(steps, t) && Count(RunFrom(s, steps).log, id) == Count(s.log, id) + k
    decreases k
  {
    steps := [];
    if k > 0 {
      var first := NewcomerEnrols(s, id, t);
      var rest := NewcomersEnrol(RunFrom(s, first), id, t, k - 1);
      steps := first + rest;
      RunFromConcat(s, first, rest);
    }
  }

  /** Exactly how many devices can still come of a one-time invitation, whatever requests do from now on: no
      more than `k` if and only if it is marked or past its expiry and at most `k` requests that passed its
      check have yet to insert. The mark alone is not enough: who read the row before it still enrols. */
  lemma RemainingExactly(s: State, id: string, t: nat, k: nat)
    requires Sound(s) && id in s.tables.invitations && !s.tables.invitations[id].reusable
    ensures EnrolsAtMostEver(s, id, t, k) <==> Shut(s, id, t) && |Holders(s, id)| <= k
  {
    if !Shut(s, id, t) {
      var steps := NewcomersEnrol(s, id, t, k + 1);
      assert !EnrolsAtMost(s, steps, id, k);
    } else if |Holders(s, id)| > k {
      var steps := HoldersEnrol(s, id, Holders(s, id));
      assert LookupsFrom(steps, t) && !EnrolsAtMost(s, steps, id, k);
    } else {
      forall steps | LookupsFrom(steps, t) ensures EnrolsAtMost(s, steps, id, k) {
        ShutBounds(s, steps, id, t);
      }
    }
  }

  // ---------------------------------------------------------------- how two devices come of one invitation

  lemma RunNext(steps: seq<Step>, step: Step)
    ensures Run(steps + [step]) == Apply(Run(steps), step)
    ensures MarksSucceed(steps) && (step.Mark? ==> step.healthy) ==> MarksSucceed(steps + [step])
    ensures OneAtATime(steps) && (step.Lookup? ==> Idle(Run(steps))) ==> OneAtATime(steps + [step])
  {
    var longer := steps + [step];
    assert longer[..|steps|] == steps;
    forall j | 0 <= j < |steps| ensures longer[..j] == steps[..j] {}
  }

  ghost predicate NoWorse(longer: seq<Step>, steps: seq<Step>) {
    (MarksSucceed(steps) ==> MarksSucceed(longer)) && (OneAtATime(steps) ==> OneAtATime(longer))
  }

  lemma EnrolNext(steps: seq<Step>, r: nat, id: string) returns (longer: seq<Step>)
    requires Consistent(Run(steps).tables) && PassedOn(Run(steps), r, id)
    ensures Consistent(Run(longer).tables) && Run(longer).tables.invitations == Run(steps).tables.invitations
    ensures Count(Run(longer).log, id) == Count(Run(steps).log, id) + 1
    ensures Run(longer).phases == Run(steps).phases[r := Inserted(Run(steps).phases[r].inv)]
    ensures NoWorse(longer, steps)
  {
    var more := HolderEnrols(Run(steps), r, id);
    longer := steps + [more[0]] + [more[1]];
    RunNext(steps, more[0]);
    RunNext(steps + [more[0]], more[1]);
    RunTwo(Run(steps), more[0], more[1]);
    assert more == [more[0], more[1]];
  }

  const ONE_TIME_INVITATION := Invitation("i", "h", "u", "g", false, 100, None)

  /** The one-time invitation is the only row, unmarked, and `n` devices came from it. */
  ghost predicate Offered(steps: seq<Step>, n: nat) {
    var s := Run(steps);
    Consistent(s.tables) && s.tables.invitations == map["i" := ONE_TIME_INVITATION] && Count(s.log, "i") == n
  }

  lemma InviteOne(step: Step)
    requires step == Invite(ONE_TIME_INVITATION)
    ensures Offered([step], 0) && Run([step]).phases == map[] && MarksSucceed([step]) && OneAtATime([step])
  {
    RunOne(INIT, step);
  }

  lemma PassNext(steps: seq<Step>, r: nat, n: nat) returns (longer: seq<Step>)
    requires Offered(steps, n) && r !in Run(steps).phases
    ensures Offered(longer, n) && (MarksSucceed(steps) ==> MarksSucceed(longer))
    ensures OneAtATime(steps) && Idle(Run(steps)) ==> OneAtATime(longer)
    ensures Run(longer).phases == Run(steps).phases[r := Passed(ONE_TIME_INVITATION)]
  {
    longer := steps + [Lookup(r, "h", 0)];
    RunNext(steps, Lookup(r, "h", 0));
    LookupsAreExact(Run(steps).tables, "i");
  }

  /** Two interleaved requests enrol two devices on a one-time invitation, although no mark fails. */
  lemma InterleavedRequestsEnrolTwo()
    ensures exists steps, id :: MarksSucceed(steps) && EnrolsTwo(steps, id)
  {
    var a := Invite(ONE_TIME_INVITATION);
    InviteOne(a);
    var b := PassNext([a], 0, 0);
    var c := PassNext(b, 1, 0);
    var d := EnrolNext(c, 0, "i");
    var e := EnrolNext(d, 1, "i");
    assert EnrolsTwo(e, "i");
  }

  lemma FailMark(steps: seq<Step>, n: nat) returns (longer: seq<Step>)
    requires Offered(steps, n) && Run(steps).phases == map[0 := Inserted(ONE_TIME_INVITATION)]
    ensures Offered(longer, n) && Run(longer).phases == map[0 := Done]
    ensures OneAtATime(steps) ==> OneAtATime(longer)
  {
    longer := steps + [Mark(0, 0, false)];
    RunNext(steps, Mark(0, 0, false));
  }

  /** So do two requests one after the other, when the mark of the first fails: the failure is only logged. */
  lemma FailedMarkEnrolsTwo()
    ensures exists steps, id :: OneAtATime(steps) && EnrolsTwo(steps, id)
  {
    var a := Invite(ONE_TIME_INVITATION);
    InviteOne(a);
    var b := PassNext([a], 0, 0);
    var c := EnrolNext(b, 0, "i");
    var d := FailMark(c, 1);
    var e := PassNext(d, 1, 1);
    var f := EnrolNext(e, 1, "i");
    assert EnrolsTwo(f, "i");
  }
}
