/** Agent and controller together: an agent that spent a one-time key and lost what it got for it. */
module LockedOut {
  import opened Wrappers
  import opened SqliteStore
  import opened Enrolment
  import opened OneTime
  import opened RemainingEnrolments
  import RegistrationServer
  import AgentState
  import AgentService

  /** A restart of the agent, after whatever the controller did since the one before. `hash` is what the
      controller makes of the agent's enrolment key, `at` its clock when the agent asks. */
  datatype Episode = Episode(controller: seq<Step>, hash: string, at: nat, restart: AgentService.Restart)

  function Controller(episodes: seq<Episode>): seq<Step> {
    if episodes == [] then [] else Controller(episodes[..|episodes| - 1]) + episodes[|episodes| - 1].controller
  }

  function Restarts(episodes: seq<Episode>): seq<AgentService.Restart> {
    seq(|episodes|, k requires 0 <= k < |episodes| => episodes[k].restart)
  }

  /** The program gets as far as running with a device. */
  predicate GoesOn(file: Option<AgentState.File>, r: AgentService.Restart) {
    AgentService.Begins(file, r) && AgentService.StartFrom(AgentService.AfterEnsure(file, r), r.start).device.Success?
  }

  /** The controller gives the agent a device only if its key passes the checks at that moment. */
  ghost predicate Honest(s: State, episodes: seq<Episode>) {
    forall k :: 0 <= k < |episodes| && episodes[k].restart.start.response.Some? ==>
      var t := RunFrom(s, Controller(episodes[..k + 1])).tables;
      RegistrationServer.Checked(InvitationByHash(t, episodes[k].hash), episodes[k].at).Success?
  }

  /** Every restart asks with the key of this invitation, at a controller clock from `t` on. */
  predicate Asks(s: State, episodes: seq<Episode>, id: string, t: nat)
    requires id in s.tables.invitations
  {
    forall k :: 0 <= k < |episodes| ==> episodes[k].hash == s.tables.invitations[id].tokenHash && t <= episodes[k].at
  }

  predicate NeverGoesOn(file: Option<AgentState.File>, restarts: seq<AgentService.Restart>) {
    forall k :: 0 <= k < |restarts| ==> !GoesOn(AgentService.RunFrom(file, restarts[..k]), restarts[k])
  }

  /** Whatever the controller does and however often the agent restarts, it never gets as far as running. */
  ghost predicate NoDeviceEver(s: State, file: Option<AgentState.File>, id: string, t: nat)
    requires id in s.tables.invitations
  {
    forall episodes :: Honest(s, episodes) && Asks(s, episodes, id, t) ==> NeverGoesOn(file, Restarts(episodes))
  }

  /** A one-time key that is marked or expired passes no check again, whatever the controller does. */
  lemma ShutKeyIsRefused(s: State, steps: seq<Step>, id: string, t: nat, now: nat)
    requires Sound(s) && Shut(s, id, t) && t <= now
    ensures var tables := RunFrom(s, steps).tables;
            RegistrationServer.Checked(InvitationByHash(tables, s.tables.invitations[id].tokenHash), now).Failure?
  {
    MarksStay(s, steps, id);
    RunsAreSound(s, steps);
    LookupsAreExact(RunFrom(s, steps).tables, id);
  }

  lemma {:induction false} UnansweredNeverLoads(file: Option<AgentState.File>, restarts: seq<AgentService.Restart>)
    requires AgentState.LoadFrom(file).Failure?
    requires forall k :: 0 <= k < |restarts| ==> restarts[k].start.response.None?
    ensures AgentState.LoadFrom(AgentService.RunFrom(file, restarts)).Failure?
  {
    if restarts != [] {
      UnansweredNeverLoads(file, restarts[..|restarts| - 1]);
      RefusedStaysUnloaded(AgentService.RunFrom(file, restarts[..|restarts| - 1]), restarts[|restarts| - 1]);
    }
  }

  /** A restart without an answer leaves the agent as it was: it does not run, and its file still does not load. */
  lemma RefusedStaysUnloaded(file: Option<AgentState.File>, r: AgentService.Restart)
    requires AgentState.LoadFrom(file).Failure? && r.start.response.None?
    ensures AgentState.LoadFrom(AgentService.After(file, r)).Failure? && !GoesOn(file, r)
  {
    AgentService.EnsureKeepsLoad(file, r);
  }

  lemma ShutKeyLocksOut(s: State, file: Option<AgentState.File>, id: string, t: nat, episodes: seq<Episode>)
    requires Sound(s) && Shut(s, id, t) && AgentState.LoadFrom(file).Failure?
    requires Honest(s, episodes) && Asks(s, episodes, id, t)
    ensures NeverGoesOn(file, Restarts(episodes))
  {
    var restarts := Restarts(episodes);
    forall k | 0 <= k < |restarts| ensures restarts[k].start.response.None? {
      ShutKeyIsRefused(s, Controller(episodes[..k + 1]), id, t, episodes[k].at);
    }
    forall k | 0 <= k < |restarts| ensures !GoesOn(AgentService.RunFrom(file, restarts[..k]), restarts[k]) {
      UnansweredNeverLoads(file, restarts[..k]);
      RefusedStaysUnloaded(AgentService.RunFrom(file, restarts[..k]), restarts[k]);
    }
  }

  // ---------------------------------------------------------------- a key that is not shut

  /** A restart that has everything it needs, if the controller gives it this answer. */
  function GoodRestart(answer: AgentState.Registration): AgentService.Restart {
    var crypto := AgentState.Crypto(Some(['k']), (k: string) => Some(['p'] + k), (p: string) => p);
    var start := AgentService.Start(['e'], Some(answer), 0, true);
    AgentService.Restart(AgentState.Identity([], [], []), crypto, 0, true, true, start)
  }

  const ANSWER := AgentState.Registration(AgentState.NO_DEVICE.(id := ['d']), ['t'], [], [])

  lemma GoodRestartGoesOn(file: Option<AgentState.File>)
    requires AgentState.Readable(file)
    ensures GoesOn(file, GoodRestart(ANSWER))
  {
    var r := GoodRestart(ANSWER);
    assert AgentService.Healthy(r);
    AgentService.HealthyBegins(file, r);
    AgentService.EnsureKeepsLoad(file, r);
  }

  lemma OpenKeyIsAnswered(s: State, file: Option<AgentState.File>, id: string, t: nat) returns (episodes: seq<Episode>)
    requires Sound(s) && id in s.tables.invitations && !s.tables.invitations[id].reusable && !Shut(s, id, t)
    requires AgentState.Readable(file)
    ensures Honest(s, episodes) && Asks(s, episodes, id, t) && !NeverGoesOn(file, Restarts(episodes))
  {
    episodes := [Episode([], s.tables.invitations[id].tokenHash, t, GoodRestart(ANSWER))];
    LookupsAreExact(s.tables, id);
    assert episodes[..1] == episodes && episodes[..0] == [];
    assert Controller(episodes) == [];
    GoodRestartGoesOn(file);
    assert Restarts(episodes)[..0] == [] && Restarts(episodes)[0] == GoodRestart(ANSWER);
  }

  /** Exactly when an agent without stored credentials is locked out of its one-time key: no sequence of restarts
      from clock `t` on, whatever the controller does between them, ever gets it a device, if and only if the
      key is marked or expired by then. */
  lemma LockedOutExactly(s: State, file: Option<AgentState.File>, id: string, t: nat)
    requires Sound(s) && id in s.tables.invitations && !s.tables.invitations[id].reusable
    requires AgentState.LoadFrom(file).Failure? && AgentState.Readable(file)
    ensures NoDeviceEver(s, file, id, t) <==> Shut(s, id, t)
  {
    if Shut(s, id, t) {
      forall episodes | Honest(s, episodes) && Asks(s, episodes, id, t) ensures NeverGoesOn(file, Restarts(episodes)) {
        ShutKeyLocksOut(s, file, id, t, episodes);
      }
    } else {
      var episodes := OpenKeyIsAnswered(s, file, id, t);
    }
  }

  // ---------------------------------------------------------------- how an agent comes to be locked out

  lemma FourSteps(a: Step, b: Step, c: Step, d: Step)
    ensures Run([a, b, c, d]) == Apply(Apply(Apply(Apply(INIT, a), b), c), d)
  {
    RunTwo(INIT, a, b);
    RunFromNext(INIT, [a, b], c);
    RunFromNext(INIT, [a, b, c], d);
    assert [a, b] + [c] == [a, b, c] && [a, b, c] + [d] == [a, b, c, d];
  }

  lemma HealthyMark(s: State, r: nat, now: nat)
    requires r in s.phases && s.phases[r].Inserted? && !s.phases[r].inv.reusable
    requires s.phases[r].inv.id in s.tables.invitations
    ensures var s', id := Apply(s, Mark(r, now, true)), s.phases[r].inv.id;
            && s'.log == s.log && s'.tables.devices == s.tables.devices
            && s'.tables.invitations == s.tables.invitations[id := s.tables.invitations[id].(usedAt := Some(now))]
  {
  }

  lemma RequestInserts(inv: Invitation, insert: Step)
    requires !inv.reusable && inv.usedAt == None
    requires insert.Insert? && insert.healthy && insert.request == 0
    ensures var s := Apply(Apply(Apply(INIT, Invite(inv)), Lookup(0, inv.tokenHash, 0)), insert);
            && s.phases == map[0 := Inserted(inv)] && s.tables.invitations == map[inv.id := inv]
            && insert.id in s.tables.devices && s.log == [Enrolled(0, inv.id, insert.id)]
  {
    var invited := Apply(INIT, Invite(inv));
    assert invited.tables.invitations == map[inv.id := inv] && Consistent(invited.tables);
    LookupPasses(invited, 0, inv, 0);
    InsertSucceeds(Apply(invited, Lookup(0, inv.tokenHash, 0)), insert);
  }

  /** An invitation, and one request that runs through: look up, insert, mark. */
  lemma OneRequest(inv: Invitation, device: string) returns (steps: seq<Step>)
    requires !inv.reusable && inv.usedAt == None
    ensures MarksSucceed(steps) && Sound(Run(steps)) && device in Run(steps).tables.devices
    ensures inv.id in Run(steps).tables.invitations && Shut(Run(steps), inv.id, 0)
    ensures Count(Run(steps).log, inv.id) == 1
  {
    var a, b := Invite(inv), Lookup(0, inv.tokenHash, 0);
    var c, d := Insert(0, device, 0, 2, DRAFT, true), Mark(0, 0, true);
    steps := [a, b, c, d];
    FourSteps(a, b, c, d);
    RequestInserts(inv, c);
    HealthyMark(Apply(Apply(Apply(INIT, a), b), c), 0, 0);
    RunsAreSound(INIT, steps);
    assert Run(steps).log[..0] == [];
  }

  /** An agent enrols with a one-time key, the controller marks it, and the agent's save fails: its file then holds
      an identity but no credentials, and it is locked out from the start. */
  lemma SaveFailureLocksOut(inv: Invitation)
    returns (steps: seq<Step>, r: AgentService.Restart, file: Option<AgentState.File>)
    requires !inv.reusable && inv.usedAt == None
    ensures Sound(Run(steps)) && MarksSucceed(steps) && inv.id in Run(steps).tables.invitations
    ensures r.start.response.Some? && r.start.response.value.device.id in Run(steps).tables.devices
    ensures AgentService.Registers(None, r) && !r.start.writes && file == AgentService.After(None, r)
    ensures AgentState.Readable(file) && AgentState.LoadFrom(file).Failure?
    ensures NoDeviceEver(Run(steps), file, inv.id, 0)
  {
    steps := OneRequest(inv, ANSWER.device.id);
    r := GoodRestart(ANSWER).(start := GoodRestart(ANSWER).start.(writes := false));
    file := AgentService.After(None, r);
    AgentService.EnsureKeepsLoad(None, r);
    LockedOutExactly(Run(steps), file, inv.id, 0);
  }
}
