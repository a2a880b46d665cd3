/** How often an invitation that is not reusable can enrol a device, when requests interleave. */
module OneTime {
  import opened Wrappers
  import opened Models
  import opened SqliteStore
  import opened Addresses
  import opened Enrolment

  // ---------------------------------------------------------------- what requests remember

  predicate SameTerms(a: Invitation, b: Invitation) {
    a.(usedAt := b.usedAt) == b
  }

  /** Requests in progress hold a row of the table, up to its mark, and only unfinished or finished
      insertions are in the log, once each. */
  ghost predicate Sound(s: State) {
    && Consistent(s.tables)
    && (forall r :: r in s.phases && !s.phases[r].Done? ==>
          s.phases[r].inv.id in s.tables.invitations &&
              SameTerms(s.phases[r].inv, s.tables.invitations[s.phases[r].inv.id]))
    && (forall k :: 0 <= k < |s.log| ==> s.log[k].request in s.phases && !s.phases[s.log[k].request].Passed?)
    && (forall k, l :: 0 <= k < l < |s.log| ==> s.log[k].request != s.log[l].request)
    && (forall k :: 0 <= k < |s.log| ==> s.log[k].invitation in s.tables.invitations)
  }

  lemma RowsKeepTerms(s: State, step: Step, id: string)
    requires Consistent(s.tables) && id in s.tables.invitations
    ensures id in Apply(s, step).tables.invitations
    ensures SameTerms(s.tables.invitations[id], Apply(s, step).tables.invitations[id])
    ensures s.tables.invitations[id].usedAt.Some? ==> Apply(s, step).tables.invitations[id].usedAt.Some?
  {
  }

  /** What a lookup reads is a row of the table. */
  lemma LookupReads(t: Tables, hash: string)
    requires Consistent(t) && InvitationByHash(t, hash).Success?
    ensures var inv := InvitationByHash(t, hash).value; inv.id in t.invitations && t.invitations[inv.id] == inv
  {
  }

  lemma PhasesStep(s: State, step: Step, r: nat)
    requires Sound(s) && r in Apply(s, step).phases && !Apply(s, step).phases[r].Done?
    ensures var s' := Apply(s, step); var inv := s'.phases[r].inv;
            inv.id in s'.tables.invitations && SameTerms(inv, s'.tables.invitations[inv.id])
  {
    if step.Lookup? && r !in s.phases {
      LookupReads(s.tables, step.tokenHash);
    } else {
      RowsKeepTerms(s, step, s.phases[r].inv.id);
    }
  }

  lemma LogStep(s: State, step: Step)
    requires Sound(s)
    ensures var s' := Apply(s, step);
            && (forall k :: 0 <= k < |s'.log| ==>
                  s'.log[k].request in s'.phases && !s'.phases[s'.log[k].request].Passed?)
            && (forall k, l :: 0 <= k < l < |s'.log| ==> s'.log[k].request != s'.log[l].request)
            && (forall k :: 0 <= k < |s'.log| ==> s'.log[k].invitation in s'.tables.invitations)
  {
  }

  lemma SoundStep(s: State, step: Step)
    requires Sound(s)
    ensures Sound(Apply(s, step))
  {
    ConsistentStep(s, step);
    LogStep(s, step);
    forall r | r in Apply(s, step).phases && !Apply(s, step).phases[r].Done?
      ensures var inv := Apply(s, step).phases[r].inv;
              inv.id in Apply(s, step).tables.invitations && SameTerms(inv, Apply(s, step).tables.invitations[inv.id])
    {
      PhasesStep(s, step, r);
    }
  }

  lemma {:induction false} RunsAreSound(s: State, steps: seq<Step>)
    requires Sound(s)
    ensures Sound(RunFrom(s, steps))
  {
    if steps != [] {
      RunsAreSound(s, steps[..|steps| - 1]);
      SoundStep(RunFrom(s, steps[..|steps| - 1]), steps[|steps| - 1]);
    }
  }

  /** A mark is never undone, and an invitation never leaves the table or changes its terms. */
  lemma {:induction false} MarksStay(s: State, steps: seq<Step>, id: string)
    requires Sound(s) && id in s.tables.invitations
    ensures var t := RunFrom(s, steps).tables;
            id in t.invitations && SameTerms(s.tables.invitations[id], t.invitations[id])
            && (s.tables.invitations[id].usedAt.Some? ==> t.invitations[id].usedAt.Some?)
  {
    if steps != [] {
      var n := |steps| - 1;
      MarksStay(s, steps[..n], id);
      RunsAreSound(s, steps[..n]);
      RowsKeepTerms(RunFrom(s, steps[..n]), steps[n], id);
    }
  }

  // ---------------------------------------------------------------- whose device it is

  predicate BelongsAt(s: State, d: Device, k: int) {
    && 0 <= k < |s.log| && s.log[k].device == d.id && s.log[k].invitation in s.tables.invitations
    && var inv := s.tables.invitations[s.log[k].invitation]; d.userId == inv.userId && d.groupId == inv.groupId
  }

  ghost predicate Belongs(s: State, d: Device) {
    exists k :: BelongsAt(s, d, k)
  }

  lemma BelongsStep(s: State, step: Step, id: string)
    requires Sound(s) && id in Apply(s, step).tables.devices
    requires id in s.tables.devices ==> Belongs(s, s.tables.devices[id])
    ensures Belongs(Apply(s, step), Apply(s, step).tables.devices[id])
  {
    var s' := Apply(s, step);
    if id in s.tables.devices {
      var k :| BelongsAt(s, s.tables.devices[id], k);
      RowsKeepTerms(s, step, s.log[k].invitation);
      assert s'.log[k] == s.log[k];
      assert BelongsAt(s', s'.tables.devices[id], k);
    } else {
      RowsKeepTerms(s, step, s.phases[step.request].inv.id);
      assert BelongsAt(s', s'.tables.devices[id], |s.log|);
    }
  }

  /** Every device in the table was enrolled by a logged request, for the user and group of its invitation. */
  lemma {:induction false} DevicesBelong(steps: seq<Step>)
    ensures var s := Run(steps); forall id :: id in s.tables.devices ==> Belongs(s, s.tables.devices[id])
  {
    if steps != [] {
      var n := |steps| - 1;
      DevicesBelong(steps[..n]);
      RunsAreSound(INIT, steps[..n]);
      forall id | id in Run(steps).tables.devices ensures Belongs(Run(steps), Run(steps).tables.devices[id]) {
        BelongsStep(Run(steps[..n]), steps[n], id);
      }
    }
  }

  // ---------------------------------------------------------------- what the rows hold

  /** The device's row is what this insertion wrote: id and address as drawn, the rest as requested. */
  predicate WrittenBy(d: Device, step: Step) {
    && step.Insert? && d.id == step.id && d.virtualIP == Dotted(10, 88, step.b0, step.b1)
    && d.name == step.draft.name && d.publicKey == step.draft.publicKey && d.endpoint == step.draft.endpoint
    && d.tokenHash == step.draft.tokenHash && d.createdAt == step.draft.createdAt
  }

  /** Every device in the table is as some insertion wrote it. */
  lemma {:induction false} DevicesAreAsWritten(steps: seq<Step>, id: string)
    requires id in Run(steps).tables.devices
    ensures exists k :: 0 <= k < |steps| && WrittenBy(Run(steps).tables.devices[id], steps[k])
  {
    var n := |steps| - 1;
    var before := Run(steps[..n]).tables.devices;
    if id in before && Run(steps).tables.devices[id] == before[id] {
      DevicesAreAsWritten(steps[..n], id);
      var k :| 0 <= k < n && WrittenBy(before[id], steps[..n][k]);
      assert WrittenBy(before[id], steps[k]);
    } else {
      assert WrittenBy(Run(steps).tables.devices[id], steps[n]);
    }
  }

  /** Rows of devices come and go whole: one that is there stays as it is until it is removed, and a new one comes
      exactly of a healthy insertion by a request that passed the check, under an id and an address that are free. */
  lemma DevicesComeAndGo(s: State, step: Step, id: string)
    ensures var was, now := s.tables.devices, Apply(s, step).tables.devices;
            && (id in was ==> (id in now <==> !(step.Remove? && step.id == id)) && (id in now ==> now[id] == was[id]))
            && (id !in was ==>
                  (id in now <==>
                    && step.Insert? && step.id == id && step.healthy
                    && step.request in s.phases && s.phases[step.request].Passed?
                    && forall k :: k in was ==> was[k].virtualIP != Dotted(10, 88, step.b0, step.b1)))
  {
  }

  /** What one step does to an invitation's row: a healthy mark of a request that inserted on it stamps it, if it is
      not reusable, and nothing else changes it. */
  lemma MarksStamp(s: State, step: Step, id: string)
    requires Consistent(s.tables) && id in s.tables.invitations
    ensures id in Apply(s, step).tables.invitations
    ensures var was, row := s.tables.invitations[id], Apply(s, step).tables.invitations[id];
            && row == was.(usedAt := row.usedAt)
            && row.usedAt ==
               if step.Mark? && step.healthy && step.request in s.phases && s.phases[step.request].Inserted?
                  && s.phases[step.request].inv.id == id && !s.phases[step.request].inv.reusable
               then Some(step.now) else was.usedAt
  {
  }

  /** How an invitation comes into the table: unmarked, as it was asked for, under an id and a token that are new. */
  lemma InvitationsAreCreated(s: State, step: Step, id: string)
    requires id !in s.tables.invitations
    ensures id in Apply(s, step).tables.invitations <==>
            step.Invite? && step.inv.id == id
            && forall k :: k in s.tables.invitations ==> s.tables.invitations[k].tokenHash != step.inv.tokenHash
    ensures id in Apply(s, step).tables.invitations ==>
            Apply(s, step).tables.invitations[id] ==
            Invitation(id, step.inv.tokenHash, step.inv.userId, step.inv.groupId, step.inv.reusable,
                       step.inv.expiresAt, None)
  {
  }

  // ---------------------------------------------------------------- the bound

  function Count(log: seq<Enrolled>, id: string): nat {
    if log == [] then 0
    else Count(log[..|log| - 1], id) + if log[|log| - 1].invitation == id then 1 else 0
  }

  /** Requests that enrolled a device on this invitation. */
  ghost function Enrollers(log: seq<Enrolled>, id: string): set<nat> {
    set k | 0 <= k < |log| && log[k].invitation == id :: log[k].request
  }

  lemma EnrollersStep(log: seq<Enrolled>, id: string, last: Enrolled)
    ensures Enrollers(log + [last], id) == Enrollers(log, id) + if last.invitation == id then {last.request} else {}
  {
    var all, n := log + [last], |log|;
    assert all[n] == last;
    forall r | r in Enrollers(log, id) ensures r in Enrollers(all, id) {
      var k :| 0 <= k < n && log[k].invitation == id && log[k].request == r;
      assert all[k] == log[k];
    }
    forall r | r in Enrollers(all, id) ensures r in Enrollers(log, id) || (last.invitation == id && r == last.request) {
      var k :| 0 <= k < |all| && all[k].invitation == id && all[k].request == r;
      assert k < n ==> all[k] == log[k];
    }
  }

  lemma {:induction false} CountIsEnrollers(log: seq<Enrolled>, id: string)
    requires forall k, l :: 0 <= k < l < |log| ==> log[k].request != log[l].request
    ensures |Enrollers(log, id)| == Count(log, id)
  {
    if log != [] {
      var n := |log| - 1;
      var before, last := log[..n], log[n];
      forall k | 0 <= k < n ensures before[k] == log[k] && before[k].request != last.request {}
      CountIsEnrollers(before, id);
      EnrollersStep(before, id, last);
      assert before + [last] == log;
      assert last.request !in Enrollers(before, id);
    }
  }

  /** At step `j` a request reads the invitation, still unmarked. */
  ghost predicate ReadsUnmarked(steps: seq<Step>, j: nat, id: string) {
    j < |steps| && steps[j].Lookup? && steps[j].request !in Run(steps[..j]).phases
    && id in Run(steps[..j]).tables.invitations && Run(steps[..j]).tables.invitations[id].usedAt == None
    && InvitationByHash(Run(steps[..j]).tables, steps[j].tokenHash) == Success(Run(steps[..j]).tables.invitations[id])
  }

  ghost function EarlyReaders(steps: seq<Step>, id: string): set<nat> {
    set j | 0 <= j < |steps| && ReadsUnmarked(steps, j, id) :: steps[j].request
  }

  lemma EarlierReaders(steps: seq<Step>, id: string, r: nat)
    requires steps != [] && r in EarlyReaders(steps[..|steps| - 1], id)
    ensures r in EarlyReaders(steps, id)
  {
    var before := steps[..|steps| - 1];
    var j :| 0 <= j < |before| && ReadsUnmarked(before, j, id) && before[j].request == r;
    assert before[..j] == steps[..j];
    assert ReadsUnmarked(steps, j, id);
  }

  lemma OldHolder(s: State, step: Step, r: nat)
    requires r in s.phases && !Apply(s, step).phases[r].Done?
    ensures !s.phases[r].Done? && s.phases[r].inv == Apply(s, step).phases[r].inv
  {
  }

  lemma NewReader(s: State, step: Step, r: nat)
    requires Sound(s) && r !in s.phases && r in Apply(s, step).phases
    requires !Apply(s, step).phases[r].Done? && !Apply(s, step).phases[r].inv.reusable
    ensures step.Lookup? && step.request == r
    ensures var id := Apply(s, step).phases[r].inv.id;
            id in s.tables.invitations && s.tables.invitations[id].usedAt == None
            && InvitationByHash(s.tables, step.tokenHash) == Success(s.tables.invitations[id])
  {
    LookupReads(s.tables, step.tokenHash);
  }

  lemma {:induction false} HoldersReadUnmarked(steps: seq<Step>, r: nat)
    requires r in Run(steps).phases && !Run(steps).phases[r].Done? && !Run(steps).phases[r].inv.reusable
    ensures r in EarlyReaders(steps, Run(steps).phases[r].inv.id)
  {
    var n := |steps| - 1;
    var s := Run(steps[..n]);
    RunsAreSound(INIT, steps[..n]);
    if r in s.phases {
      OldHolder(s, steps[n], r);
      HoldersReadUnmarked(steps[..n], r);
      EarlierReaders(steps, s.phases[r].inv.id, r);
    } else {
      NewReader(s, steps[n], r);
      assert ReadsUnmarked(steps, n, Run(steps).phases[r].inv.id);
    }
  }

  /** A log entry is old, or was written by a request that held its invitation. */
  lemma LogGrows(s: State, step: Step, k: nat)
    requires Sound(s) && k < |Apply(s, step).log|
    ensures var e := Apply(s, step).log[k];
            && e.invitation in s.tables.invitations
            && if k < |s.log| then s.log[k] == e
               else e.request in s.phases && s.phases[e.request].Passed? && s.phases[e.request].inv.id == e.invitation
                    && SameTerms(s.phases[e.request].inv, s.tables.invitations[e.invitation])
  {
  }

  lemma {:induction false} EnrollerReadsUnmarked(steps: seq<Step>, k: nat)
    requires var s := Run(steps);
             k < |s.log| && s.log[k].invitation in s.tables.invitations &&
                 !s.tables.invitations[s.log[k].invitation].reusable
    ensures Run(steps).log[k].request in EarlyReaders(steps, Run(steps).log[k].invitation)
  {
    var n := |steps| - 1;
    var s, e := Run(steps[..n]), Run(steps).log[k];
    RunsAreSound(INIT, steps[..n]);
    LogGrows(s, steps[n], k);
    RowsKeepTerms(s, steps[n], e.invitation);
    if k < |s.log| {
      EnrollerReadsUnmarked(steps[..n], k);
    } else {
      HoldersReadUnmarked(steps[..n], e.request);
    }
    EarlierReaders(steps, e.invitation, e.request);
  }

  lemma EnrollersReadUnmarked(steps: seq<Step>, id: string)
    requires id in Run(steps).tables.invitations && !Run(steps).tables.invitations[id].reusable
    ensures Enrollers(Run(steps).log, id) <= EarlyReaders(steps, id)
  {
    var log := Run(steps).log;
    forall r | r in Enrollers(log, id) ensures r in EarlyReaders(steps, id) {
      var k :| 0 <= k < |log| && log[k].invitation == id && log[k].request == r;
      EnrollerReadsUnmarked(steps, k);
    }
  }

  /** One-time enrolment over interleaved requests: the devices created from a non-reusable invitation are
      no more than the requests that read it before its first successful mark. */
  lemma OneTimeBound(steps: seq<Step>, id: string)
    requires id in Run(steps).tables.invitations && !Run(steps).tables.invitations[id].reusable
    ensures Enrollers(Run(steps).log, id) <= EarlyReaders(steps, id)
    ensures Count(Run(steps).log, id) <= |EarlyReaders(steps, id)|
  {
    RunsAreSound(INIT, steps);
    CountIsEnrollers(Run(steps).log, id);
    EnrollersReadUnmarked(steps, id);
    var a, b := Enrollers(Run(steps).log, id), EarlyReaders(steps, id);
    assert b == a + (b - a);
  }

  // ---------------------------------------------------------------- serialised requests

  ghost predicate Idle(s: State) {
    forall r :: r in s.phases ==> s.phases[r].Done?
  }

  /** No request starts while another is in progress. */
  ghost predicate OneAtATime(steps: seq<Step>) {
    forall j :: 0 <= j < |steps| && steps[j].Lookup? ==> Idle(Run(steps[..j]))
  }

  predicate MarksSucceed(steps: seq<Step>) {
    forall j :: 0 <= j < |steps| && steps[j].Mark? ==> steps[j].healthy
  }

  ghost predicate Serialised(steps: seq<Step>) {
    OneAtATime(steps) && MarksSucceed(steps)
  }

  ghost predicate EnrolsTwo(steps: seq<Step>, id: string) {
    && id in Run(steps).tables.invitations && !Run(steps).tables.invitations[id].reusable
    && Count(Run(steps).log, id) == 2
  }

  ghost predicate InProgress(s: State, r: nat) {
    r in s.phases && !s.phases[r].Done?
  }

  ghost predicate Single(s: State) {
    forall r, q :: InProgress(s, r) && InProgress(s, q) ==> r == q
  }

  lemma OnlyLookupsStart(s: State, step: Step, r: nat)
    requires InProgress(Apply(s, step), r)
    ensures InProgress(s, r) || (step.Lookup? && step.request == r)
  {
  }

  lemma SingleStep(s: State, step: Step)
    requires Single(s) && (step.Lookup? ==> Idle(s))
    ensures Single(Apply(s, step))
  {
    forall r, q | InProgress(Apply(s, step), r) && InProgress(Apply(s, step), q) ensures r == q {
      OnlyLookupsStart(s, step, r);
      OnlyLookupsStart(s, step, q);
      assert step.Lookup? ==> !InProgress(s, r) && !InProgress(s, q);
    }
  }

  ghost predicate PassedOn(s: State, r: nat, id: string) {
    r in s.phases && s.phases[r].Passed? && s.phases[r].inv.id == id
  }

  ghost predicate InsertedOn(s: State, r: nat, id: string) {
    r in s.phases && s.phases[r].Inserted? && s.phases[r].inv.id == id
  }

  /** A device exists on a one-time invitation only once it is marked, or while the request that must mark it
      is the one in progress. */
  ghost predicate Spending(s: State, id: string) {
    && id in s.tables.invitations
    && Count(s.log, id) <= 1
    && (Count(s.log, id) == 1 ==> s.tables.invitations[id].usedAt.Some? || exists r :: InsertedOn(s, r, id))
    && (forall r :: PassedOn(s, r, id) ==> Count(s.log, id) == 0)
  }

  lemma SpendingLookup(s: State, step: Step, id: string)
    requires step.Lookup? && Sound(s) && Idle(s) && Spending(s, id) && !s.tables.invitations[id].reusable
    ensures Spending(Apply(s, step), id)
  {
    var s' := Apply(s, step);
    forall r | PassedOn(s', r, id) ensures Count(s.log, id) == 0 {
      assert r == step.request;
      LookupReads(s.tables, step.tokenHash);
      assert forall q :: !InsertedOn(s, q, id);
    }
  }

  lemma SpendingInsert(s: State, step: Step, id: string)
    requires step.Insert? && Single(s) && Spending(s, id)
    ensures Spending(Apply(s, step), id)
  {
    var s', r := Apply(s, step), step.request;
    if s' != s {
      assert InProgress(s, r);
      forall q | PassedOn(s', q, id) ensures false {
        assert InProgress(s, q);
      }
      assert !exists q :: InsertedOn(s, q, id) by {
        forall q | InsertedOn(s, q, id) ensures false {
          assert InProgress(s, q);
        }
      }
      if s'.log != s.log {
        assert s'.log[..|s'.log| - 1] == s.log;
        assert s.phases[r].inv.id == id ==> PassedOn(s, r, id) && InsertedOn(s', r, id);
      }
    }
  }

  lemma SpendingMark(s: State, step: Step, id: string)
    requires step.Mark? && step.healthy && Sound(s) && Single(s) && Spending(s, id) &&
             !s.tables.invitations[id].reusable
    ensures Spending(Apply(s, step), id)
  {
    var s', r := Apply(s, step), step.request;
    if s' != s {
      assert InProgress(s, r);
      forall q | PassedOn(s', q, id) || (InsertedOn(s, q, id) && q != r) ensures false {
        assert InProgress(s, q);
      }
    }
  }

  lemma SpendingStep(s: State, step: Step, id: string)
    requires Sound(s) && Single(s) && (step.Lookup? ==> Idle(s)) && (step.Mark? ==> step.healthy)
    requires Spending(s, id) && !s.tables.invitations[id].reusable
    ensures Spending(Apply(s, step), id)
  {
    RowsKeepTerms(s, step, id);
    match step
    case Invite(_) =>
      assert forall r :: InsertedOn(s, r, id) == InsertedOn(Apply(s, step), r, id) &&
                         PassedOn(s, r, id) == PassedOn(Apply(s, step), r, id);
    case Remove(_) =>
      assert forall r :: InsertedOn(s, r, id) == InsertedOn(Apply(s, step), r, id) &&
                         PassedOn(s, r, id) == PassedOn(Apply(s, step), r, id);
    case Lookup(_, _, _) => SpendingLookup(s, step, id);
    case Insert(_, _, _, _, _, _) => SpendingInsert(s, step, id);
    case Mark(_, _, _) => SpendingMark(s, step, id);
  }

  /** Nothing was enrolled on an invitation that is not in the table yet. */
  lemma {:induction false} NotYetCounted(log: seq<Enrolled>, id: string)
    requires forall k :: 0 <= k < |log| ==> log[k].invitation != id
    ensures Count(log, id) == 0
  {
    if log != [] {
      NotYetCounted(log[..|log| - 1], id);
    }
  }

  lemma NewInvitationSpending(s: State, step: Step, id: string)
    requires Sound(s) && id !in s.tables.invitations && id in Apply(s, step).tables.invitations
    ensures Spending(Apply(s, step), id)
  {
    NotYetCounted(s.log, id);
  }

  lemma SerialisedPrefix(steps: seq<Step>)
    requires steps != [] && Serialised(steps)
    ensures Serialised(steps[..|steps| - 1])
  {
    var before := steps[..|steps| - 1];
    forall j | 0 <= j < |before| ensures before[..j] == steps[..j] && before[j] == steps[j] {}
  }

  lemma {:induction false} SerialisedRun(steps: seq<Step>, id: string)
    requires Serialised(steps)
    ensures Single(Run(steps))
    ensures id in Run(steps).tables.invitations && !Run(steps).tables.invitations[id].reusable ==>
            Spending(Run(steps), id)
  {
    if steps != [] {
      var n := |steps| - 1;
      var s := Run(steps[..n]);
      SerialisedPrefix(steps);
      SerialisedRun(steps[..n], id);
      RunsAreSound(INIT, steps[..n]);
      SingleStep(s, steps[n]);
      if id in s.tables.invitations {
        RowsKeepTerms(s, steps[n], id);
        if !s.tables.invitations[id].reusable {
          SpendingStep(s, steps[n], id);
        }
      } else if id in Run(steps).tables.invitations {
        NewInvitationSpending(s, steps[n], id);
      }
    }
  }

  /** With one request at a time and no failed mark, a one-time invitation enrols at most one device. */
  lemma SerialisedOnce(steps: seq<Step>, id: string)
    requires Serialised(steps)
    requires id in Run(steps).tables.invitations && !Run(steps).tables.invitations[id].reusable
    ensures Count(Run(steps).log, id) <= 1
  {
    SerialisedRun(steps, id);
  }
}
