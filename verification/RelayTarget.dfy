/** The agent's relay target: one handler at a time for each session, while polls and handlers interleave. */
module RelayTarget {
  // ---------------------------------------------------------------- runs

  /** `Visit` is one turn of the loop in `check`, on a session the controller listed; `End` is a handler's
      deferred `clearActive`. Each holds the lock once. */
  datatype Step = Visit(id: string) | End(id: string)

  function ActiveAfter(active: set<string>, steps: seq<Step>): set<string> {
    if steps == [] then active
    else
      var before, last := ActiveAfter(active, steps[..|steps| - 1]), steps[|steps| - 1];
      if last.Visit? then before + {last.id} else before - {last.id}
  }

  /** The handlers a run starts for a session: one for each visit that finds it inactive. */
  function Started(active: set<string>, steps: seq<Step>, id: string): nat {
    if steps == [] then 0
    else
      var before, last := steps[..|steps| - 1], steps[|steps| - 1];
      Started(active, before, id) + if last == Visit(id) && id !in ActiveAfter(active, before) then 1 else 0
  }

  function Ended(steps: seq<Step>, id: string): nat {
    if steps == [] then 0
    else Ended(steps[..|steps| - 1], id) + if steps[|steps| - 1] == End(id) then 1 else 0
  }

  /** Only a handler that was started and has not ended ends. */
  ghost predicate Real(steps: seq<Step>) {
    forall k, id :: 0 <= k < |steps| && steps[k] == End(id) ==> Ended(steps[..k], id) < Started({}, steps[..k], id)
  }

  /** In every interleaving there is at most one handler running for a session, and the session is marked
      active exactly while there is one. */
  lemma {:induction false} OneHandlerPerSession(steps: seq<Step>, id: string)
    requires Real(steps)
    ensures Started({}, steps, id) == Ended(steps, id) + if id in ActiveAfter({}, steps) then 1 else 0
  {
    if steps != [] {
      var before := steps[..|steps| - 1];
      assert forall k :: 0 <= k < |before| ==> before[..k] == steps[..k] && before[k] == steps[k];
      OneHandlerPerSession(before, id);
    }
  }

  // ---------------------------------------------------------------- the target

  /** The steps of one poll: before each turn of its loop some handlers may end. */
  function PollSteps(sessions: seq<string>, ended: seq<seq<string>>): seq<Step>
    requires |ended| == |sessions|
  {
    if sessions == [] then []
    else
      var n := |sessions| - 1;
      PollSteps(sessions[..n], ended[..n])
      + seq(|ended[n]|, i requires 0 <= i < |ended[n]| => End(ended[n][i])) + [Visit(sessions[n])]
  }

  lemma {:induction false} ActiveConcat(active: set<string>, a: seq<Step>, b: seq<Step>)
    ensures ActiveAfter(active, a + b) == ActiveAfter(ActiveAfter(active, a), b)
  {
    if b == [] {
      assert a + b == a;
    } else {
      ActiveConcat(active, a, b[..|b| - 1]);
      assert (a + b)[..|a + b| - 1] == a + b[..|b| - 1];
    }
  }

  lemma {:induction false} StartedConcat(active: set<string>, a: seq<Step>, b: seq<Step>, id: string)
    ensures Started(active, a + b, id) == Started(active, a, id) + Started(ActiveAfter(active, a), b, id)
  {
    if b == [] {
      assert a + b == a;
    } else {
      var rest := b[..|b| - 1];
      StartedConcat(active, a, rest, id);
      ActiveConcat(active, a, rest);
      assert (a + b)[..|a + b| - 1] == a + rest;
    }
  }

  lemma {:induction false} EndsStartNothing(active: set<string>, ids: seq<string>, id: string)
    ensures var ends := seq(|ids|, i requires 0 <= i < |ids| => End(ids[i]));
            Started(active, ends, id) == 0 && ActiveAfter(active, ends) == active - (set x | x in ids)
  {
    var ends := seq(|ids|, i requires 0 <= i < |ids| => End(ids[i]));
    if ids != [] {
      var n := |ids| - 1;
      EndsStartNothing(active, ids[..n], id);
      assert ends[..n] == seq(n, i requires 0 <= i < n => End(ids[..n][i]));
      assert (set x | x in ids) == (set x | x in ids[..n]) + {ids[n]};
    }
  }

  function Occurrences(ids: seq<string>, id: string): nat {
    if ids == [] then 0 else Occurrences(ids[..|ids| - 1], id) + if ids[|ids| - 1] == id then 1 else 0
  }

  class TCPRelayTarget {
    var active: set<string>

    constructor ()
      ensures active == {}
    {
      active := {};
    }

    method MarkActive(id: string) returns (marked: bool)
      modifies this
      ensures marked == (id !in old(active)) && active == old(active) + {id}
    {
      if id in active {
        return false;
      }
      active := active + {id};
      return true;
    }

    method ClearActive(id: string)
      modifies this
      ensures active == old(active) - {id}
    {
      active := active - {id};
    }

    /** One poll; `started` lists the sessions handed to a new handler. */
    method Check(sessions: seq<string>, ended: seq<seq<string>>) returns (started: seq<string>)
      requires |ended| == |sessions|
      modifies this
      ensures active == ActiveAfter(old(active), PollSteps(sessions, ended))
      ensures forall id :: Occurrences(started, id) == Started(old(active), PollSteps(sessions, ended), id)
    {
      started := [];
      for i := 0 to |sessions|
        invariant active == ActiveAfter(old(active), PollSteps(sessions[..i], ended[..i]))
        invariant forall id :: Occurrences(started, id) ==
                               Started(old(active), PollSteps(sessions[..i], ended[..i]), id)
      {
        ghost var before := active;
        for j := 0 to |ended[i]|
          invariant active == before - set x | x in ended[i][..j]
        {
          ClearActive(ended[i][j]);
        }
        PollNext(old(active), sessions, ended, i);
        var marked := MarkActive(sessions[i]);
        if !marked {
          continue;
        }
        assert (started + [sessions[i]])[..|started|] == started;
        started := started + [sessions[i]];
      }
      assert sessions[..|sessions|] == sessions && ended[..|sessions|] == ended;
    }
  }

  lemma PollNext(active: set<string>, sessions: seq<string>, ended: seq<seq<string>>, i: nat)
    requires |ended| == |sessions| && i < |sessions|
    ensures var before, after := PollSteps(sessions[..i], ended[..i]), PollSteps(sessions[..i + 1], ended[..i + 1]);
            var cleared := ActiveAfter(active, before) - set x | x in ended[i];
            && ActiveAfter(active, after) == cleared + {sessions[i]}
            && forall id :: Started(active, after, id) ==
                            Started(active, before, id) + if id == sessions[i] && id !in cleared then 1 else 0
  {
    var before, after := PollSteps(sessions[..i], ended[..i]), PollSteps(sessions[..i + 1], ended[..i + 1]);
    var ends, visit := seq(|ended[i]|, j requires 0 <= j < |ended[i]| => End(ended[i][j])), [Visit(sessions[i])];
    assert sessions[..i + 1][..i] == sessions[..i] && ended[..i + 1][..i] == ended[..i];
    assert after == before + ends + visit;
    ActiveConcat(active, before, ends);
    EndsStartNothing(ActiveAfter(active, before), ended[i], "");
    assert after[..|before + ends|] == before + ends;
    forall id
      ensures Started(active, after, id) ==
              Started(active, before, id)
              + if id == sessions[i] && id !in ActiveAfter(active, before) - (set x | x in ended[i]) then 1 else 0
    {
      EndsStartNothing(ActiveAfter(active, before), ended[i], id);
      StartedConcat(active, before, ends, id);
    }
  }
}
