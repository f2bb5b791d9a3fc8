/** One negotiation that nobody disturbs: all participants go through the rounds of
    `ompi_comm_nextcid` together, with the two reductions between the steps.

    Source: openmpi-1.4.2/ompi/communicator/comm_cid.c:174-249. */
module CidRounds {
  import opened CidTable
  import opened CidReduce

  /** Every participant has the id free. */
  ghost predicate CommonFree(ts: seq<Table>, id: nat) {
    forall k :: 0 <= k < |ts| ==> id < |ts[k]| && ts[k][id] == Free
  }

  ghost predicate LeastCommonFree(ts: seq<Table>, id: nat) {
    CommonFree(ts, id) && forall i: nat :: i < id ==> !CommonFree(ts, i)
  }

  ghost function Tables(ps: seq<Process>): (ts: seq<Table>)
    reads ps
    ensures |ts| == |ps| && forall k :: 0 <= k < |ps| ==> ts[k] == ps[k].slots
  {
    seq(|ps|, k requires 0 <= k < |ps| reads ps => ps[k].slots)
  }

  ghost predicate Distinct(ps: seq<Process>) {
    forall i, j :: 0 <= i < j < |ps| ==> ps[i] != ps[j]
  }

  /** The participants start a round with unchanged tables of the same length. */
  ghost predicate RoundStart(ps: seq<Process>, ts: seq<Table>, limit: nat)
    reads ps
  {
    Tables(ps) == ts && forall k :: 0 <= k < |ps| ==> |ts[k]| == limit && ps[k].start <= limit && Ready(ps[k], ts[k])
  }

  /** There is a free id to propose, or one was proposed before. */
  ghost predicate Ready(p: Process, t: Table)
    reads p
  {
    p.start <= |t| && (LeastFree(t, p.start) == |t| ==> p.proposed < |t| && t[p.proposed] == Free)
  }

  /** What one participant has reserved and proposed; nothing is reserved for an id of an earlier round. */
  ghost predicate Proposed(p: Process, t: Table, comm: nat)
    reads p
  {
    && p.proposed < |t| && t[p.proposed] == Free && p.start <= |t|
    && if LeastFree(t, p.start) < |t| then p.proposed == LeastFree(t, p.start) && p.slots == t[p.proposed := Held(comm)]
       else p.slots == t
  }

  ghost predicate AllProposed(ps: seq<Process>, ts: seq<Table>, comm: nat)
    reads ps
  {
    |ts| == |ps| && forall k :: 0 <= k < |ps| ==> Proposed(ps[k], ts[k], comm)
  }

  /** What one participant knows when it has answered. */
  ghost predicate Answered(p: Process, t: Table, comm: nat, next: nat)
    reads p
  {
    && next < |t| && p.response == (t[next] == Free) && |p.slots| == |t| && p.proposed < |t| && t[p.proposed] == Free
    && (forall i :: 0 <= i < |t| && i != next ==> p.slots[i] == t[i])
    && (!p.response ==> p.slots[next] == t[next])
  }

  ghost predicate AllAnswered(ps: seq<Process>, ts: seq<Table>, comm: nat, next: nat)
    reads ps
  {
    |ts| == |ps| && forall k :: 0 <= k < |ps| ==> Answered(ps[k], ts[k], comm, next)
  }

  lemma {:induction false} LeastFreeBelow(t: Table, start: nat, id: nat)
    requires start <= id < |t| && t[id] == Free
    ensures LeastFree(t, start) <= id
  {}

  method ProposeOne(p: Process, comm: nat, ghost t: Table)
    requires p.slots == t && Ready(p, t)
    modifies p`slots, p`proposed
    ensures Proposed(p, t, comm)
  {
    p.Propose(comm);
  }

  method ProposeAll(ps: seq<Process>, comm: nat, ghost ts: seq<Table>, ghost limit: nat)
    requires Distinct(ps) && RoundStart(ps, ts, limit)
    modifies ps`slots, ps`proposed
    ensures AllProposed(ps, ts, comm)
  {
    hide Proposed, Ready;
    for k := 0 to |ps|
      invariant forall j :: 0 <= j < k ==> Proposed(ps[j], ts[j], comm)
      invariant forall j :: k <= j < |ps| ==> ps[j].slots == ts[j] && Ready(ps[j], ts[j])
    {
      ProposeOne(ps[k], comm, ts[k]);
    }
  }

  /** The reduction with the maximum: every participant gets the largest proposal. */
  method MaxProposal(mode: Mode, local: nat, ps: seq<Process>) returns (next: nat)
    requires |ps| > 0 && (mode.Intra? || 0 < local < |ps|)
    ensures exists k :: 0 <= k < |ps| && ps[k].proposed == next
    ensures forall k :: 0 <= k < |ps| ==> ps[k].proposed <= next
  {
    var values: seq<int> := seq(|ps|, k requires 0 <= k < |ps| reads ps => ps[k].proposed);
    var results := Allreduce(mode, OpMax, values, local);
    ReduceMax(values);
    assert forall k :: 0 <= k < |ps| ==> values[k] == ps[k].proposed;
    next := results[0];
  }

  /** The reduction with the minimum: true if everybody agreed. */
  method AllAgree(mode: Mode, local: nat, ps: seq<Process>) returns (agreed: bool)
    requires |ps| > 0 && (mode.Intra? || 0 < local < |ps|)
    ensures agreed == forall k :: 0 <= k < |ps| ==> ps[k].response
  {
    var values: seq<int> := seq(|ps|, k requires 0 <= k < |ps| reads ps => if ps[k].response then 1 else 0);
    var results := Allreduce(mode, OpMin, values, local);
    ReduceMin(values);
    assert forall k :: 0 <= k < |ps| ==> values[k] == if ps[k].response then 1 else 0;
    agreed := results[0] == 1;
  }

  method SettleOne(p: Process, comm: nat, next: nat, ghost t: Table)
    requires Proposed(p, t, comm) && next < |t|
    modifies p`slots, p`response
    ensures Answered(p, t, comm, next)
  {
    hide LeastFree;
    AgreesIfFree(t, comm, p.proposed, next);
    StaleUndone(t, comm, p.proposed, next);
    hide Settled;
    p.Settle(comm, next);
  }

  method SettleAll(ps: seq<Process>, comm: nat, next: nat, ghost ts: seq<Table>)
    requires Distinct(ps) && AllProposed(ps, ts, comm)
    requires forall k :: 0 <= k < |ps| ==> next < |ts[k]|
    modifies ps`slots, ps`response
    ensures AllAnswered(ps, ts, comm, next)
  {
    hide Proposed, Answered;
    for k := 0 to |ps|
      invariant forall j :: 0 <= j < k ==> Answered(ps[j], ts[j], comm, next)
      invariant forall j :: k <= j < |ps| ==> Proposed(ps[j], ts[j], comm)
    {
      SettleOne(ps[k], comm, next, ts[k]);
    }
  }

  method UndoAll(ps: seq<Process>, comm: nat, next: nat, ghost ts: seq<Table>)
    requires Distinct(ps) && AllAnswered(ps, ts, comm, next)
    modifies ps`slots, ps`start
    ensures Tables(ps) == ts && forall k :: 0 <= k < |ps| ==> ps[k].start == next + 1
  {
    for k := 0 to |ps|
      invariant forall j :: 0 <= j < k ==> ps[j].slots == ts[j] && ps[j].start == next + 1
      invariant forall j :: k <= j < |ps| ==> Answered(ps[j], ts[j], comm, next)
    {
      ps[k].Undo(next);
      assert ps[k].slots == ts[k];
    }
  }

  method FinishAll(ps: seq<Process>, comm: nat, next: nat, ghost ts: seq<Table>)
    requires Distinct(ps) && AllAnswered(ps, ts, comm, next)
    modifies ps`slots
    ensures forall k :: 0 <= k < |ps| ==> next < |ts[k]| && ps[k].slots == ts[k][next := Live(comm)]
  {
    for k := 0 to |ps|
      invariant forall j :: 0 <= j < k ==> ps[j].slots == ts[j][next := Live(comm)]
      invariant forall j :: k <= j < |ps| ==> Answered(ps[j], ts[j], comm, next)
    {
      ps[k].Finish(comm, next);
      assert ps[k].slots == ts[k][next := Live(comm)];
    }
  }

  method BeginAll(ps: seq<Process>)
    requires Distinct(ps)
    modifies ps`start
    ensures forall k :: 0 <= k < |ps| ==> ps[k].start == LeastFree(ps[k].slots, 0)
  {
    for k := 0 to |ps|
      invariant forall j :: 0 <= j < k ==> ps[j].start == LeastFree(ps[j].slots, 0)
    {
      ps[k].Begin();
    }
  }

  lemma {:induction false} SomeLeast(ts: seq<Table>, id: nat) returns (least: nat)
    requires |ts| > 0 && CommonFree(ts, id)
    ensures LeastCommonFree(ts, least)
  {
    least := 0;
    while !CommonFree(ts, least)
      invariant least <= id && forall i: nat :: i < least ==> !CommonFree(ts, i)
      decreases id - least
    {
      least := least + 1;
    }
  }

  /** At the beginning every participant looks for an id in its own table. */
  lemma {:induction false} StartsReady(ps: seq<Process>, ts: seq<Table>, limit: nat)
    requires Tables(ps) == ts && (forall k :: 0 <= k < |ps| ==> |ts[k]| == limit && HasFree(ts[k]))
    requires forall k :: 0 <= k < |ps| ==> ps[k].start == LeastFree(ps[k].slots, 0)
    ensures RoundStart(ps, ts, limit)
  {
    forall k | 0 <= k < |ps| ensures ps[k].start < limit && ts[k][ps[k].start] == Free {
      var id :| 0 <= id < |ts[k]| && ts[k][id] == Free;
      LeastFreeBelow(ts[k], 0, id);
    }
  }

  ghost predicate HasFree(t: Table) {
    exists id :: 0 <= id < |t| && t[id] == Free
  }

  /** The largest proposal lies inside the tables, and between the starting points and any commonly free
      id that nobody has passed. */
  lemma {:induction false} NextInRange(ps: seq<Process>, ts: seq<Table>, limit: nat, comm: nat, next: nat)
    requires |ps| > 0 && AllProposed(ps, ts, comm) && forall k :: 0 <= k < |ps| ==> |ts[k]| == limit
    requires exists k :: 0 <= k < |ps| && ps[k].proposed == next
    requires forall k :: 0 <= k < |ps| ==> ps[k].proposed <= next
    ensures next < limit
    ensures forall id: nat :: CommonFree(ts, id) && (forall k :: 0 <= k < |ps| ==> ps[k].start <= id) ==>
              ps[0].start <= next <= id
  {
    assert Proposed(ps[0], ts[0], comm);
    forall id: nat | CommonFree(ts, id) && forall k :: 0 <= k < |ps| ==>
      ps[k].start <= id ensures ps[0].start <= next <= id {
      var m :| 0 <= m < |ps| && ps[m].proposed == next;
      assert Proposed(ps[m], ts[m], comm) && id < |ts[m]| && ts[m][id] == Free && id < |ts[0]| && ts[0][id] == Free;
      LeastFreeBelow(ts[m], ps[m].start, id);
      LeastFreeBelow(ts[0], ps[0].start, id);
    }
  }

  /** Everybody agrees exactly if the id is free everywhere. */
  lemma {:induction false} AgreedIfFree(ps: seq<Process>, ts: seq<Table>, comm: nat, next: nat)
    requires AllAnswered(ps, ts, comm, next)
    ensures (forall k :: 0 <= k < |ps| ==> ps[k].response) <==> CommonFree(ts, next)
  {
    if CommonFree(ts, next) {
      forall k | 0 <= k < |ps| ensures ps[k].response {
        assert Answered(ps[k], ts[k], comm, next) && ts[k][next] == Free;
      }
    } else {
      var k :| 0 <= k < |ts| && !(next < |ts[k]| && ts[k][next] == Free);
      assert Answered(ps[k], ts[k], comm, next);
    }
  }

  /** One round: the largest proposal is taken if it is free everywhere; if not, every table is as it was. */
  method Round(mode: Mode, local: nat, ps: seq<Process>, comm: nat, ghost ts: seq<Table>, ghost limit: nat)
    returns (agreed: bool, next: nat)
    requires |ps| > 0 && (mode.Intra? || 0 < local < |ps|) && Distinct(ps) && RoundStart(ps, ts, limit)
    modifies ps`slots, ps`proposed, ps`response, ps`start
    ensures next < limit && (agreed <==> CommonFree(ts, next))
    ensures forall id: nat :: CommonFree(ts, id) && old(forall k :: 0 <= k < |ps| ==> ps[k].start <= id) ==>
              old(ps[0].start) <= next <= id
    ensures agreed ==> forall k :: 0 <= k < |ps| ==> next < |ts[k]| && ps[k].slots == ts[k][next := Live(comm)]
    ensures !agreed ==> RoundStart(ps, ts, limit) && forall k :: 0 <= k < |ps| ==> ps[k].start == next + 1
  {
    hide *;
    RoundTables(ps, ts, limit);
    ProposeAll(ps, comm, ts, limit);
    next := MaxProposal(mode, local, ps);
    NextInRange(ps, ts, limit, comm, next);
    SettleAll(ps, comm, next, ts);
    AgreedIfFree(ps, ts, comm, next);
    agreed := AllAgree(mode, local, ps);
    StillReady(ps, ts, comm, next);
    if agreed {
      FinishAll(ps, comm, next, ts);
    } else {
      UndoAll(ps, comm, next, ts);
      RestartReady(ps, ts, limit, next);
    }
  }

  lemma {:induction false} RoundTables(ps: seq<Process>, ts: seq<Table>, limit: nat)
    requires RoundStart(ps, ts, limit)
    ensures |ts| == |ps| && forall k :: 0 <= k < |ps| ==> |ts[k]| == limit
  {}

  lemma {:induction false} StillReady(ps: seq<Process>, ts: seq<Table>, comm: nat, next: nat)
    requires AllAnswered(ps, ts, comm, next)
    ensures |ts| == |ps| && forall k :: 0 <= k < |ps| ==> ps[k].proposed < |ts[k]| && ts[k][ps[k].proposed] == Free
  {}

  lemma {:induction false} RestartReady(ps: seq<Process>, ts: seq<Table>, limit: nat, next: nat)
    requires Tables(ps) == ts && next < limit
    requires forall k :: 0 <= k < |ps| ==> |ts[k]| == limit && ps[k].start == next + 1
    requires forall k :: 0 <= k < |ps| ==> ps[k].proposed < |ts[k]| && ts[k][ps[k].proposed] == Free
    ensures RoundStart(ps, ts, limit)
  {}

  lemma {:induction false} LeastIs(ts: seq<Table>, least: nat)
    requires LeastCommonFree(ts, least)
    ensures CommonFree(ts, least) && forall id: nat :: CommonFree(ts, id) ==> least <= id
  {
    hide CommonFree;
  }

  /** If some id is free at every participant, the negotiation ends, the id is the least such id,
      it is entered at every participant, and nothing else in any table is changed.  It does not
      matter whether the participants are one group or two, with the first `local` in one of them. */
  method NextCid(mode: Mode, local: nat, ps: seq<Process>, comm: nat, ghost limit: nat, ghost id: nat)
    returns (next: nat)
    requires |ps| > 0 && (mode.Intra? || 0 < local < |ps|) && Distinct(ps)
    requires CommonFree(Tables(ps), id) && forall k :: 0 <= k < |ps| ==> |ps[k].slots| == limit
    modifies ps
    ensures LeastCommonFree(old(Tables(ps)), next)
    ensures forall k :: 0 <= k < |ps| ==>
              next < |old(Tables(ps))[k]| && ps[k].slots == old(Tables(ps))[k][next := Live(comm)]
  {
    hide *;
    ghost var ts := Tables(ps);
    ghost var least := SomeLeast(ts, id);
    LeastIs(ts, least);
    BeginAll(ps);
    BeginsBelow(ps, ts, limit, least);
    while true
      invariant RoundStart(ps, ts, limit) && forall k :: 0 <= k < |ps| ==> ps[k].start <= least
      decreases least - ps[0].start
    {
      var agreed;
      agreed, next := Round(mode, local, ps, comm, ts, limit);
      if agreed {
        return;
      }
      assert next != least;
    }
  }

  lemma {:induction false} BeginsBelow(ps: seq<Process>, ts: seq<Table>, limit: nat, least: nat)
    requires Tables(ps) == ts && CommonFree(ts, least) && forall k :: 0 <= k < |ps| ==> |ps[k].slots| == limit
    requires forall k :: 0 <= k < |ps| ==> ps[k].start == LeastFree(ps[k].slots, 0)
    ensures RoundStart(ps, ts, limit) && forall k :: 0 <= k < |ps| ==> ps[k].start <= least
  {
    forall k | 0 <= k < |ps| ensures HasFree(ts[k]) && ps[k].start <= least {
      assert least < |ts[k]| && ts[k][least] == Free;
      LeastFreeBelow(ts[k], 0, least);
    }
    StartsReady(ps, ts, limit);
  }

  /** If no id is free at every participant, the negotiation does not come to an end: after any number of
      rounds it has not agreed, and all tables are as they were. */
  method NeverAgreed(mode: Mode, local: nat, ps: seq<Process>, comm: nat, ghost limit: nat, rounds: nat)
    returns (agreed: bool)
    requires |ps| > 0 && (mode.Intra? || 0 < local < |ps|) && Distinct(ps)
    requires forall k :: 0 <= k < |ps| ==> |ps[k].slots| == limit && HasFree(ps[k].slots)
    requires forall id: nat :: !CommonFree(Tables(ps), id)
    modifies ps
    ensures !agreed && Tables(ps) == old(Tables(ps))
  {
    hide *;
    ghost var ts := Tables(ps);
    BeginAll(ps);
    agreed := false;
    StartsReady(ps, ts, limit);
    for i := 0 to rounds
      invariant !agreed && RoundStart(ps, ts, limit)
    {
      var next;
      agreed, next := Round(mode, local, ps, comm, ts, limit);
    }
    SameTables(ps, ts, limit);
  }

  lemma {:induction false} SameTables(ps: seq<Process>, ts: seq<Table>, limit: nat)
    requires RoundStart(ps, ts, limit)
    ensures Tables(ps) == ts
  {}
}
