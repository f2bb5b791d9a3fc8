/** The gate of the negotiations: at every process only the negotiation of the communicator with the
    lowest registered id goes on.  It lets one negotiation go on, and that one is never stuck.

    Source: openmpi-1.4.2/ompi/communicator/comm_cid.c:174-193, 409-420. */
module CidProgress {
  import opened CidTable
  import opened CidRuns

  /** The process is inside the negotiation: its communicator is registered there. */
  predicate Registered(ph: Phase) {
    ph.Searching? || ph.Proposed? || ph.Repeated? || ph.Trying? || ph.Settled?
  }

  /** The gate: no communicator with a lower id is registered at the same process.  `ids` gives the id
      of the communicator that a negotiation starts from. */
  ghost predicate Passes(s: System, ids: map<nat, nat>, a: Part) {
    && a.comm in ids
    && forall b :: b in s.phases && b.proc == a.proc && Registered(s.phases[b]) ==>
      b.comm in ids && ids[a.comm] <= ids[b.comm]
  }

  /** A negotiation with the lowest id of all that are going on anywhere. */
  ghost predicate Lowest(s: System, ids: map<nat, nat>, c: nat) {
    && c in ids && (exists a :: a in s.phases && a.comm == c && Registered(s.phases[a]))
    && forall b :: b in s.phases && Registered(s.phases[b]) ==> b.comm in ids && ids[c] <= ids[b.comm]
  }

  /** Everybody has called the function, and nobody found nothing in the very first search. */
  ghost predicate Entered(s: System, c: nat) {
    forall a | a in s.phases && a.comm == c ::
      !s.phases[a].Outside? && (s.phases[a].Searching? ==> s.phases[a].from < s.limit || s.phases[a].tried.Was?)
  }

  /** A run that goes through the gate at the beginning of a search, whenever one is made. */
  ghost predicate GatedNext(s: System, t: System, ids: map<nat, nat>) {
    Shape(s) && exists a, act :: Step(s, t, a, act) && (act.Probe? || act.Repeat? ==> Passes(s, ids, a))
  }

  /** The part searches, or proposes what it found before. */
  ghost predicate Searches(s: System, t: System, a: Part, act: Action)
    requires Shape(s)
  {
    Step(s, t, a, act) && (act.Probe? || act.Repeat?)
  }

  /** Who is held back: a process does not pass with one communicator while one with a lower id is registered
      there, and of those that search at a process only the one with the lowest id goes on. */
  lemma {:induction false} OneSearches(s: System, ids: map<nat, nat>, a: Part, b: Part)
    requires a in s.phases && b in s.phases && a.proc == b.proc && a.comm in ids && b.comm in ids
    ensures Registered(s.phases[b]) && ids[b.comm] < ids[a.comm] ==> !Passes(s, ids, a)
    ensures Shape(s) && Passes(s, ids, a) && Passes(s, ids, b) ==>
              forall t, u, act, act' ::
                Searches(s, t, a, act) && Searches(s, u, b, act') ==> ids[a.comm] == ids[b.comm]
  {
    if Shape(s) && Passes(s, ids, a) && Passes(s, ids, b) {
      forall t, u, act, act' | Searches(s, t, a, act) && Searches(s, u, b, act')
        ensures ids[a.comm] == ids[b.comm]
      {
        hide SetPhase, SetSlot, LeastFree;
        assert Registered(s.phases[a]) && Registered(s.phases[b]);
      }
    }
  }

  /** As long as some negotiation is going on, there is a lowest one. */
  lemma {:induction false} SomeLowest(s: System, ids: map<nat, nat>) returns (c: nat)
    requires exists a :: a in s.phases && Registered(s.phases[a])
    requires forall b :: b in s.phases && Registered(s.phases[b]) ==> b.comm in ids
    ensures Lowest(s, ids, c)
  {
    var a :| a in s.phases && Registered(s.phases[a]);
    c := LowestOf(s, ids, a);
  }

  lemma {:induction false} LowestOf(s: System, ids: map<nat, nat>, a: Part) returns (c: nat)
    requires a in s.phases && Registered(s.phases[a])
    requires forall b :: b in s.phases && Registered(s.phases[b]) ==> b.comm in ids
    ensures Lowest(s, ids, c)
    decreases ids[a.comm]
  {
    if b :| b in s.phases && Registered(s.phases[b]) && ids[b.comm] < ids[a.comm] {
      c := LowestOf(s, ids, b);
    } else {
      c := a.comm;
    }
  }

  // ----- it is not stuck -----

  /** How many contributions a process has made. */
  function Stage(ph: Phase): nat {
    ProposalCount(ph) + AnswerCount(ph)
  }

  /** Among the participants that have not finished there is one that has contributed least. */
  lemma {:induction false} Slowest(s: System, a: Part) returns (m: Part)
    requires a in s.phases && Registered(s.phases[a])
    ensures m in s.phases && m.comm == a.comm && Registered(s.phases[m])
    ensures forall b :: b in s.phases && b.comm == a.comm && Registered(s.phases[b]) ==>
              Stage(s.phases[m]) <= Stage(s.phases[b])
    decreases Stage(s.phases[a])
  {
    if b :| b in s.phases && b.comm == a.comm && Registered(s.phases[b]) && Stage(s.phases[b]) < Stage(s.phases[a]) {
      m := Slowest(s, b);
    } else {
      m := a;
    }
  }

  /** A participant that has finished has contributed to every round that another one is in. */
  lemma {:induction false} FinishedBehind(s: System, a: Part, b: Part)
    requires Rounds(s) && a in s.phases && b in s.phases && a.comm == b.comm
    requires s.phases[b].Finished? || s.phases[b].Freed?
    ensures RoundOf(s.phases[a]) <= s.phases[b].round
  {
    FinishedRound(s, b);
    assert RoundsOK(s, a, s.phases[a]);
    hide MaxIs, AllAnswered, AllAgreed, Current;
    var r := s.phases[b].round;
    assert r < RoundOf(s.phases[a]) ==> Failed(s, a.comm, r);
  }

  /** Everybody has contributed to what the slowest participant waits for. */
  lemma {:induction false} Waited(s: System, m: Part, q: nat)
    requires Rounds(s) && m in s.phases && Registered(s.phases[m]) && Entered(s, m.comm) && q in s.members[m.comm]
    requires forall b :: b in s.phases && b.comm == m.comm && Registered(s.phases[b]) ==>
               Stage(s.phases[m]) <= Stage(s.phases[b])
    ensures Part(m.comm, q) in s.phases
    ensures s.phases[m].Proposed? || s.phases[m].Repeated? ==>
              ProposalCount(s.phases[Part(m.comm, q)]) > s.phases[m].round
    ensures s.phases[m].Settled? ==> AnswerCount(s.phases[Part(m.comm, q)]) > s.phases[m].round
  {
    var b := Part(m.comm, q);
    if !Registered(s.phases[b]) { FinishedBehind(s, m, b); }
    hide RoundsOK;
  }

  lemma {:induction false} MaxExists(s: System, c: nat, r: nat, qs: set<nat>, p: nat) returns (next: nat)
    requires c in s.members && qs <= s.members[c] && p in qs && forall q :: q in qs ==> Key(c, r, q) in s.proposals
    ensures forall q :: q in qs ==> s.proposals[Key(c, r, q)] <= next
    ensures exists q :: q in qs && s.proposals[Key(c, r, q)] == next
    decreases |qs|
  {
    if o :| o in qs && o != p {
      next := MaxExists(s, c, r, qs - {o}, p);
      var x :| x in qs - {o} && s.proposals[Key(c, r, x)] == next;
      if s.proposals[Key(c, r, o)] > next {
        next := s.proposals[Key(c, r, o)];
      } else {
        assert x in qs;
      }
    } else {
      next := s.proposals[Key(c, r, p)];
      assert qs == {p};
    }
  }

  /** The slowest participant can take its next step. */
  lemma {:induction false} CanStep(s: System, m: Part) returns (t: System, act: Action)
    requires Rounds(s) && m in s.phases && Registered(s.phases[m]) && Entered(s, m.comm)
    requires forall b :: b in s.phases && b.comm == m.comm && Registered(s.phases[b]) ==>
               Stage(s.phases[m]) <= Stage(s.phases[b])
    ensures Shape(s) && Step(s, t, m, act)
  {
    var ph := s.phases[m];
    assert RoundsOK(s, m, ph) && m.comm in s.members && m.proc in s.members[m.comm];
    match ph
    case Searching(_, from, _) =>
      hide Rounds, RoundsOK;
      if from < s.limit {
        act := Probe;
        t := AfterProbe(s, m);
      } else {
        act := Repeat;
        t := AfterRepeat(s, m);
      }
    case Proposed(_, _) =>
      act := Settle;
      t := Settling(s, m);
    case Repeated(_, _) =>
      act := Settle;
      t := Settling(s, m);
    case Trying(r, next, _) =>
      hide Rounds, RoundsOK;
      act := Try;
      t := AfterTry(s, m);
    case Settled(r, next, _, _, _) =>
      forall q | q in s.members[m.comm] ensures Key(m.comm, r, q) in s.answers {
        Waited(s, m, q);
        assert RoundsOK(s, Part(m.comm, q), s.phases[Part(m.comm, q)]);
      }
      hide Rounds, RoundsOK;
      act := Decide;
      t := AfterDecide(s, m);
  }

  lemma {:induction false} Settling(s: System, m: Part) returns (t: System)
    requires Rounds(s) && m in s.phases && (s.phases[m].Proposed? || s.phases[m].Repeated?) && Entered(s, m.comm)
    requires forall b :: b in s.phases && b.comm == m.comm && Registered(s.phases[b]) ==>
               Stage(s.phases[m]) <= Stage(s.phases[b])
    ensures Shape(s) && Step(s, t, m, Settle)
  {
    var r := s.phases[m].round;
    assert RoundsOK(s, m, s.phases[m]) && m.comm in s.members && m.proc in s.members[m.comm];
    forall q | q in s.members[m.comm] ensures Key(m.comm, r, q) in s.proposals {
      Waited(s, m, q);
      assert RoundsOK(s, Part(m.comm, q), s.phases[Part(m.comm, q)]);
    }
    hide Rounds, RoundsOK;
    var next := MaxExists(s, m.comm, r, s.members[m.comm], m.proc);
    assert MaxIs(s, m.comm, r, next);
    t := AfterSettle(s, m, next);
  }

  lemma {:induction false} AfterProbe(s: System, a: Part) returns (t: System)
    requires Shape(s) && a in s.phases && s.phases[a].Searching? && s.phases[a].from < s.limit
    ensures Step(s, t, a, Probe)
  {
    var ph := s.phases[a];
    t := if s.tables[a.proc][ph.from] == Free then
           SetPhase(SetSlot(s, a.proc, ph.from, Held(a.comm)), a, CidRuns.Phase.Proposed(ph.round, ph.from))
           .(proposals := s.proposals[Key(a.comm, ph.round, a.proc) := ph.from])
         else SetPhase(s, a, Searching(ph.round, ph.from + 1, ph.tried));
  }

  lemma {:induction false} AfterRepeat(s: System, a: Part) returns (t: System)
    requires Shape(s) && a in s.phases && s.phases[a].Searching? && s.phases[a].from >= s.limit
    requires s.phases[a].tried.Was?
    ensures Step(s, t, a, Repeat)
  {
    var ph := s.phases[a];
    t := SetPhase(s, a, Repeated(ph.round, ph.tried.id))
         .(proposals := s.proposals[Key(a.comm, ph.round, a.proc) := ph.tried.id]);
  }

  lemma {:induction false} AfterSettle(s: System, a: Part, next: nat) returns (t: System)
    requires Shape(s) && a in s.phases && (s.phases[a].Proposed? || s.phases[a].Repeated?) && s.phases[a].id < s.limit
    requires MaxIs(s, a.comm, s.phases[a].round, next)
    ensures Step(s, t, a, Settle)
  {
    hide MaxIs;
    t := AfterMax(s, a, next);
  }

  lemma {:induction false} AfterTry(s: System, a: Part) returns (t: System)
    requires Shape(s) && a in s.phases && s.phases[a].Trying? && s.phases[a].next < s.limit
    ensures Step(s, t, a, Try)
  {
    var ph := s.phases[a];
    var ok := s.tables[a.proc][ph.next] == Free;
    var u := if ok then SetSlot(s, a.proc, ph.next, Held(a.comm)) else s;
    t := SetPhase(u, a, CidRuns.Phase.Settled(ph.round, ph.next, ok, ok, ph.last))
         .(answers := s.answers[Key(a.comm, ph.round, a.proc) := ok]);
  }

  lemma {:induction false} AfterDecide(s: System, a: Part) returns (t: System)
    requires Shape(s) && a in s.phases && s.phases[a].Settled? && s.phases[a].next < s.limit
    requires AllAnswered(s, a.comm, s.phases[a].round)
    ensures Step(s, t, a, Decide)
  {
    var ph := s.phases[a];
    t := if AllAgreed(s, a.comm, ph.round) then
           SetPhase(SetSlot(s, a.proc, ph.next, Live(a.comm)), a, Finished(ph.round, ph.next))
         else
           SetPhase(if ph.response then SetSlot(s, a.proc, ph.next, Free) else s, a,
                    Searching(ph.round + 1, ph.next + 1, Was(ph.last)));
    hide AllAnswered, AllAgreed;
  }

  /** In every state of every run: a negotiation with the lowest id passes the gate at all its processes,
      and if everybody has entered it, one of them can take its next step in it. */
  lemma {:induction false} GateProgress(run: seq<System>, n: nat, ids: map<nat, nat>, c: nat)
    requires Run(run) && n < |run| && Lowest(run[n], ids, c) && Entered(run[n], c)
    ensures forall a :: a in run[n].phases && a.comm == c ==> Passes(run[n], ids, a)
    ensures Shape(run[n]) && exists t, a: Part, act :: a.comm == c && Step(run[n], t, a, act)
  {
    RunRounds(run, n);
    hide Rounds, Step;
    var s := run[n];
    var a :| a in s.phases && a.comm == c && Registered(s.phases[a]);
    var m := Slowest(s, a);
    var t, act := CanStep(s, m);
  }
}
