/** A negotiation comes to an end while others interleave with it, if one id stays free for it at all its
    processes: it takes a bounded number of steps of its own, and as long as it has not ended and passes the
    gate one of them is possible.

    Source: openmpi-1.4.2/ompi/communicator/comm_cid.c:182-245. */
module CidBound {
  import opened CidTable
  import opened CidRuns
  import opened CidProgress

  /** At every participant the id is free, or the negotiation has it. */
  ghost predicate Kept(s: System, c: nat, g: nat)
    requires c in s.members
  {
    forall p :: p in s.members[c] ==>
      p in s.tables && g < |s.tables[p]| && (s.tables[p][g] == Free || Belongs(s.tables[p][g], c))
  }

  /** A participant has not got past the id. */
  predicate Low(ph: Phase, g: nat) {
    match ph
    case Outside => true
    case Searching(_, from, _) => from <= g
    case Proposed(_, id) => id <= g
    case Repeated(_, _) => false
    case Trying(_, next, _) => next <= g
    case Settled(_, next, _, _, _) => next <= g
    case Finished(_, cid) => cid <= g
    case Freed(_, cid) => cid <= g
  }

  /** Nobody has got past the id, and a round in which somebody did not agree was about a lower one. */
  ghost predicate Below(s: System, c: nat, g: nat)
    requires c in s.members
  {
    && (forall a :: a in s.phases && a.comm == c ==> Low(s.phases[a], g))
    && (forall r: nat, q: nat :: Key(c, r, q) in s.proposals ==> s.proposals[Key(c, r, q)] <= g)
    && (forall r: nat, q: nat :: Key(c, r, q) in s.answers && !s.answers[Key(c, r, q)] ==> FailedBelow(s, c, r, g))
  }

  ghost predicate FailedBelow(s: System, c: nat, r: nat, g: nat)
    requires c in s.members
  {
    exists n: nat :: n < g && MaxIs(s, c, r, n)
  }

  // ----- nobody gets past the id -----

  lemma {:induction false} FreeHere(s: System, a: Part, g: nat)
    requires Inv(s) && a in s.phases && a.comm in s.members && Kept(s, a.comm, g) && !HoldsAt(s.phases[a], g)
    ensures a.proc in s.tables && g < |s.tables[a.proc]| == s.limit && s.tables[a.proc][g] == Free
  {
    assert OwnedBy(s, a) && a.proc in s.members[a.comm] && |s.tables[a.proc]| == s.limit;
    HeldHere(s, a, g);
    hide OwnedBy, RoundsOK;
  }

  /** The phase of a participant after its own step. */
  lemma {:induction false} StaysLow(s: System, t: System, a: Part, act: Action, g: nat)
    requires Inv(s) && Step(s, t, a, act) && a in s.phases && a.comm in s.members
    requires Kept(s, a.comm, g) && Below(s, a.comm, g)
    ensures a in t.phases && Low(t.phases[a], g)
    ensures act != Free_ ==> Left(t.phases[a], g) < Left(s.phases[a], g)
    ensures act == Free_ ==> Left(t.phases[a], g) == Left(s.phases[a], g)
  {
    hide *;
    LowAt(s, a, g);
    if act.Settle? {
      var next := SettleNext(s, t, a);
      NextLow(s, a, next, g);
      SettledLow(s, t, a, next, g);
    } else if act.Decide? {
      DecidedLow(s, t, a, g);
    } else {
      if act.Begin? || act.Probe? || act.Repeat? { SearchFree(s, t, a, act, g); }
      OtherLow(s, t, a, act, g);
    }
  }

  lemma {:induction false} LowAt(s: System, a: Part, g: nat)
    requires Inv(s) && a in s.phases && a.comm in s.members && Below(s, a.comm, g)
    ensures Shape(s) && Low(s.phases[a], g) && a.proc in s.tables && |s.tables[a.proc]| == s.limit
  {
    hide OwnedBy, RoundsOK, FailedBelow;
  }

  /** A process that searches holds nothing, so the id is free for it. */
  lemma {:induction false} SearchFree(s: System, t: System, a: Part, act: Action, g: nat)
    requires Inv(s) && Step(s, t, a, act) && a in s.phases && a.comm in s.members && Kept(s, a.comm, g)
    requires act.Begin? || act.Probe? || act.Repeat?
    ensures a.proc in s.tables && g < |s.tables[a.proc]| && s.tables[a.proc][g] == Free
  {
    assert !HoldsAt(s.phases[a], g);
    hide Step, Inv, Kept;
    FreeHere(s, a, g);
  }

  lemma {:induction false} OtherLow(s: System, t: System, a: Part, act: Action, g: nat)
    requires Shape(s) && Step(s, t, a, act) && a in s.phases && Low(s.phases[a], g) && !act.Settle? && !act.Decide?
    requires a.proc in s.tables && |s.tables[a.proc]| == s.limit
    requires act.Begin? || act.Probe? || act.Repeat? ==> g < s.limit && s.tables[a.proc][g] == Free
    ensures a in t.phases && Low(t.phases[a], g)
    ensures act != Free_ ==> Left(t.phases[a], g) < Left(s.phases[a], g)
    ensures act == Free_ ==> Left(t.phases[a], g) == Left(s.phases[a], g)
  {
    if act.Begin? { LeastBelow(s.tables[a.proc], 0, g); }
    hide Shape, SetSlot, LeastFree;
    TablesOnly(s, a.proc);
  }

  lemma {:induction false} LeastBelow(t: Table, start: nat, id: nat)
    requires start <= id < |t| && t[id] == Free
    ensures LeastFree(t, start) <= id
  {}

  /** The maximum of a round is one of the proposals. */
  lemma {:induction false} NextLow(s: System, a: Part, next: nat, g: nat)
    requires Inv(s) && a in s.phases && a.comm in s.members && Below(s, a.comm, g)
    requires (s.phases[a].Proposed? || s.phases[a].Repeated?) && MaxIs(s, a.comm, s.phases[a].round, next)
    ensures s.phases[a].id <= next <= g && Low(s.phases[a], g)
  {
    assert RoundsOK(s, a, s.phases[a]) && a.proc in s.members[a.comm];
    assert Key(a.comm, s.phases[a].round, a.proc) in s.proposals;
    hide Kept, OwnedBy;
  }

  lemma {:induction false} SettledLow(s: System, t: System, a: Part, next: nat, g: nat)
    requires a in s.phases && a in t.phases && (s.phases[a].Proposed? || s.phases[a].Repeated?)
    requires s.phases[a].id <= next <= g && Low(s.phases[a], g)
    requires if next == s.phases[a].id then
               t.phases[a] == Settled(s.phases[a].round, next, true, s.phases[a].Proposed?, s.phases[a].id)
             else t.phases[a] == Trying(s.phases[a].round, next, s.phases[a].id)
    ensures Low(t.phases[a], g) && Left(t.phases[a], g) < Left(s.phases[a], g)
  {}

  lemma {:induction false} DecidedLow(s: System, t: System, a: Part, g: nat)
    requires Inv(s) && Step(s, t, a, Decide) && a in s.phases && a.comm in s.members && Below(s, a.comm, g)
    ensures a in t.phases && Low(t.phases[a], g) && Left(t.phases[a], g) < Left(s.phases[a], g)
  {
    assert s.phases[a].Settled? && AllAnswered(s, a.comm, s.phases[a].round);
    if !AllAgreed(s, a.comm, s.phases[a].round) { FailedLow(s, a, g); }
    LowAt(s, a, g);
    hide Inv, Below, AllAgreed, AllAnswered, SetSlot, Shape;
    TablesOnly(s, a.proc);
  }

  lemma {:induction false} FailedLow(s: System, a: Part, g: nat)
    requires Inv(s) && a in s.phases && a.comm in s.members && Below(s, a.comm, g) && s.phases[a].Settled?
    requires AllAnswered(s, a.comm, s.phases[a].round) && !AllAgreed(s, a.comm, s.phases[a].round)
    ensures s.phases[a].next < g
  {
    var ph := s.phases[a];
    assert RoundsOK(s, a, ph);
    assert MaxIs(s, a.comm, ph.round, ph.next);
    hide Inv, RoundsOK, MaxIs;
    var q :| q in s.members[a.comm] && !(Key(a.comm, ph.round, q) in s.answers && s.answers[Key(a.comm, ph.round, q)]);
    assert FailedBelow(s, a.comm, ph.round, g);
    var n: nat :| n < g && MaxIs(s, a.comm, ph.round, n);
    MaxUnique(s, a.comm, ph.round, n, ph.next);
  }

  /** How many steps a participant can still take, at most. */
  function Left(ph: Phase, g: nat): nat {
    match ph
    case Outside => 4 * g + 5
    case Searching(_, from, _) => if from <= g then 4 * (g - from) + 4 else 0
    case Proposed(_, id) => if id <= g then 4 * (g - id) + 3 else 0
    case Repeated(_, _) => 0
    case Trying(_, next, _) => if next <= g then 4 * (g - next) + 2 else 0
    case Settled(_, next, _, _, _) => if next <= g then 4 * (g - next) + 1 else 0
    case Finished(_, _) => 0
    case Freed(_, _) => 0
  }

  /** Contributions of other negotiations do not matter. */
  lemma {:induction false} ProposalsLow(s: System, t: System, a: Part, act: Action, c: nat, g: nat)
    requires Inv(s) && Step(s, t, a, act) && c in s.members && Below(s, c, g)
    requires a.comm == c ==> a in t.phases && Low(t.phases[a], g)
    ensures forall r: nat, q: nat :: Key(c, r, q) in t.proposals ==> t.proposals[Key(c, r, q)] <= g
  {
    StepKeys(s, t, a, act);
    hide Step, Inv;
  }

  lemma {:induction false} AnswersLow(s: System, t: System, a: Part, act: Action, c: nat, g: nat)
    requires Inv(s) && Step(s, t, a, act) && Grows(s, t) && c in s.members && Below(s, c, g)
    requires a in s.phases && (a.comm == c ==> Kept(s, c, g))
    ensures c in t.members
    ensures forall r: nat, q: nat :: Key(c, r, q) in t.answers && !t.answers[Key(c, r, q)] ==> FailedBelow(t, c, r, g)
  {
    StepKeys(s, t, a, act);
    if a.comm == c && a in t.phases && t.phases[a].Settled? && !t.phases[a].response { NoAnswer(s, t, a, act, g); }
    hide Step, Inv, Kept, MaxIs;
    forall r: nat, q: nat | Key(c, r, q) in t.answers && !t.answers[Key(c, r, q)] ensures FailedBelow(t, c, r, g) {
      if Key(c, r, q) in s.answers && !s.answers[Key(c, r, q)] {
        assert FailedBelow(s, c, r, g);
        var n: nat :| n < g && MaxIs(s, c, r, n);
        MaxStable(s, t, c, r, n);
      }
    }
  }

  /** A participant that does not agree found the slot taken, so the id was a lower one. */
  lemma {:induction false} NoAnswer(s: System, t: System, a: Part, act: Action, g: nat)
    requires Inv(s) && Step(s, t, a, act) && Grows(s, t) && a in s.phases && a in t.phases && a.comm in s.members
    requires Kept(s, a.comm, g) && Below(s, a.comm, g) && t.phases[a].Settled? && !t.phases[a].response
    ensures FailedBelow(t, a.comm, t.phases[a].round, g)
  {
    var ph := s.phases[a];
    assert RoundsOK(s, a, ph) && Low(ph, g) && a.proc in s.tables && |s.tables[a.proc]| == s.limit;
    if !HoldsAt(ph, g) { FreeHere(s, a, g); }
    if act.Settle? {
      var next := SettleNext(s, t, a);
      assert false;
    }
    assert act.Try?;
    assert MaxIs(s, a.comm, ph.round, ph.next);
    MaxStable(s, t, a.comm, ph.round, ph.next);
    hide Inv, Below, Kept, MaxIs, RoundsOK, SetSlot;
    TablesOnly(s, a.proc);
  }

  /** Every step of a run without harm keeps it. */
  lemma {:induction false} BelowKept(s: System, t: System, a: Part, act: Action, c: nat, g: nat)
    requires Inv(s) && Step(s, t, a, act) && c in s.members && Kept(s, c, g) && Below(s, c, g)
    ensures c in t.members && Below(t, c, g)
  {
    hide *;
    InvShape(s);
    StepShape(s, t, a, act);
    StepGrows(s, t, a, act);
    StepForm(s, t, a, act);
    if a.comm == c { StaysLow(s, t, a, act, g); }
    ProposalsLow(s, t, a, act, c, g);
    AnswersLow(s, t, a, act, c, g);
    BelowOf(s, t, a, c, g);
  }

  lemma {:induction false} InvShape(s: System)
    requires Inv(s)
    ensures Shape(s) && Rounds(s)
  {
    hide OwnedBy, RoundsOK, Shape;
  }

  lemma {:induction false} BelowOf(s: System, t: System, a: Part, c: nat, g: nat)
    requires c in s.members && c in t.members && Below(s, c, g) && a in t.phases
    requires a.comm == c ==> Low(t.phases[a], g)
    requires forall b :: b in s.phases <==> b in t.phases
    requires forall b :: b in s.phases && b != a ==> t.phases[b] == s.phases[b]
    requires forall r: nat, q: nat :: Key(c, r, q) in t.proposals ==> t.proposals[Key(c, r, q)] <= g
    requires forall r: nat, q: nat :: Key(c, r, q) in t.answers && !t.answers[Key(c, r, q)] ==> FailedBelow(t, c, r, g)
    ensures Below(t, c, g)
  {
    hide FailedBelow, Low;
  }

  // ----- how many steps there are -----

  /** How many steps the participants `qs` can still take, at most. */
  ghost function Total(s: System, c: nat, g: nat, qs: set<nat>): nat
    decreases |qs|
  {
    if qs == {} then 0
    else
      var q :| q in qs;
      (if Part(c, q) in s.phases then Left(s.phases[Part(c, q)], g) else 0) + Total(s, c, g, qs - {q})
  }

  ghost function LeftOf(s: System, c: nat, g: nat, q: nat): nat {
    if Part(c, q) in s.phases then Left(s.phases[Part(c, q)], g) else 0
  }

  lemma {:induction false} TotalOne(s: System, c: nat, g: nat, qs: set<nat>, q: nat)
    requires q in qs
    ensures Total(s, c, g, qs) == LeftOf(s, c, g, q) + Total(s, c, g, qs - {q})
    decreases |qs|
  {
    hide Left;
    var x :| x in qs && Total(s, c, g, qs) == LeftOf(s, c, g, x) + Total(s, c, g, qs - {x});
    if x != q {
      TotalOne(s, c, g, qs - {x}, q);
      TotalOne(s, c, g, qs - {q}, x);
      assert qs - {x} - {q} == qs - {q} - {x};
    }
  }

  lemma {:induction false} TotalSame(s: System, t: System, c: nat, g: nat, qs: set<nat>)
    requires forall q :: q in qs ==> LeftOf(t, c, g, q) == LeftOf(s, c, g, q)
    ensures Total(t, c, g, qs) == Total(s, c, g, qs)
    decreases |qs|
  {
    hide LeftOf;
    if qs != {} {
      var q :| q in qs;
      TotalOne(s, c, g, qs, q);
      TotalOne(t, c, g, qs, q);
      TotalSame(s, t, c, g, qs - {q});
    }
  }

  lemma {:induction false} TotalMost(s: System, c: nat, g: nat, qs: set<nat>)
    requires forall q :: q in qs ==> LeftOf(s, c, g, q) <= 4 * g + 5
    ensures Total(s, c, g, qs) <= |qs| * (4 * g + 5)
    decreases |qs|
  {
    hide LeftOf;
    if qs != {} {
      var q :| q in qs;
      TotalOne(s, c, g, qs, q);
      TotalMost(s, c, g, qs - {q});
      assert |qs| * (4 * g + 5) == (|qs| - 1) * (4 * g + 5) + (4 * g + 5);
    } else {
      assert |qs| * (4 * g + 5) == 0;
    }
  }

  /** The step is one of the negotiation. */
  ghost predicate Works(s: System, t: System, c: nat) {
    exists a :: a in s.phases && a in t.phases && a.comm == c && t.phases[a] != s.phases[a] && !t.phases[a].Freed?
  }

  /** How many of the first `n` steps are steps of the negotiation. */
  ghost function OwnSteps(run: seq<System>, n: nat, c: nat): nat
    requires n < |run|
  {
    if n == 0 then 0 else OwnSteps(run, n - 1, c) + if Works(run[n - 1], run[n], c) then 1 else 0
  }

  /** A step of the negotiation uses up one of the steps that were left, any other one none. */
  lemma {:induction false} StepCounts(s: System, t: System, a: Part, act: Action, c: nat, g: nat)
    requires Inv(s) && Step(s, t, a, act) && c in s.members && Kept(s, c, g) && Below(s, c, g)
    ensures c in t.members && t.members[c] == s.members[c]
    ensures Total(t, c, g, s.members[c]) + (if Works(s, t, c) then 1 else 0) <= Total(s, c, g, s.members[c])
  {
    hide *;
    InvShape(s);
    StepShape(s, t, a, act);
    StepForm(s, t, a, act);
    var qs := s.members[c];
    if a.comm == c {
      OwnPart(s, a);
      StaysLow(s, t, a, act, g);
      if act == Free_ { FreedAfter(s, t, a); }
      TotalOne(s, c, g, qs, a.proc);
      TotalOne(t, c, g, qs, a.proc);
      OthersSame(s, t, a, c, g, qs - {a.proc});
      OwnWork(s, t, a);
    } else {
      OthersSame(s, t, a, c, g, qs);
      NoWork(s, t, a, c);
    }
  }

  lemma {:induction false} OwnPart(s: System, a: Part)
    requires Shape(s) && a in s.phases
    ensures a.comm in s.members && a.proc in s.members[a.comm]
    ensures forall t: System, g: nat :: a in t.phases ==> LeftOf(t, a.comm, g, a.proc) == Left(t.phases[a], g)
  {
    hide Left;
    assert Part(a.comm, a.proc) == a;
  }

  lemma {:induction false} OthersSame(s: System, t: System, a: Part, c: nat, g: nat, qs: set<nat>)
    requires forall b :: b in s.phases <==> b in t.phases
    requires forall b :: b in s.phases && b != a ==> t.phases[b] == s.phases[b]
    requires a.comm == c ==> a.proc !in qs
    ensures Total(t, c, g, qs) == Total(s, c, g, qs)
  {
    hide Left;
    TotalSame(s, t, c, g, qs);
  }

  lemma {:induction false} OwnWork(s: System, t: System, a: Part)
    requires a in s.phases && a in t.phases && forall b :: b in s.phases <==> b in t.phases
    requires forall b :: b in s.phases && b != a ==> t.phases[b] == s.phases[b]
    ensures t.phases[a].Freed? ==> !Works(s, t, a.comm)
  {}

  lemma {:induction false} NoWork(s: System, t: System, a: Part, c: nat)
    requires a.comm != c && forall b :: b in s.phases <==> b in t.phases
    requires forall b :: b in s.phases && b != a ==> t.phases[b] == s.phases[b]
    ensures !Works(s, t, c)
  {}

  lemma {:induction false} FreedAfter(s: System, t: System, a: Part)
    requires Shape(s) && Step(s, t, a, Free_)
    ensures a in t.phases && t.phases[a].Freed?
  {}

  /** In a run without harm, with an id that is kept free for the negotiation, its own steps are bounded by the
      number of participants and that id, however many steps others take in between. */
  lemma {:induction false} StepsBounded(run: seq<System>, n: nat, c: nat, g: nat)
    requires SafeRun(run) && n < |run| && c in run[0].members
    requires forall i :: 0 <= i < n ==> c in run[i].members && Kept(run[i], c, g)
    ensures c in run[n].members && run[n].members[c] == run[0].members[c] && Below(run[n], c, g)
    ensures OwnSteps(run, n, c) + Total(run[n], c, g, run[0].members[c]) <= |run[0].members[c]| * (4 * g + 5)
    decreases n
  {
    hide *;
    if n == 0 {
      AtFirst(run, c, g);
    } else {
      StepsBounded(run, n - 1, c, g);
      RunInv(run, n - 1);
      var a, act := SafeStepOf(run, n - 1);
      BelowKept(run[n - 1], run[n], a, act, c, g);
      StepCounts(run[n - 1], run[n], a, act, c, g);
      OneMore(run, n, c);
    }
  }

  lemma {:induction false} OneMore(run: seq<System>, n: nat, c: nat)
    requires 0 < n < |run|
    ensures OwnSteps(run, n, c) == OwnSteps(run, n - 1, c) + if Works(run[n - 1], run[n], c) then 1 else 0
  {}

  lemma {:induction false} AtFirst(run: seq<System>, c: nat, g: nat)
    requires SafeRun(run) && c in run[0].members
    ensures Below(run[0], c, g) && OwnSteps(run, 0, c) == 0
    ensures Total(run[0], c, g, run[0].members[c]) <= |run[0].members[c]| * (4 * g + 5)
  {
    var s := run[0];
    assert Init(s);
    TotalMost(s, c, g, s.members[c]);
  }

  /** Everybody has an id, whether or not it was given up since. */
  ghost predicate Ended(s: System, c: nat) {
    forall a :: a in s.phases && a.comm == c ==> s.phases[a].Finished? || s.phases[a].Freed?
  }

  /** So a negotiation that everybody has entered ends: as long as it has not, it passes the gate whenever it is
      the one with the lowest id, and one of its participants can take one of the steps that are left; when none
      is possible any more, everybody has got the same id, and it is not above the one that was kept free. */
  lemma {:induction false} Ends(run: seq<System>, n: nat, ids: map<nat, nat>, c: nat, g: nat)
    requires SafeRun(run) && n < |run| && c in run[0].members && g < run[0].limit
    requires forall i :: 0 <= i < n ==> c in run[i].members && Kept(run[i], c, g)
    requires forall a :: a in run[n].phases && a.comm == c ==> !run[n].phases[a].Outside?
    ensures Shape(run[n]) && OwnSteps(run, n, c) <= |run[0].members[c]| * (4 * g + 5)
    ensures !Ended(run[n], c) && Lowest(run[n], ids, c) ==>
              exists t, a: Part, act :: a.comm == c && Passes(run[n], ids, a) && Step(run[n], t, a, act) && act != Free_
    ensures Ended(run[n], c) ==>
              forall a, b :: a in run[n].phases && b in run[n].phases && a.comm == c && b.comm == c ==>
                run[n].phases[a].cid == run[n].phases[b].cid <= g
  {
    hide *;
    StepsBounded(run, n, c, g);
    SafeIsRun(run);
    RunRounds(run, n);
    LimitKept(run, n);
    EnteredBelow(run[n], c, g);
    if !Ended(run[n], c) && Lowest(run[n], ids, c) { NextOne(run[n], ids, c); }
    if Ended(run[n], c) { SameId(run[n], c, g); }
  }

  lemma {:induction false} LimitKept(run: seq<System>, n: nat)
    requires Run(run) && n < |run|
    ensures run[n].limit == run[0].limit
    decreases n
  {
    hide *;
    if n > 0 {
      LimitKept(run, n - 1);
      var a, act := StepOf(run, n - 1);
      StepShape(run[n - 1], run[n], a, act);
    }
  }

  lemma {:induction false} EnteredBelow(s: System, c: nat, g: nat)
    requires Rounds(s) && c in s.members && Below(s, c, g) && g < s.limit
    requires forall a :: a in s.phases && a.comm == c ==> !s.phases[a].Outside?
    ensures Shape(s) && Entered(s, c)
  {
    forall a | a in s.phases && a.comm == c
      ensures s.phases[a].Searching? ==> s.phases[a].from < s.limit
    {
      assert Low(s.phases[a], g);
    }
    hide Shape, RoundsOK;
  }

  lemma {:induction false} NextOne(s: System, ids: map<nat, nat>, c: nat)
    requires Rounds(s) && Shape(s) && Entered(s, c) && Lowest(s, ids, c)
    ensures exists t, a: Part, act :: a.comm == c && Passes(s, ids, a) && Step(s, t, a, act) && act != Free_
  {
    var a :| a in s.phases && a.comm == c && Registered(s.phases[a]);
    hide Rounds, Step;
    var m := Slowest(s, a);
    var t, act := CanStep(s, m);
    NotFreed(s, t, m, act);
    assert Passes(s, ids, m);
  }

  lemma {:induction false} NotFreed(s: System, t: System, a: Part, act: Action)
    requires Shape(s) && Step(s, t, a, act) && Registered(s.phases[a])
    ensures act != Free_
  {}

  lemma {:induction false} SameId(s: System, c: nat, g: nat)
    requires Rounds(s) && c in s.members && Below(s, c, g) && Ended(s, c)
    ensures forall a, b :: a in s.phases && b in s.phases && a.comm == c && b.comm == c ==>
              (s.phases[a].Finished? || s.phases[a].Freed?) && (s.phases[b].Finished? || s.phases[b].Freed?)
              && s.phases[a].cid == s.phases[b].cid <= g
  {
    forall a, b | a in s.phases && b in s.phases && a.comm == c && b.comm == c
      ensures (s.phases[a].Finished? || s.phases[a].Freed?) && (s.phases[b].Finished? || s.phases[b].Freed?)
      ensures s.phases[a].cid == s.phases[b].cid <= g
    {
      assert Low(s.phases[b], g);
      InvAgreement(s, a, b);
    }
    hide Rounds;
  }
}
