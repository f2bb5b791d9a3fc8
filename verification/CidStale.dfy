/** A run in which a live communicator loses its context id, because a search that finds nothing proposes the
    id of an earlier round once more, which somebody else has got by then.

    Source: openmpi-1.4.2/ompi/communicator/comm_cid.c:198-224. */
module CidStale {
  import opened CidTable
  import opened CidRuns
  import opened CidProgress

  // Process 0 takes part in the negotiations 0, 1 and 2, process 1 in negotiation 0 only.  There are two ids.
  const A0: Part := Part(0, 0)
  const A1: Part := Part(0, 1)
  const B0: Part := Part(1, 0)
  const C0: Part := Part(2, 0)

  /** The phases of the four participants. */
  datatype Phases = Phases(a0: Phase, a1: Phase, b0: Phase, c0: Phase)

  function Members(): map<nat, set<nat>> {
    map[0 := {0, 1}, 1 := {0}, 2 := {0}]
  }

  function PhaseMap(x: Phases): map<Part, Phase> {
    map[A0 := x.a0, A1 := x.a1, B0 := x.b0, C0 := x.c0]
  }

  function State(p: Table, q: Table, x: Phases, proposals: map<Key, nat>, answers: map<Key, bool>): System {
    System(2, Members(), map[0 := p, 1 := q], PhaseMap(x), proposals, answers)
  }

  lemma {:induction false} Shaped(p: Table, q: Table, x: Phases, proposals: map<Key, nat>, answers: map<Key, bool>)
    requires |p| == 2 && |q| == 2
    ensures Shape(State(p, q, x, proposals, answers))
  {}

  /** What an update of a state is. */
  lemma {:induction false} Updates(p: Table, q: Table, x: Phases, m: map<Key, nat>, n: map<Key, bool>)
    requires |p| == 2 && |q| == 2
    ensures forall ph :: SetPhase(State(p, q, x, m, n), A0, ph) == State(p, q, x.(a0 := ph), m, n)
    ensures forall ph :: SetPhase(State(p, q, x, m, n), A1, ph) == State(p, q, x.(a1 := ph), m, n)
    ensures forall ph :: SetPhase(State(p, q, x, m, n), B0, ph) == State(p, q, x.(b0 := ph), m, n)
    ensures forall ph :: SetPhase(State(p, q, x, m, n), C0, ph) == State(p, q, x.(c0 := ph), m, n)
    ensures forall i, v :: 0 <= i < 2 ==> SetSlot(State(p, q, x, m, n), 0, i, v) == State(p[i := v], q, x, m, n)
    ensures forall i, v :: 0 <= i < 2 ==> SetSlot(State(p, q, x, m, n), 1, i, v) == State(p, q[i := v], x, m, n)
  {
    var s := State(p, q, x, m, n);
    forall ph ensures SetPhase(s, A0, ph) == State(p, q, x.(a0 := ph), m, n) {
      assert PhaseMap(x)[A0 := ph] == PhaseMap(x.(a0 := ph));
    }
    forall ph ensures SetPhase(s, A1, ph) == State(p, q, x.(a1 := ph), m, n) {
      assert PhaseMap(x)[A1 := ph] == PhaseMap(x.(a1 := ph));
    }
    forall ph ensures SetPhase(s, B0, ph) == State(p, q, x.(b0 := ph), m, n) {
      assert PhaseMap(x)[B0 := ph] == PhaseMap(x.(b0 := ph));
    }
    forall ph ensures SetPhase(s, C0, ph) == State(p, q, x.(c0 := ph), m, n) {
      assert PhaseMap(x)[C0 := ph] == PhaseMap(x.(c0 := ph));
    }
    forall i, v | 0 <= i < 2 ensures SetSlot(s, 0, i, v) == State(p[i := v], q, x, m, n) {
      assert s.tables[0 := p[i := v]] == map[0 := p[i := v], 1 := q];
    }
    forall i, v | 0 <= i < 2 ensures SetSlot(s, 1, i, v) == State(p, q[i := v], x, m, n) {
      assert s.tables[1 := q[i := v]] == map[0 := p, 1 := q[i := v]];
    }
  }

  // ----- one step at a time -----

  /** Process 0 in negotiation 0, process 1 in negotiation 0, and process 0 in the other two. */
  datatype Who = WhoA0 | WhoA1 | WhoB0 | WhoC0

  function PartOf(w: Who): Part {
    match w
    case WhoA0 => A0
    case WhoA1 => A1
    case WhoB0 => B0
    case WhoC0 => C0
  }

  function With(x: Phases, w: Who, ph: Phase): Phases {
    match w
    case WhoA0 => x.(a0 := ph)
    case WhoA1 => x.(a1 := ph)
    case WhoB0 => x.(b0 := ph)
    case WhoC0 => x.(c0 := ph)
  }

  function PhaseOf(x: Phases, w: Who): Phase {
    match w
    case WhoA0 => x.a0
    case WhoA1 => x.a1
    case WhoB0 => x.b0
    case WhoC0 => x.c0
  }

  /** A state in short form. */
  datatype Short = Short(p: Table, q: Table, x: Phases, proposals: map<Key, nat>, answers: map<Key, bool>)

  function Long(h: Short): System {
    State(h.p, h.q, h.x, h.proposals, h.answers)
  }

  function TableOf(h: Short, w: Who): Table {
    if w == WhoA1 then h.q else h.p
  }

  function Put(h: Short, w: Who, i: nat, v: Slot): Short
    requires i < |TableOf(h, w)|
  {
    if w == WhoA1 then h.(q := h.q[i := v]) else h.(p := h.p[i := v])
  }

  function Go(h: Short, w: Who, ph: Phase): Short {
    h.(x := With(h.x, w, ph))
  }

  predicate Sized(h: Short) {
    |h.p| == 2 && |h.q| == 2
  }

  lemma {:induction false} LongIs(h: Short, w: Who)
    requires Sized(h)
    ensures Shape(Long(h)) && PartOf(w) in Long(h).phases && Long(h).phases[PartOf(w)] == PhaseOf(h.x, w)
    ensures PartOf(w).proc in Long(h).tables && Long(h).tables[PartOf(w).proc] == TableOf(h, w)
    ensures PartOf(w).comm in Long(h).members && Long(h).limit == 2
    ensures forall ph :: SetPhase(Long(h), PartOf(w), ph) == Long(Go(h, w, ph))
    ensures forall i, v :: 0 <= i < 2 ==> SetSlot(Long(h), PartOf(w).proc, i, v) == Long(Put(h, w, i, v))
    ensures |TableOf(h, w)| == 2 && Long(h).proposals == h.proposals && Long(h).answers == h.answers
    ensures forall m :: Long(h.(proposals := m)) == Long(h).(proposals := m)
    ensures forall m :: Long(h.(answers := m)) == Long(h).(answers := m)
  {
    Shaped(h.p, h.q, h.x, h.proposals, h.answers);
    Updates(h.p, h.q, h.x, h.proposals, h.answers);
    hide Shape, SetPhase, SetSlot;
  }

  ghost predicate Steps(h: Short, g: Short, w: Who, act: Action) {
    Shape(Long(h)) && Step(Long(h), Long(g), PartOf(w), act)
  }

  ghost predicate Greatest(h: Short, w: Who, round: nat, next: nat) {
    PartOf(w).comm in Long(h).members && MaxIs(Long(h), PartOf(w).comm, round, next)
  }

  /** All participants have answered, and all of them agreed if `yes` holds and not all if it does not. */
  ghost predicate Answers(h: Short, w: Who, round: nat, yes: bool) {
    && PartOf(w).comm in Long(h).members && AllAnswered(Long(h), PartOf(w).comm, round)
    && AllAgreed(Long(h), PartOf(w).comm, round) == yes
  }

  function KeyOf(w: Who, round: nat): Key {
    Key(PartOf(w).comm, round, PartOf(w).proc)
  }

  lemma {:induction false} BeginStep(h: Short, w: Who)
    requires Sized(h) && PhaseOf(h.x, w).Outside?
    ensures Steps(h, Go(h, w, Searching(0, LeastFree(TableOf(h, w), 0), Unset)), w, Begin)
  {
    LongIs(h, w);
    hide Long, SetPhase, Shape, LeastFree, TableOf, PhaseOf, Go, PartOf;
  }

  lemma {:induction false} ProbeStep(h: Short, w: Who)
    requires Sized(h) && PhaseOf(h.x, w).Searching? && PhaseOf(h.x, w).from < 2 && |TableOf(h, w)| == 2
    requires TableOf(h, w)[PhaseOf(h.x, w).from] == Free
    ensures var ph := PhaseOf(h.x, w);
            var u := Go(Put(h, w, ph.from, Held(PartOf(w).comm)), w, Proposed(ph.round, ph.from));
            Steps(h, u.(proposals := h.proposals[KeyOf(w, ph.round) := ph.from]), w, Probe)
  {
    var ph := PhaseOf(h.x, w);
    var put := Put(h, w, ph.from, Held(PartOf(w).comm));
    var u := Go(put, w, Proposed(ph.round, ph.from));
    LongIs(h, w);
    LongIs(put, w);
    LongIs(u, w);
    hide SetPhase, SetSlot, Shape, TableOf, PhaseOf, PartOf, Long, Go, Put;
  }

  lemma {:induction false} RepeatStep(h: Short, w: Who)
    requires Sized(h) && PhaseOf(h.x, w).Searching? && PhaseOf(h.x, w).from >= 2 && PhaseOf(h.x, w).tried.Was?
    ensures var ph := PhaseOf(h.x, w);
            var u := Go(h, w, Repeated(ph.round, ph.tried.id));
            Steps(h, u.(proposals := h.proposals[KeyOf(w, ph.round) := ph.tried.id]), w, Repeat)
  {
    var ph := PhaseOf(h.x, w);
    LongIs(h, w);
    LongIs(Go(h, w, Repeated(ph.round, ph.tried.id)), w);
    hide SetPhase, SetSlot, Shape, TableOf, PhaseOf, PartOf, Long, Go;
  }

  /** The proposal is the maximum. */
  lemma {:induction false} FineStep(h: Short, w: Who)
    requires Sized(h) && (PhaseOf(h.x, w).Proposed? || PhaseOf(h.x, w).Repeated?) && PhaseOf(h.x, w).id < 2
    requires Greatest(h, w, PhaseOf(h.x, w).round, PhaseOf(h.x, w).id)
    ensures var ph := PhaseOf(h.x, w);
            var u := Go(h, w, Settled(ph.round, ph.id, true, ph.Proposed?, ph.id));
            Steps(h, u.(answers := h.answers[KeyOf(w, ph.round) := true]), w, Settle)
  {
    var ph := PhaseOf(h.x, w);
    LongIs(h, w);
    LongIs(Go(h, w, Settled(ph.round, ph.id, true, ph.Proposed?, ph.id)), w);
    hide SetPhase, SetSlot, Shape, TableOf, PhaseOf, MaxIs, PartOf, Long, Go;
  }

  /** The maximum is another id. */
  lemma {:induction false} OtherStep(h: Short, w: Who, next: nat)
    requires Sized(h) && (PhaseOf(h.x, w).Proposed? || PhaseOf(h.x, w).Repeated?) && PhaseOf(h.x, w).id < 2
    requires Greatest(h, w, PhaseOf(h.x, w).round, next) && next != PhaseOf(h.x, w).id && |TableOf(h, w)| == 2
    ensures var ph := PhaseOf(h.x, w);
            Steps(h, Go(Put(h, w, ph.id, Free), w, Trying(ph.round, next, ph.id)), w, Settle)
  {
    var ph := PhaseOf(h.x, w);
    LongIs(h, w);
    LongIs(Put(h, w, ph.id, Free), w);
    hide SetPhase, SetSlot, Shape, TableOf, PhaseOf, MaxIs, PartOf, Long, Go, Put;
  }

  /** The other id is taken here. */
  lemma {:induction false} TakenStep(h: Short, w: Who)
    requires Sized(h) && PhaseOf(h.x, w).Trying? && PhaseOf(h.x, w).next < 2 && |TableOf(h, w)| == 2
    requires TableOf(h, w)[PhaseOf(h.x, w).next] != Free
    ensures var ph := PhaseOf(h.x, w);
            var u := Go(h, w, Settled(ph.round, ph.next, false, false, ph.last));
            Steps(h, u.(answers := h.answers[KeyOf(w, ph.round) := false]), w, Try)
  {
    var ph := PhaseOf(h.x, w);
    LongIs(h, w);
    LongIs(Go(h, w, Settled(ph.round, ph.next, false, false, ph.last)), w);
    hide SetPhase, SetSlot, Shape, TableOf, PhaseOf, PartOf, Long, Go;
  }

  /** Everybody agreed. */
  lemma {:induction false} FinishStep(h: Short, w: Who)
    requires Sized(h) && PhaseOf(h.x, w).Settled? && PhaseOf(h.x, w).next < 2 && |TableOf(h, w)| == 2
    requires Answers(h, w, PhaseOf(h.x, w).round, true)
    ensures var ph := PhaseOf(h.x, w);
            Steps(h, Go(Put(h, w, ph.next, Live(PartOf(w).comm)), w, Finished(ph.round, ph.next)), w, Decide)
  {
    var ph := PhaseOf(h.x, w);
    LongIs(h, w);
    LongIs(Put(h, w, ph.next, Live(PartOf(w).comm)), w);
    hide SetPhase, SetSlot, Shape, TableOf, PhaseOf, AllAgreed, AllAnswered, PartOf, Long, Go, Put;
  }

  /** Somebody did not agree, but this process did. */
  lemma {:induction false} AgainStep(h: Short, w: Who)
    requires Sized(h) && PhaseOf(h.x, w).Settled? && PhaseOf(h.x, w).next < 2 && |TableOf(h, w)| == 2
    requires Answers(h, w, PhaseOf(h.x, w).round, false) && PhaseOf(h.x, w).response
    ensures var ph := PhaseOf(h.x, w);
            Steps(h, Go(Put(h, w, ph.next, Free), w, Searching(ph.round + 1, ph.next + 1, Was(ph.last))), w, Decide)
  {
    hide *;
    var ph := PhaseOf(h.x, w);
    LongIs(h, w);
    AnswersAre(h, w, ph.round, false);
    GivenUp(Long(h), PartOf(w));
    GoPut(h, w, ph.next, Free, Searching(ph.round + 1, ph.next + 1, Was(ph.last)));
    StepsAre(h, Go(Put(h, w, ph.next, Free), w, Searching(ph.round + 1, ph.next + 1, Was(ph.last))), w, Decide);
  }

  lemma {:induction false} AnswersAre(h: Short, w: Who, round: nat, yes: bool)
    requires Answers(h, w, round, yes)
    ensures PartOf(w).comm in Long(h).members && AllAnswered(Long(h), PartOf(w).comm, round)
    ensures AllAgreed(Long(h), PartOf(w).comm, round) == yes
  {
    hide AllAnswered, AllAgreed, Long, PartOf;
  }

  lemma {:induction false} StepsAre(h: Short, g: Short, w: Who, act: Action)
    requires Shape(Long(h)) && Step(Long(h), Long(g), PartOf(w), act)
    ensures Steps(h, g, w, act)
  {
    hide Step, Shape, Long, PartOf;
  }

  lemma {:induction false} GoPut(h: Short, w: Who, i: nat, v: Slot, ph: Phase)
    requires Sized(h) && i < 2
    ensures i < |TableOf(h, w)| && PartOf(w).proc in Long(h).tables && i < |Long(h).tables[PartOf(w).proc]|
    ensures SetPhase(SetSlot(Long(h), PartOf(w).proc, i, v), PartOf(w), ph) == Long(Go(Put(h, w, i, v), w, ph))
  {
    LongIs(h, w);
    LongIs(Put(h, w, i, v), w);
    hide SetPhase, SetSlot, Shape, TableOf, PhaseOf, PartOf, Long, Go, Put;
  }

  lemma {:induction false} GivenUp(s: System, a: Part)
    requires Shape(s) && a in s.phases && s.phases[a].Settled? && s.phases[a].next < s.limit && s.phases[a].response
    requires a.comm in s.members && AllAnswered(s, a.comm, s.phases[a].round)
    requires !AllAgreed(s, a.comm, s.phases[a].round)
    ensures a.proc in s.tables && s.phases[a].next < |s.tables[a.proc]|
    ensures var ph := s.phases[a];
            Step(s, SetPhase(SetSlot(s, a.proc, ph.next, Free), a, Searching(ph.round + 1, ph.next + 1, Was(ph.last))),
                 a, Decide)
  {
    hide SetPhase, SetSlot, AllAgreed, AllAnswered;
  }

  /** Somebody did not agree, and neither did this process. */
  lemma {:induction false} MoreStep(h: Short, w: Who)
    requires Sized(h) && PhaseOf(h.x, w).Settled? && PhaseOf(h.x, w).next < 2
    requires Answers(h, w, PhaseOf(h.x, w).round, false) && !PhaseOf(h.x, w).response
    ensures var ph := PhaseOf(h.x, w);
            Steps(h, Go(h, w, Searching(ph.round + 1, ph.next + 1, Was(ph.last))), w, Decide)
  {
    hide *;
    var ph := PhaseOf(h.x, w);
    LongIs(h, w);
    AnswersAre(h, w, ph.round, false);
    NothingGivenUp(Long(h), PartOf(w));
    StepsAre(h, Go(h, w, Searching(ph.round + 1, ph.next + 1, Was(ph.last))), w, Decide);
  }

  lemma {:induction false} NothingGivenUp(s: System, a: Part)
    requires Shape(s) && a in s.phases && s.phases[a].Settled? && s.phases[a].next < s.limit && !s.phases[a].response
    requires a.comm in s.members && AllAnswered(s, a.comm, s.phases[a].round)
    requires !AllAgreed(s, a.comm, s.phases[a].round)
    ensures var ph := s.phases[a];
            Step(s, SetPhase(s, a, Searching(ph.round + 1, ph.next + 1, Was(ph.last))), a, Decide)
  {
    hide SetPhase, SetSlot, AllAgreed, AllAnswered;
  }

  // ----- the run -----

  function P0(): map<Key, nat> { map[] }
  function P1(): map<Key, nat> { P0()[Key(0, 0, 0) := 0] }
  function P2(): map<Key, nat> { P1()[Key(0, 0, 1) := 1] }
  function P3(): map<Key, nat> { P2()[Key(1, 0, 0) := 0] }
  function P4(): map<Key, nat> { P3()[Key(0, 1, 0) := 0] }
  function P5(): map<Key, nat> { P4()[Key(0, 1, 1) := 1] }
  function P6(): map<Key, nat> { P5()[Key(2, 0, 0) := 0] }

  function N0(): map<Key, bool> { map[] }
  function N1(): map<Key, bool> { N0()[Key(0, 0, 1) := true] }
  function N2(): map<Key, bool> { N1()[Key(0, 0, 0) := false] }
  function N3(): map<Key, bool> { N2()[Key(1, 0, 0) := true] }
  function N4(): map<Key, bool> { N3()[Key(2, 0, 0) := true] }

  // Id 0 is free at process 0 only, id 1 at process 1 only, so negotiation 0 fails in its first round and both
  // search from the end of the table.  Then negotiation 1 gets id 0 at process 0.  In negotiation 0 process 0
  // proposes 0 once more and process 1 proposes 1; process 0 clears slot 0, and negotiation 2 gets it.

  function H0(): Short {
    Short([Free, Live(7)], [Live(8), Free],
          Phases(Outside, Outside, Outside, Outside),
          P0(), N0())
  }

  function H1(): Short {
    Short([Free, Live(7)], [Live(8), Free],
          Phases(Searching(0, 0, Unset), Outside, Outside, Outside),
          P0(), N0())
  }

  function H2(): Short {
    Short([Free, Live(7)], [Live(8), Free],
          Phases(Searching(0, 0, Unset), Searching(0, 1, Unset), Outside, Outside),
          P0(), N0())
  }

  function H3(): Short {
    Short([Held(0), Live(7)], [Live(8), Free],
          Phases(Proposed(0, 0), Searching(0, 1, Unset), Outside, Outside),
          P1(), N0())
  }

  function H4(): Short {
    Short([Held(0), Live(7)], [Live(8), Held(0)],
          Phases(Proposed(0, 0), Proposed(0, 1), Outside, Outside),
          P2(), N0())
  }

  function H5(): Short {
    Short([Free, Live(7)], [Live(8), Held(0)],
          Phases(Trying(0, 1, 0), Proposed(0, 1), Outside, Outside),
          P2(), N0())
  }

  function H6(): Short {
    Short([Free, Live(7)], [Live(8), Held(0)],
          Phases(Trying(0, 1, 0), Settled(0, 1, true, true, 1), Outside, Outside),
          P2(), N1())
  }

  function H7(): Short {
    Short([Free, Live(7)], [Live(8), Held(0)],
          Phases(Settled(0, 1, false, false, 0), Settled(0, 1, true, true, 1), Outside, Outside),
          P2(), N2())
  }

  function H8(): Short {
    Short([Free, Live(7)], [Live(8), Held(0)],
          Phases(Searching(1, 2, Was(0)), Settled(0, 1, true, true, 1), Outside, Outside),
          P2(), N2())
  }

  function H9(): Short {
    Short([Free, Live(7)], [Live(8), Free],
          Phases(Searching(1, 2, Was(0)), Searching(1, 2, Was(1)), Outside, Outside),
          P2(), N2())
  }

  function H10(): Short {
    Short([Free, Live(7)], [Live(8), Free],
          Phases(Searching(1, 2, Was(0)), Searching(1, 2, Was(1)), Searching(0, 0, Unset), Outside),
          P2(), N2())
  }

  function H11(): Short {
    Short([Held(1), Live(7)], [Live(8), Free],
          Phases(Searching(1, 2, Was(0)), Searching(1, 2, Was(1)), Proposed(0, 0), Outside),
          P3(), N2())
  }

  function H12(): Short {
    Short([Held(1), Live(7)], [Live(8), Free],
          Phases(Searching(1, 2, Was(0)), Searching(1, 2, Was(1)), Settled(0, 0, true, true, 0), Outside),
          P3(), N3())
  }

  function H13(): Short {
    Short([Live(1), Live(7)], [Live(8), Free],
          Phases(Searching(1, 2, Was(0)), Searching(1, 2, Was(1)), Finished(0, 0), Outside),
          P3(), N3())
  }

  function H14(): Short {
    Short([Live(1), Live(7)], [Live(8), Free],
          Phases(Repeated(1, 0), Searching(1, 2, Was(1)), Finished(0, 0), Outside),
          P4(), N3())
  }

  function H15(): Short {
    Short([Live(1), Live(7)], [Live(8), Free],
          Phases(Repeated(1, 0), Repeated(1, 1), Finished(0, 0), Outside),
          P5(), N3())
  }

  function H16(): Short {
    Short([Free, Live(7)], [Live(8), Free],
          Phases(Trying(1, 1, 0), Repeated(1, 1), Finished(0, 0), Outside),
          P5(), N3())
  }

  function H17(): Short {
    Short([Free, Live(7)], [Live(8), Free],
          Phases(Trying(1, 1, 0), Repeated(1, 1), Finished(0, 0), Searching(0, 0, Unset)),
          P5(), N3())
  }

  function H18(): Short {
    Short([Held(2), Live(7)], [Live(8), Free],
          Phases(Trying(1, 1, 0), Repeated(1, 1), Finished(0, 0), Proposed(0, 0)),
          P6(), N3())
  }

  function H19(): Short {
    Short([Held(2), Live(7)], [Live(8), Free],
          Phases(Trying(1, 1, 0), Repeated(1, 1), Finished(0, 0), Settled(0, 0, true, true, 0)),
          P6(), N4())
  }

  function H20(): Short {
    Short([Live(2), Live(7)], [Live(8), Free],
          Phases(Trying(1, 1, 0), Repeated(1, 1), Finished(0, 0), Finished(0, 0)),
          P6(), N4())
  }

  /** The ids by which the gate decides: the two negotiations that come in between have lower ones. */
  function Ids(): map<nat, nat> {
    map[0 := 2, 1 := 0, 2 := 1]
  }

  lemma {:induction false} PassesAt(h: Short, w: Who)
    requires forall v :: PartOf(v).proc == PartOf(w).proc && Registered(PhaseOf(h.x, v)) ==>
               Ids()[PartOf(w).comm] <= Ids()[PartOf(v).comm]
    ensures Passes(Long(h), Ids(), PartOf(w))
  {
    forall b | b in Long(h).phases && b.proc == PartOf(w).proc && Registered(Long(h).phases[b])
      ensures b.comm in Ids() && Ids()[PartOf(w).comm] <= Ids()[b.comm]
    {
      var v := if b == A0 then WhoA0 else if b == A1 then WhoA1 else if b == B0 then WhoB0 else WhoC0;
      assert PartOf(v) == b && Long(h).phases[b] == PhaseOf(h.x, v);
    }
  }

  lemma {:induction false} IsNext(h: Short, g: Short, w: Who, act: Action)
    requires Steps(h, g, w, act) && (act.Probe? || act.Repeat? ==> Passes(Long(h), Ids(), PartOf(w)))
    ensures Next(Long(h), Long(g)) && GatedNext(Long(h), Long(g), Ids())
  {
    hide Step, Long, Shape, PartOf, Passes, Ids;
  }

  // What the reductions see.

  lemma {:induction false} Max0(h: Short)
    requires h.proposals == P2()
    ensures Greatest(h, WhoA0, 0, 1) && Greatest(h, WhoA1, 0, 1)
  {
    var s := Long(h);
    assert s.members[0] == {0, 1} && Key(0, 0, 1) in s.proposals && s.proposals[Key(0, 0, 1)] == 1 && 1 in s.members[0];
  }

  lemma {:induction false} Max1(h: Short)
    requires h.proposals == P5()
    ensures Greatest(h, WhoA0, 1, 1) && Greatest(h, WhoA1, 1, 1)
  {
    var s := Long(h);
    assert s.members[0] == {0, 1} && Key(0, 1, 1) in s.proposals && s.proposals[Key(0, 1, 1)] == 1 && 1 in s.members[0];
  }

  lemma {:induction false} Max2(h: Short)
    requires h.proposals == P3()
    ensures Greatest(h, WhoB0, 0, 0)
  {
    var s := Long(h);
    assert s.members[1] == {0} && Key(1, 0, 0) in s.proposals && s.proposals[Key(1, 0, 0)] == 0 && 0 in s.members[1];
  }

  lemma {:induction false} Max3(h: Short)
    requires h.proposals == P6()
    ensures Greatest(h, WhoC0, 0, 0)
  {
    var s := Long(h);
    assert s.members[2] == {0} && Key(2, 0, 0) in s.proposals && s.proposals[Key(2, 0, 0)] == 0 && 0 in s.members[2];
  }

  lemma {:induction false} NotAll(h: Short)
    requires h.answers == N2()
    ensures Answers(h, WhoA0, 0, false) && Answers(h, WhoA1, 0, false)
  {
    var s := Long(h);
    assert s.members[0] == {0, 1} && 0 in s.members[0] && !s.answers[Key(0, 0, 0)];
  }

  lemma {:induction false} All(h: Short, w: Who)
    requires (w == WhoB0 && h.answers == N3()) || (w == WhoC0 && h.answers == N4())
    ensures Answers(h, w, 0, true)
  {
    var s := Long(h);
    assert s.members[PartOf(w).comm] == {0};
  }

  lemma {:induction false} S0()
    ensures Next(Long(H0()), Long(H1())) && GatedNext(Long(H0()), Long(H1()), Ids())
  {
    hide Steps, Greatest, Answers, Long, Passes, Next, GatedNext;
    BeginStep(H0(), WhoA0);
    IsNext(H0(), H1(), WhoA0, Begin);
  }

  lemma {:induction false} S1()
    ensures Next(Long(H1()), Long(H2())) && GatedNext(Long(H1()), Long(H2()), Ids())
  {
    hide Steps, Greatest, Answers, Long, Passes, Next, GatedNext;
    BeginStep(H1(), WhoA1);
    IsNext(H1(), H2(), WhoA1, Begin);
  }

  lemma {:induction false} S2()
    ensures Next(Long(H2()), Long(H3())) && GatedNext(Long(H2()), Long(H3()), Ids())
  {
    hide Steps, Greatest, Answers, Long, Passes, Next, GatedNext;
    ProbeStep(H2(), WhoA0);
    assert Put(H2(), WhoA0, 0, Held(0)).p == H3().p;
    PassesAt(H2(), WhoA0);
    IsNext(H2(), H3(), WhoA0, Probe);
  }

  lemma {:induction false} S3()
    ensures Next(Long(H3()), Long(H4())) && GatedNext(Long(H3()), Long(H4()), Ids())
  {
    hide Steps, Greatest, Answers, Long, Passes, Next, GatedNext;
    ProbeStep(H3(), WhoA1);
    assert Put(H3(), WhoA1, 1, Held(0)).q == H4().q;
    PassesAt(H3(), WhoA1);
    IsNext(H3(), H4(), WhoA1, Probe);
  }

  lemma {:induction false} S4()
    ensures Next(Long(H4()), Long(H5())) && GatedNext(Long(H4()), Long(H5()), Ids())
  {
    hide Steps, Greatest, Answers, Long, Passes, Next, GatedNext;
    Max0(H4());
    OtherStep(H4(), WhoA0, 1);
    assert Put(H4(), WhoA0, 0, Free).p == H5().p;
    IsNext(H4(), H5(), WhoA0, Settle);
  }

  lemma {:induction false} S5()
    ensures Next(Long(H5()), Long(H6())) && GatedNext(Long(H5()), Long(H6()), Ids())
  {
    hide Steps, Greatest, Answers, Long, Passes, Next, GatedNext;
    Max0(H5());
    FineStep(H5(), WhoA1);
    IsNext(H5(), H6(), WhoA1, Settle);
  }

  lemma {:induction false} S6()
    ensures Next(Long(H6()), Long(H7())) && GatedNext(Long(H6()), Long(H7()), Ids())
  {
    hide Steps, Greatest, Answers, Long, Passes, Next, GatedNext;
    TakenStep(H6(), WhoA0);
    IsNext(H6(), H7(), WhoA0, Try);
  }

  lemma {:induction false} S7()
    ensures Next(Long(H7()), Long(H8())) && GatedNext(Long(H7()), Long(H8()), Ids())
  {
    hide Steps, Greatest, Answers, Long, Passes, Next, GatedNext;
    NotAll(H7());
    MoreStep(H7(), WhoA0);
    IsNext(H7(), H8(), WhoA0, Decide);
  }

  lemma {:induction false} S8()
    ensures Next(Long(H8()), Long(H9())) && GatedNext(Long(H8()), Long(H9()), Ids())
  {
    hide Steps, Greatest, Answers, Long, Passes, Next, GatedNext;
    NotAll(H8());
    AgainStep(H8(), WhoA1);
    assert Put(H8(), WhoA1, 1, Free).q == H9().q;
    IsNext(H8(), H9(), WhoA1, Decide);
  }

  lemma {:induction false} S9()
    ensures Next(Long(H9()), Long(H10())) && GatedNext(Long(H9()), Long(H10()), Ids())
  {
    hide Steps, Greatest, Answers, Long, Passes, Next, GatedNext;
    BeginStep(H9(), WhoB0);
    IsNext(H9(), H10(), WhoB0, Begin);
  }

  lemma {:induction false} S10()
    ensures Next(Long(H10()), Long(H11())) && GatedNext(Long(H10()), Long(H11()), Ids())
  {
    hide Steps, Greatest, Answers, Long, Passes, Next, GatedNext;
    ProbeStep(H10(), WhoB0);
    assert Put(H10(), WhoB0, 0, Held(1)).p == H11().p;
    PassesAt(H10(), WhoB0);
    IsNext(H10(), H11(), WhoB0, Probe);
  }

  lemma {:induction false} S11()
    ensures Next(Long(H11()), Long(H12())) && GatedNext(Long(H11()), Long(H12()), Ids())
  {
    hide Steps, Greatest, Answers, Long, Passes, Next, GatedNext;
    Max2(H11());
    FineStep(H11(), WhoB0);
    IsNext(H11(), H12(), WhoB0, Settle);
  }

  lemma {:induction false} S12()
    ensures Next(Long(H12()), Long(H13())) && GatedNext(Long(H12()), Long(H13()), Ids())
  {
    hide Steps, Greatest, Answers, Long, Passes, Next, GatedNext;
    All(H12(), WhoB0);
    FinishStep(H12(), WhoB0);
    assert Put(H12(), WhoB0, 0, Live(1)).p == H13().p;
    IsNext(H12(), H13(), WhoB0, Decide);
  }

  lemma {:induction false} S13()
    ensures Next(Long(H13()), Long(H14())) && GatedNext(Long(H13()), Long(H14()), Ids())
  {
    hide Steps, Greatest, Answers, Long, Passes, Next, GatedNext;
    RepeatStep(H13(), WhoA0);
    PassesAt(H13(), WhoA0);
    IsNext(H13(), H14(), WhoA0, Repeat);
  }

  lemma {:induction false} S14()
    ensures Next(Long(H14()), Long(H15())) && GatedNext(Long(H14()), Long(H15()), Ids())
  {
    hide Steps, Greatest, Answers, Long, Passes, Next, GatedNext;
    RepeatStep(H14(), WhoA1);
    PassesAt(H14(), WhoA1);
    IsNext(H14(), H15(), WhoA1, Repeat);
  }

  lemma {:induction false} S15()
    ensures Next(Long(H15()), Long(H16())) && GatedNext(Long(H15()), Long(H16()), Ids())
    ensures Steps(H15(), H16(), WhoA0, Settle)
  {
    hide Steps, Greatest, Answers, Long, Passes, Next, GatedNext;
    Max1(H15());
    OtherStep(H15(), WhoA0, 1);
    assert Put(H15(), WhoA0, 0, Free).p == H16().p;
    IsNext(H15(), H16(), WhoA0, Settle);
  }

  lemma {:induction false} S16()
    ensures Next(Long(H16()), Long(H17())) && GatedNext(Long(H16()), Long(H17()), Ids())
  {
    hide Steps, Greatest, Answers, Long, Passes, Next, GatedNext;
    BeginStep(H16(), WhoC0);
    IsNext(H16(), H17(), WhoC0, Begin);
  }

  lemma {:induction false} S17()
    ensures Next(Long(H17()), Long(H18())) && GatedNext(Long(H17()), Long(H18()), Ids())
  {
    hide Steps, Greatest, Answers, Long, Passes, Next, GatedNext;
    ProbeStep(H17(), WhoC0);
    assert Put(H17(), WhoC0, 0, Held(2)).p == H18().p;
    PassesAt(H17(), WhoC0);
    IsNext(H17(), H18(), WhoC0, Probe);
  }

  lemma {:induction false} S18()
    ensures Next(Long(H18()), Long(H19())) && GatedNext(Long(H18()), Long(H19()), Ids())
  {
    hide Steps, Greatest, Answers, Long, Passes, Next, GatedNext;
    Max3(H18());
    FineStep(H18(), WhoC0);
    IsNext(H18(), H19(), WhoC0, Settle);
  }

  lemma {:induction false} S19()
    ensures Next(Long(H19()), Long(H20())) && GatedNext(Long(H19()), Long(H20()), Ids())
  {
    hide Steps, Greatest, Answers, Long, Passes, Next, GatedNext;
    All(H19(), WhoC0);
    FinishStep(H19(), WhoC0);
    assert Put(H19(), WhoC0, 0, Live(2)).p == H20().p;
    IsNext(H19(), H20(), WhoC0, Decide);
  }

  lemma {:induction false} Started()
    ensures Init(Long(H0()))
  {
    LongIs(H0(), WhoA0);
    hide Shape;
    assert forall a :: a in Long(H0()).phases ==> Long(H0()).phases[a] == Outside;
  }

  lemma {:induction false} Harmed()
    ensures Shape(Long(H15())) && Step(Long(H15()), Long(H16()), A0, Settle) && Harmful(Long(H15()), A0, Settle)
    ensures Disturbs(Long(H15()), Long(H16()), A0)
  {
    S15();
    hide Step, Shape, MaxIs, Long;
    LongIs(H15(), WhoA0);
    LongIs(H16(), WhoA0);
    NotTheMaximum();
    assert H15().p[0] == Live(1) && H16().p[0] == Free;
    Taken(Long(H15()), Long(H16()));
  }

  lemma {:induction false} Taken(s: System, t: System)
    requires 0 in s.tables && 0 in t.tables && |s.tables[0]| == |t.tables[0]| == 2
    requires s.tables[0][0] == Live(1) && t.tables[0][0] == Free
    ensures Disturbs(s, t, A0)
  {}

  lemma {:induction false} NotTheMaximum()
    ensures !MaxIs(Long(H15()), 0, 1, 0)
  {
    var s := Long(H15());
    assert s.members[0] == {0, 1} && 1 in s.members[0] && s.proposals[Key(0, 1, 1)] == 1;
  }

  lemma {:induction false} Lost()
    ensures !Uniqueness(Long(H16())) && !Uniqueness(Long(H20()))
    ensures B0 in Long(H20()).phases && C0 in Long(H20()).phases
    ensures Long(H20()).phases[B0] == Long(H20()).phases[C0] == Finished(0, 0)
  {
    var s, t := Long(H16()), Long(H20());
    assert B0 in s.phases && s.phases[B0] == Finished(0, 0) && s.tables[0][0] == Free;
    assert B0 in t.phases && C0 in t.phases && t.phases[B0] == t.phases[C0] == Finished(0, 0);
    assert B0.proc == C0.proc && B0 != C0;
  }

  /** The states of the run. */
  function Story(): seq<System> {
    [Long(H0()), Long(H1()), Long(H2()), Long(H3()), Long(H4()), Long(H5()), Long(H6()),
     Long(H7()), Long(H8()), Long(H9()), Long(H10()), Long(H11()), Long(H12()), Long(H13()),
     Long(H14()), Long(H15()), Long(H16()), Long(H17()), Long(H18()), Long(H19()), Long(H20())]
  }

  lemma {:induction false} Told(i: nat)
    requires i < 20
    ensures |Story()| == 21 && Next(Story()[i], Story()[i + 1]) && GatedNext(Story()[i], Story()[i + 1], Ids())
  {
    hide *;
    if i < 7 {
      Told1(i);
    } else if i < 14 {
      Told2(i);
    } else {
      Told3(i);
    }
  }

  lemma {:induction false} Told1(i: nat)
    requires 0 <= i < 7
    ensures |Story()| == 21 && Next(Story()[i], Story()[i + 1]) && GatedNext(Story()[i], Story()[i + 1], Ids())
  {
    hide Next, GatedNext, Long;
    match i
    case 0 => S0();
    case 1 => S1();
    case 2 => S2();
    case 3 => S3();
    case 4 => S4();
    case 5 => S5();
    case 6 => S6();
  }

  lemma {:induction false} Told2(i: nat)
    requires 7 <= i < 14
    ensures |Story()| == 21 && Next(Story()[i], Story()[i + 1]) && GatedNext(Story()[i], Story()[i + 1], Ids())
  {
    hide Next, GatedNext, Long;
    match i
    case 7 => S7();
    case 8 => S8();
    case 9 => S9();
    case 10 => S10();
    case 11 => S11();
    case 12 => S12();
    case 13 => S13();
  }

  lemma {:induction false} Told3(i: nat)
    requires 14 <= i < 20
    ensures |Story()| == 21 && Next(Story()[i], Story()[i + 1]) && GatedNext(Story()[i], Story()[i + 1], Ids())
  {
    hide Next, GatedNext, Long;
    match i
    case 14 => S14();
    case 15 => S15();
    case 16 => S16();
    case 17 => S17();
    case 18 => S18();
    case 19 => S19();
  }

  /** In the last state two live communicators of process 0 have id 0; negotiation 1 lost it in the step that
      process 0 took in negotiation 0.  Every search went through the gate. */
  lemma {:induction false} LostId() returns (run: seq<System>)
    ensures Run(run) && |run| == 21 && Shape(run[15])
    ensures forall i :: 0 <= i < 20 ==> GatedNext(run[i], run[i + 1], Ids())
    ensures Step(run[15], run[16], A0, Settle) && Harmful(run[15], A0, Settle) && Disturbs(run[15], run[16], A0)
    ensures !Uniqueness(run[16]) && !Uniqueness(run[20])
    ensures B0 in run[20].phases && C0 in run[20].phases
    ensures run[20].phases[B0] == run[20].phases[C0] == Finished(0, 0)
  {
    run := Story();
    Started();
    Harmed();
    Lost();
    hide Next, GatedNext, Long, Init, Step, Harmful, Disturbs, Uniqueness, Shape;
    assert run[0] == Long(H0()) && run[15] == Long(H15()) && run[16] == Long(H16()) && run[20] == Long(H20());
    forall i | 0 <= i < |run| - 1 ensures Next(run[i], run[i + 1]) && GatedNext(run[i], run[i + 1], Ids()) {
      Told(i);
    }
  }
}
