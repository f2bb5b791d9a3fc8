/** Any number of context-id negotiations running at the same time.  Each process takes part in
    several negotiations; its steps in them, and the frees of communicators, interleave freely with
    each other and with those of all other processes.  A step is one access to the process's table
    of communicators, or the result of one reduction.

    Source: openmpi-1.4.2/ompi/communicator/comm_cid.c:174-249, comm_init.c:430-435. */
module CidRuns {
  import opened CidTable

  /** The id that a process proposed last, in a variable that is not set before the first time. */
  datatype Last = Unset | Was(id: nat)

  /** Where one process stands in the negotiation of one communicator.  Rounds are numbered.  `Repeated` is
      a proposal made after a search that found nothing: the id of an earlier round, which is not reserved. */
  datatype Phase =
    | Outside
    | Searching(round: nat, from: nat, tried: Last)
    | Proposed(round: nat, id: nat)
    | Repeated(round: nat, id: nat)
    | Trying(round: nat, next: nat, last: nat)
    | Settled(round: nat, next: nat, response: bool, reserved: bool, last: nat)
    | Finished(round: nat, cid: nat)
    | Freed(round: nat, cid: nat)

  /** A communicator and a process that takes part in it. */
  datatype Part = Part(comm: nat, proc: nat)

  /** A contribution to a reduction: which communicator, which round, which process. */
  datatype Key = Key(comm: nat, round: nat, proc: nat)

  datatype System = System(
    limit: nat,
    members: map<nat, set<nat>>,
    tables: map<nat, Table>,
    phases: map<Part, Phase>,
    proposals: map<Key, nat>,
    answers: map<Key, bool>)

  // ----- steps -----

  datatype Action = Begin | Probe | Repeat | Settle | Try | Decide | Free_

  /** All participants have contributed to the first reduction of a round, and `next` is the maximum. */
  ghost predicate MaxIs(s: System, c: nat, r: nat, next: nat)
    requires c in s.members
  {
    && (forall q :: q in s.members[c] ==> Key(c, r, q) in s.proposals && s.proposals[Key(c, r, q)] <= next)
    && exists q :: q in s.members[c] && Key(c, r, q) in s.proposals && s.proposals[Key(c, r, q)] == next
  }

  /** All participants have answered. */
  ghost predicate AllAnswered(s: System, c: nat, r: nat)
    requires c in s.members
  {
    forall q :: q in s.members[c] ==> Key(c, r, q) in s.answers
  }

  ghost predicate AllAgreed(s: System, c: nat, r: nat)
    requires c in s.members
  {
    forall q :: q in s.members[c] ==> Key(c, r, q) in s.answers && s.answers[Key(c, r, q)]
  }

  function SetSlot(s: System, p: nat, i: nat, v: Slot): System
    requires p in s.tables && i < |s.tables[p]|
  {
    s.(tables := s.tables[p := s.tables[p][i := v]])
  }

  function SetPhase(s: System, a: Part, ph: Phase): System {
    s.(phases := s.phases[a := ph])
  }

  ghost predicate Shape(s: System) {
    && (forall p :: p in s.tables ==> |s.tables[p]| == s.limit)
    && (forall a :: a in s.phases ==> a.comm in s.members && a.proc in s.members[a.comm] && a.proc in s.tables)
    && (forall c, p :: c in s.members && p in s.members[c] ==> Part(c, p) in s.phases)
  }

  /** What a process does when the maximum is known: its own proposal is fine with it, any other one has to
      be tried, and the slot of its own proposal is cleared first, whoever it belongs to by now. */
  function AfterMax(s: System, a: Part, next: nat): System
    requires a in s.phases && (s.phases[a].Proposed? || s.phases[a].Repeated?)
    requires a.proc in s.tables && s.phases[a].id < |s.tables[a.proc]|
  {
    var ph := s.phases[a];
    if next == ph.id then
      SetPhase(s, a, Settled(ph.round, next, true, ph.Proposed?, ph.id))
      .(answers := s.answers[Key(a.comm, ph.round, a.proc) := true])
    else SetPhase(SetSlot(s, a.proc, ph.id, Free), a, Trying(ph.round, next, ph.id))
  }

  /** One step of process `a.proc` in the negotiation of `a.comm`. */
  ghost predicate Step(s: System, t: System, a: Part, act: Action)
    requires Shape(s)
  {
    && a in s.phases
    && var table := s.tables[a.proc];
       var ph := s.phases[a];
       match act
       case Begin =>
         ph.Outside? && t == SetPhase(s, a, Searching(0, LeastFree(table, 0), Unset))
       case Probe =>
         && ph.Searching? && ph.from < s.limit
         && if table[ph.from] == Free then
              t == SetPhase(SetSlot(s, a.proc, ph.from, Held(a.comm)), a, Proposed(ph.round, ph.from))
                   .(proposals := s.proposals[Key(a.comm, ph.round, a.proc) := ph.from])
            else t == SetPhase(s, a, Searching(ph.round, ph.from + 1, ph.tried))
       case Repeat =>
         && ph.Searching? && ph.from >= s.limit && ph.tried.Was?
         && t == SetPhase(s, a, Repeated(ph.round, ph.tried.id))
                 .(proposals := s.proposals[Key(a.comm, ph.round, a.proc) := ph.tried.id])
       case Settle =>
         && (ph.Proposed? || ph.Repeated?) && ph.id < s.limit
         && exists next :: MaxIs(s, a.comm, ph.round, next) && t == AfterMax(s, a, next)
       case Try =>
         && ph.Trying? && ph.next < s.limit
         && var ok := table[ph.next] == Free;
            var u := if ok then SetSlot(s, a.proc, ph.next, Held(a.comm)) else s;
            t == SetPhase(u, a, Settled(ph.round, ph.next, ok, ok, ph.last))
                 .(answers := s.answers[Key(a.comm, ph.round, a.proc) := ok])
       case Decide =>
         && ph.Settled? && ph.next < s.limit && AllAnswered(s, a.comm, ph.round)
         && if AllAgreed(s, a.comm, ph.round) then
              t == SetPhase(SetSlot(s, a.proc, ph.next, Live(a.comm)), a, Finished(ph.round, ph.next))
            else
              t == SetPhase(if ph.response then SetSlot(s, a.proc, ph.next, Free) else s, a,
                            Searching(ph.round + 1, ph.next + 1, Was(ph.last)))
       case Free_ =>
         && ph.Finished? && ph.cid < s.limit
         && t == SetPhase(SetSlot(s, a.proc, ph.cid, Free), a, Freed(ph.round, ph.cid))
  }

  ghost predicate Next(s: System, t: System) {
    Shape(s) && exists a, act :: Step(s, t, a, act)
  }

  /** Nothing negotiated has started; ids in use belong to communicators that are not negotiated. */
  ghost predicate Init(s: System) {
    && Shape(s) && (forall a :: a in s.phases ==> s.phases[a] == Outside) && s.proposals == map[] && s.answers == map[]
    && forall p, i :: p in s.tables && 0 <= i < |s.tables[p]| ==>
         match s.tables[p][i] case Free => true case Held(c) => c !in s.members case Live(c) => c !in s.members
  }

  // ----- who holds what -----

  predicate Belongs(v: Slot, c: nat) {
    v == Held(c) || v == Live(c)
  }

  /** The phase says that slot `i` is held. */
  predicate HoldsAt(ph: Phase, i: nat) {
    match ph
    case Proposed(_, id) => i == id
    case Settled(_, next, _, reserved, _) => reserved && i == next
    case Finished(_, cid) => i == cid
    case _ => false
  }

  predicate InRange(ph: Phase, limit: nat) {
    match ph
    case Searching(_, from, tried) => from <= limit && (tried.Was? ==> tried.id < limit)
    case Proposed(_, id) => id < limit
    case Repeated(_, id) => id < limit
    case Trying(_, next, last) => next < limit && last < limit
    case Settled(_, next, response, reserved, last) => next < limit && last < limit && (reserved ==> response)
    case Finished(_, cid) => cid < limit
    case Freed(_, cid) => cid < limit
    case Outside => true
  }

  /** A process's table entries for a communicator are exactly what its phase says. */
  ghost predicate OwnedBy(s: System, a: Part)
    requires Shape(s) && a in s.phases
  {
    forall i :: 0 <= i < s.limit ==>
      && (Belongs(s.tables[a.proc][i], a.comm) <==> HoldsAt(s.phases[a], i))
      && (HoldsAt(s.phases[a], i) ==>
            s.tables[a.proc][i] == if s.phases[a].Finished? then Live(a.comm) else Held(a.comm))
  }

  // ----- the rounds -----

  function ProposalCount(ph: Phase): nat {
    match ph
    case Outside => 0
    case Searching(r, _, _) => r
    case Proposed(r, _) => r + 1
    case Repeated(r, _) => r + 1
    case Trying(r, _, _) => r + 1
    case Settled(r, _, _, _, _) => r + 1
    case Finished(r, _) => r + 1
    case Freed(r, _) => r + 1
  }

  function AnswerCount(ph: Phase): nat {
    match ph
    case Outside => 0
    case Searching(r, _, _) => r
    case Proposed(r, _) => r
    case Repeated(r, _) => r
    case Trying(r, _, _) => r
    case Settled(r, _, _, _, _) => r + 1
    case Finished(r, _) => r + 1
    case Freed(r, _) => r + 1
  }

  function RoundOf(ph: Phase): nat {
    if ph.Outside? then 0 else ph.round
  }

  /** A round that ended without agreement. */
  ghost predicate Failed(s: System, c: nat, r: nat)
    requires c in s.members
  {
    AllAnswered(s, c, r) && !AllAgreed(s, c, r)
  }

  /** The current round of a process. */
  ghost predicate Current(s: System, a: Part, ph: Phase)
    requires a.comm in s.members
  {
    match ph
    case Outside => true
    case Searching(_, _, _) => true
    case Proposed(r, id) => Key(a.comm, r, a.proc) in s.proposals && s.proposals[Key(a.comm, r, a.proc)] == id
    case Repeated(r, id) => Key(a.comm, r, a.proc) in s.proposals && s.proposals[Key(a.comm, r, a.proc)] == id
    case Trying(r, next, _) => MaxIs(s, a.comm, r, next)
    case Settled(r, next, response, _, _) =>
      MaxIs(s, a.comm, r, next) && Key(a.comm, r, a.proc) in s.answers && s.answers[Key(a.comm, r, a.proc)] == response
    case Finished(r, cid) => MaxIs(s, a.comm, r, cid) && AllAgreed(s, a.comm, r)
    case Freed(r, cid) => MaxIs(s, a.comm, r, cid) && AllAgreed(s, a.comm, r)
  }

  /** What a process has contributed so far, and how the rounds before its current one ended. */
  ghost predicate RoundsOK(s: System, a: Part, ph: Phase)
    requires a.comm in s.members
  {
    && InRange(ph, s.limit)
    && (forall r: nat :: Key(a.comm, r, a.proc) in s.proposals <==> r < ProposalCount(ph))
    && (forall r: nat :: Key(a.comm, r, a.proc) in s.answers <==> r < AnswerCount(ph))
    && (forall r: nat :: r < RoundOf(ph) ==> Failed(s, a.comm, r))
    && (forall r: nat, q :: q in s.members[a.comm] && Key(a.comm, r, q) in s.proposals ==>
          s.proposals[Key(a.comm, r, q)] < s.limit)
    && Current(s, a, ph)
  }

  /** What holds of the rounds in every state, whatever happens to the tables. */
  ghost predicate Rounds(s: System) {
    Shape(s) && forall a :: a in s.phases ==> RoundsOK(s, a, s.phases[a])
  }

  /** The tables are as the phases say. */
  ghost predicate Inv(s: System) {
    Rounds(s) && forall a :: a in s.phases ==> OwnedBy(s, a)
  }

  // ----- steps that do harm -----

  /** A slot that belongs to another communicator. */
  predicate Foreign(v: Slot, c: nat) {
    v != Free && !Belongs(v, c)
  }

  /** The step works on an id that was proposed once more without being reserved, and whose slot belongs to
      another communicator by now: it clears that slot because the id is not the maximum, or it enters its own
      communicator there or clears it because the id was. */
  ghost predicate Harmful(s: System, a: Part, act: Action)
    requires Shape(s)
  {
    && a in s.phases && a.comm in s.members
    && var ph := s.phases[a];
       || (act.Settle? && ph.Repeated? && ph.id < s.limit && !MaxIs(s, a.comm, ph.round, ph.id)
           && Foreign(s.tables[a.proc][ph.id], a.comm))
       || (act.Decide? && ph.Settled? && ph.response && !ph.reserved && ph.next < s.limit
           && Foreign(s.tables[a.proc][ph.next], a.comm))
  }

  /** Contributions are never changed or taken back. */
  ghost predicate Grows(s: System, t: System) {
    && t.members == s.members && t.limit == s.limit
    && (forall k :: k in s.proposals ==> k in t.proposals && t.proposals[k] == s.proposals[k])
    && (forall k :: k in s.answers ==> k in t.answers && t.answers[k] == s.answers[k])
  }

  lemma {:induction false} MaxStable(s: System, t: System, c: nat, r: nat, next: nat)
    requires Grows(s, t) && c in s.members && MaxIs(s, c, r, next)
    ensures MaxIs(t, c, r, next)
  {
    var q :| q in s.members[c] && Key(c, r, q) in s.proposals && s.proposals[Key(c, r, q)] == next;
    assert q in t.members[c] && Key(c, r, q) in t.proposals && t.proposals[Key(c, r, q)] == next;
  }

  lemma {:induction false} AnswersStable(s: System, t: System, c: nat, r: nat)
    requires Grows(s, t) && c in s.members && AllAnswered(s, c, r)
    ensures AllAnswered(t, c, r) && (AllAgreed(t, c, r) <==> AllAgreed(s, c, r))
  {}

  lemma {:induction false} MaxUnique(s: System, c: nat, r: nat, a: nat, b: nat)
    requires c in s.members && MaxIs(s, c, r, a) && MaxIs(s, c, r, b)
    ensures a == b
  {}

  // ----- steps keep the invariant -----

  /** A process that finds everybody agreed has agreed itself. */
  lemma {:induction false} OwnAnswer(s: System, a: Part)
    requires Rounds(s) && a in s.phases && s.phases[a].Settled? && AllAgreed(s, a.comm, s.phases[a].round)
    ensures s.phases[a].response
  {
    assert RoundsOK(s, a, s.phases[a]);
    assert a.proc in s.members[a.comm];
  }

  /** What a step does to a slot of its own process: what the new phase holds was held or free
      before, what only the old phase held becomes free, and nothing else changes. */
  lemma {:induction false} StepSlot(s: System, t: System, a: Part, act: Action, i: nat)
    requires Inv(s) && Step(s, t, a, act) && !Harmful(s, a, act) && i < s.limit
    ensures a in s.phases && a in t.phases && a.proc in s.tables && a.proc in t.tables
    ensures |t.tables[a.proc]| == |s.tables[a.proc]| == s.limit
    ensures SlotStep(s, t, a, i)
  {
    hide *;
    if act.Decide? {
      DecideSlot(s, t, a, i);
    } else if act.Settle? {
      SettleSlot(s, t, a, i);
    } else {
      PlainSlot(s, t, a, act, i);
    }
  }

  lemma {:induction false} PlainSlot(s: System, t: System, a: Part, act: Action, i: nat)
    requires Inv(s) && Step(s, t, a, act) && act != Decide && act != Settle && i < s.limit
    ensures a in s.phases && a in t.phases && a.proc in s.tables && a.proc in t.tables
    ensures |t.tables[a.proc]| == |s.tables[a.proc]| == s.limit
    ensures SlotStep(s, t, a, i)
  {
    hide RoundsOK, MaxIs, AllAnswered, AllAgreed, LeastFree, Grows;
    assert OwnedBy(s, a) && |s.tables[a.proc]| == s.limit;
    hide Shape, OwnedBy, Rounds;
    HeldHere(s, a, i);
  }

  ghost predicate SlotStep(s: System, t: System, a: Part, i: nat)
    requires a in s.phases && a in t.phases && a.proc in s.tables && a.proc in t.tables
    requires i < |s.tables[a.proc]| && i < |t.tables[a.proc]|
  {
    var was, now := s.tables[a.proc][i], t.tables[a.proc][i];
    if HoldsAt(t.phases[a], i) then
      && now == (if t.phases[a].Finished? then Live(a.comm) else Held(a.comm))
      && (HoldsAt(s.phases[a], i) || was == Free)
    else now == if HoldsAt(s.phases[a], i) then Free else was
  }

  lemma {:induction false} SettleSlot(s: System, t: System, a: Part, i: nat)
    requires Inv(s) && Step(s, t, a, Settle) && !Harmful(s, a, Settle) && i < s.limit
    ensures a in s.phases && a in t.phases && a.proc in s.tables && a.proc in t.tables
    ensures |t.tables[a.proc]| == |s.tables[a.proc]| == s.limit
    ensures SlotStep(s, t, a, i)
  {
    hide RoundsOK, MaxIs, AllAnswered, AllAgreed, LeastFree, Grows;
    assert OwnedBy(s, a) && |s.tables[a.proc]| == s.limit && a.comm in s.members;
    var ph := s.phases[a];
    var next :| MaxIs(s, a.comm, ph.round, next) && t == AfterMax(s, a, next);
    if MaxIs(s, a.comm, ph.round, ph.id) { MaxUnique(s, a.comm, ph.round, next, ph.id); }
    HeldHere(s, a, i);
    HeldHere(s, a, ph.id);
    hide Shape, OwnedBy, Rounds;
  }

  lemma {:induction false} DecideSlot(s: System, t: System, a: Part, i: nat)
    requires Inv(s) && Step(s, t, a, Decide) && !Harmful(s, a, Decide) && i < s.limit
    ensures a in s.phases && a in t.phases && a.proc in s.tables && a.proc in t.tables
    ensures |t.tables[a.proc]| == |s.tables[a.proc]| == s.limit
    ensures SlotStep(s, t, a, i)
  {
    if AllAgreed(s, a.comm, s.phases[a].round) { OwnAnswer(s, a); }
    assert RoundsOK(s, a, s.phases[a]);
    hide RoundsOK, MaxIs, AllAnswered, AllAgreed, LeastFree, Grows;
    assert OwnedBy(s, a) && |s.tables[a.proc]| == s.limit && a.comm in s.members;
    HeldHere(s, a, i);
    HeldHere(s, a, s.phases[a].next);
    hide Shape, OwnedBy, Rounds;
  }

  lemma {:induction false} HeldHere(s: System, a: Part, i: nat)
    requires Shape(s) && a in s.phases && OwnedBy(s, a) && i < s.limit
    ensures a.proc in s.tables && |s.tables[a.proc]| == s.limit
    ensures Belongs(s.tables[a.proc][i], a.comm) <==> HoldsAt(s.phases[a], i)
    ensures HoldsAt(s.phases[a], i) ==>
              s.tables[a.proc][i] == if s.phases[a].Finished? then Live(a.comm) else Held(a.comm)
  {}

  /** A step changes one slot of its own process at most, and only one that is free or belongs to
      the communicator it works for. */
  lemma {:induction false} OnlyOwn(s: System, t: System, a: Part, act: Action, p: nat, i: nat)
    requires Inv(s) && Step(s, t, a, act) && !Harmful(s, a, act) && p in s.tables && i < s.limit
    ensures p in t.tables && |t.tables[p]| == s.limit
    ensures t.tables[p][i] != s.tables[p][i] ==>
              && p == a.proc
              && (s.tables[p][i] == Free || Belongs(s.tables[p][i], a.comm))
              && (t.tables[p][i] == Free || Belongs(t.tables[p][i], a.comm))
  {
    hide Step;
    StepForm(s, t, a, act);
    if p == a.proc {
      StepSlot(s, t, a, act, i);
      HeldHere(s, a, i);
    }
  }

  /** A step changes the table and the phase of its own part, nothing else. */
  lemma {:induction false} StepForm(s: System, t: System, a: Part, act: Action)
    requires Shape(s) && Step(s, t, a, act)
    ensures a in s.phases && a.proc in s.tables && a.proc in t.tables && |t.tables[a.proc]| == s.limit && a in t.phases
    ensures t.members == s.members && t.limit == s.limit
    ensures t.tables == s.tables[a.proc := t.tables[a.proc]] && t.phases == s.phases[a := t.phases[a]]
  {
    hide MaxIs, AllAnswered, AllAgreed, LeastFree;
    assert |s.tables[a.proc]| == s.limit;
    hide Shape;
    assert s.tables == s.tables[a.proc := s.tables[a.proc]];
  }

  lemma {:induction false} StepShape(s: System, t: System, a: Part, act: Action)
    requires Shape(s) && Step(s, t, a, act)
    ensures Shape(t) && t.members == s.members && t.limit == s.limit
    ensures forall b :: b in s.phases <==> b in t.phases
    ensures forall b :: b in s.phases && b != a ==> t.phases[b] == s.phases[b]
  {
    hide Step;
    StepForm(s, t, a, act);
  }

  /** What the other parts hold is not touched. */
  lemma {:induction false} OwnedOther(s: System, t: System, a: Part, act: Action, b: Part)
    requires Inv(s) && Step(s, t, a, act) && !Harmful(s, a, act) && b in s.phases && b != a
    ensures Shape(t) && b in t.phases && OwnedBy(t, b)
  {
    hide Step, RoundsOK;
    StepShape(s, t, a, act);
    assert OwnedBy(s, b);
    hide Shape;
    forall i | 0 <= i < s.limit
      ensures (Belongs(t.tables[b.proc][i], b.comm) <==> HoldsAt(t.phases[b], i))
           && (HoldsAt(t.phases[b], i) ==>
                 t.tables[b.proc][i] == if t.phases[b].Finished? then Live(b.comm) else Held(b.comm))
    {
      OnlyOwn(s, t, a, act, b.proc, i);
    }
  }

  /** What a part holds after its own step is what its new phase says. */
  lemma {:induction false} OwnedSelf(s: System, t: System, a: Part, act: Action)
    requires Inv(s) && Step(s, t, a, act) && !Harmful(s, a, act)
    ensures Shape(t) && a in t.phases && OwnedBy(t, a)
  {
    hide Step, RoundsOK;
    StepForm(s, t, a, act);
    StepShape(s, t, a, act);
    assert OwnedBy(s, a);
    forall i | 0 <= i < s.limit
      ensures (Belongs(t.tables[a.proc][i], a.comm) <==> HoldsAt(t.phases[a], i))
           && (HoldsAt(t.phases[a], i) ==>
                 t.tables[a.proc][i] == if t.phases[a].Finished? then Live(a.comm) else Held(a.comm))
    {
      StepSlot(s, t, a, act, i);
      HeldHere(s, a, i);
    }
  }

  /** The contributions that a step may add are those of its own part. */
  ghost predicate OwnKeys(s: System, t: System, a: Part) {
    && (forall k :: k in t.proposals && k !in s.proposals ==> k.comm == a.comm && k.proc == a.proc)
    && (forall k :: k in t.answers && k !in s.answers ==> k.comm == a.comm && k.proc == a.proc)
    && (forall k :: k in t.proposals && k !in s.proposals ==> t.proposals[k] < s.limit)
  }

  /** What a step contributes: entering `Proposed` or `Repeated` a proposal, entering `Settled` an answer. */
  lemma {:induction false} StepKeys(s: System, t: System, a: Part, act: Action)
    requires Shape(s) && Step(s, t, a, act)
    ensures a in s.phases && a in t.phases && t.members == s.members && t.limit == s.limit
    ensures var ph, new_ := s.phases[a], t.phases[a];
            if new_.Proposed? || new_.Repeated? then
              ph.Searching? && new_.round == ph.round
              && (new_.id < s.limit || (new_.Repeated? && ph.tried == Was(new_.id)))
              && t.proposals == s.proposals[Key(a.comm, new_.round, a.proc) := new_.id]
            else t.proposals == s.proposals && ProposalCount(new_) == ProposalCount(ph)
    ensures var ph, new_ := s.phases[a], t.phases[a];
            if new_.Settled? then
              AnswerCount(ph) == new_.round && t.answers == s.answers[Key(a.comm, new_.round, a.proc) := new_.response]
            else t.answers == s.answers && AnswerCount(new_) == AnswerCount(ph)
  {
    hide MaxIs, AllAnswered, AllAgreed, LeastFree, SetSlot;
    assert a.proc in s.tables && |s.tables[a.proc]| == s.limit;
    hide Shape;
    SlotKeeps(s, a.proc);
  }

  lemma {:induction false} SlotKeeps(s: System, p: nat)
    requires p in s.tables
    ensures forall i, v :: 0 <= i < |s.tables[p]| ==>
              SetSlot(s, p, i, v).(tables := s.tables) == s
  {}

  lemma {:induction false} StepGrows(s: System, t: System, a: Part, act: Action)
    requires Rounds(s) && Step(s, t, a, act)
    ensures Grows(s, t) && OwnKeys(s, t, a)
  {
    hide Step, Current, Failed, OwnedBy;
    StepKeys(s, t, a, act);
    assert RoundsOK(s, a, s.phases[a]);
  }

  lemma {:induction false} CurrentStable(s: System, t: System, b: Part, ph: Phase)
    requires Grows(s, t) && b.comm in s.members && Current(s, b, ph)
    ensures Current(t, b, ph)
  {
    hide MaxIs, AllAnswered, AllAgreed;
    match ph
    case Trying(r, next, _) => MaxStable(s, t, b.comm, r, next);
    case Settled(r, next, _, _, _) => MaxStable(s, t, b.comm, r, next);
    case Finished(r, cid) => MaxStable(s, t, b.comm, r, cid); AgreedStable(s, t, b.comm, r);
    case Freed(r, cid) => MaxStable(s, t, b.comm, r, cid); AgreedStable(s, t, b.comm, r);
    case _ =>
  }

  lemma {:induction false} AgreedStable(s: System, t: System, c: nat, r: nat)
    requires Grows(s, t) && c in s.members && AllAgreed(s, c, r)
    ensures AllAgreed(t, c, r)
  {}

  lemma {:induction false} FailedStable(s: System, t: System, c: nat, n: nat)
    requires Grows(s, t) && c in s.members && forall r: nat :: r < n ==> Failed(s, c, r)
    ensures forall r: nat :: r < n ==> Failed(t, c, r)
  {
    forall r: nat | r < n ensures Failed(t, c, r) {
      assert Failed(s, c, r);
      AnswersStable(s, t, c, r);
    }
  }

  /** The rounds of the other parts. */
  lemma {:induction false} RoundsOther(s: System, t: System, a: Part, b: Part, ph: Phase)
    requires Grows(s, t) && OwnKeys(s, t, a) && b != a && b.comm in s.members && RoundsOK(s, b, ph)
    ensures RoundsOK(t, b, ph)
  {
    hide Failed, Current;
    FailedStable(s, t, b.comm, RoundOf(ph));
    CurrentStable(s, t, b, ph);
  }

  /** What a part has contributed after its own step. */
  lemma {:induction false} CountsSelf(s: System, t: System, a: Part, act: Action)
    requires Rounds(s) && Step(s, t, a, act)
    ensures a in t.phases && InRange(t.phases[a], s.limit)
    ensures forall r: nat :: Key(a.comm, r, a.proc) in t.proposals <==> r < ProposalCount(t.phases[a])
    ensures forall r: nat :: Key(a.comm, r, a.proc) in t.answers <==> r < AnswerCount(t.phases[a])
  {
    hide Step, Current, Failed, OwnedBy;
    StepKeys(s, t, a, act);
    StepInRange(s, t, a, act);
    assert RoundsOK(s, a, s.phases[a]);
  }

  lemma {:induction false} StepInRange(s: System, t: System, a: Part, act: Action)
    requires Rounds(s) && Step(s, t, a, act)
    ensures a in t.phases && InRange(t.phases[a], s.limit)
  {
    assert RoundsOK(s, a, s.phases[a]);
    assert InRange(s.phases[a], s.limit);
    if act.Settle? {
      MaxInRange(s, a);
      var next := SettleNext(s, t, a);
      hide *;
      SettleInRange(s, t, a, next);
    } else if act.Decide? {
      DecideEnds(s, t, a);
      hide *;
      DecideInRange(s, t, a);
    } else if act.Try? {
      TryEnds(s, t, a);
      hide Step, Shape, Rounds, RoundsOK;
    } else {
      assert a.proc in s.tables && |s.tables[a.proc]| == s.limit;
      hide AllAnswered, AllAgreed, Shape, Rounds, MaxIs, RoundsOK, SetSlot;
      TablesOnly(s, a.proc);
    }
  }

  lemma {:induction false} TablesOnly(s: System, p: nat)
    requires p in s.tables
    ensures forall i, v :: 0 <= i < |s.tables[p]| ==> SetSlot(s, p, i, v).phases == s.phases
  {}

  lemma {:induction false} SettleInRange(s: System, t: System, a: Part, next: nat)
    requires a in s.phases && a in t.phases && (s.phases[a].Proposed? || s.phases[a].Repeated?)
    requires InRange(s.phases[a], s.limit) && next < s.limit
    requires if next == s.phases[a].id then
               t.phases[a] == Settled(s.phases[a].round, next, true, s.phases[a].Proposed?, s.phases[a].id)
             else t.phases[a] == Trying(s.phases[a].round, next, s.phases[a].id)
    ensures InRange(t.phases[a], s.limit)
  {}

  lemma {:induction false} DecideInRange(s: System, t: System, a: Part)
    requires a in s.phases && a in t.phases && s.phases[a].Settled? && InRange(s.phases[a], s.limit)
    requires var ph := s.phases[a];
             || t.phases[a] == Finished(ph.round, ph.next)
             || t.phases[a] == Searching(ph.round + 1, ph.next + 1, Was(ph.last))
    ensures InRange(t.phases[a], s.limit)
  {}

  /** The maximum of the proposals of a round is an index of the table. */
  lemma {:induction false} MaxInRange(s: System, a: Part)
    requires Rounds(s) && a in s.phases
    ensures forall r: nat, next: nat :: MaxIs(s, a.comm, r, next) ==> next < s.limit
  {
    assert RoundsOK(s, a, s.phases[a]);
  }

  lemma {:induction false} SettleNext(s: System, t: System, a: Part) returns (next: nat)
    requires Shape(s) && Step(s, t, a, Settle)
    ensures a in s.phases && a in t.phases && a.comm in s.members && (s.phases[a].Proposed? || s.phases[a].Repeated?)
    ensures MaxIs(s, a.comm, s.phases[a].round, next)
    ensures if next == s.phases[a].id then
              t.phases[a] == Settled(s.phases[a].round, next, true, s.phases[a].Proposed?, s.phases[a].id)
              && t.answers == s.answers[Key(a.comm, s.phases[a].round, a.proc) := true]
            else t.phases[a] == Trying(s.phases[a].round, next, s.phases[a].id)
  {
    assert a.comm in s.members && a.proc in s.tables && |s.tables[a.proc]| == s.limit;
    hide MaxIs, Shape, SetSlot;
    next :| MaxIs(s, a.comm, s.phases[a].round, next) && t == AfterMax(s, a, next);
  }

  lemma {:induction false} AfterSettle(s: System, t: System, a: Part)
    requires Rounds(s) && Step(s, t, a, Settle) && Grows(s, t)
    ensures a in t.phases && Current(t, a, t.phases[a]) && RoundOf(t.phases[a]) == RoundOf(s.phases[a])
  {
    hide Step, Shape, OwnedBy, MaxIs, AllAnswered, AllAgreed, RoundsOK;
    var next := SettleNext(s, t, a);
    MaxStable(s, t, a.comm, s.phases[a].round, next);
  }

  /** What a process does that moves to the maximum. */
  lemma {:induction false} TryEnds(s: System, t: System, a: Part)
    requires Shape(s) && Step(s, t, a, Try)
    ensures a in s.phases && a in t.phases && a.comm in s.members && s.phases[a].Trying? && t.phases[a].Settled?
    ensures var ph, response := s.phases[a], t.phases[a].response;
            && t.phases[a] == Settled(ph.round, ph.next, response, response, ph.last)
            && t.answers == s.answers[Key(a.comm, ph.round, a.proc) := response]
  {
    hide MaxIs, AllAnswered, AllAgreed, LeastFree, SetSlot;
    assert a.proc in s.tables && |s.tables[a.proc]| == s.limit;
    SlotKeeps(s, a.proc);
  }

  lemma {:induction false} AfterTry(s: System, t: System, a: Part)
    requires Rounds(s) && Step(s, t, a, Try) && Grows(s, t)
    ensures a in t.phases && Current(t, a, t.phases[a]) && RoundOf(t.phases[a]) == RoundOf(s.phases[a])
  {
    hide Step, Shape, OwnedBy, MaxIs, AllAnswered, AllAgreed, Failed;
    TryEnds(s, t, a);
    assert RoundsOK(s, a, s.phases[a]);
    hide RoundsOK;
    MaxStable(s, t, a.comm, s.phases[a].round, s.phases[a].next);
  }

  /** What a process does that knows the answers of all. */
  lemma {:induction false} DecideEnds(s: System, t: System, a: Part)
    requires Shape(s) && Step(s, t, a, Decide)
    ensures a in s.phases && a in t.phases && a.comm in s.members && s.phases[a].Settled?
    ensures var ph := s.phases[a];
            && AllAnswered(s, a.comm, ph.round)
            && t.phases[a] == if AllAgreed(s, a.comm, ph.round) then Finished(ph.round, ph.next)
                              else Searching(ph.round + 1, ph.next + 1, Was(ph.last))
  {
    hide LeastFree, MaxIs, AllAnswered, AllAgreed, SetSlot;
    assert a.proc in s.tables && |s.tables[a.proc]| == s.limit;
    SlotKeeps(s, a.proc);
  }

  lemma {:induction false} AfterDecide(s: System, t: System, a: Part)
    requires Rounds(s) && Step(s, t, a, Decide) && Grows(s, t)
    ensures a in t.phases && Current(t, a, t.phases[a])
    ensures if t.phases[a].Finished? then RoundOf(t.phases[a]) == RoundOf(s.phases[a])
            else RoundOf(t.phases[a]) == RoundOf(s.phases[a]) + 1 && Failed(t, a.comm, RoundOf(s.phases[a]))
  {
    hide Step, Shape, OwnedBy, MaxIs, AllAnswered, AllAgreed;
    DecideEnds(s, t, a);
    assert RoundsOK(s, a, s.phases[a]);
    hide RoundsOK;
    MaxStable(s, t, a.comm, s.phases[a].round, s.phases[a].next);
    AnswersStable(s, t, a.comm, s.phases[a].round);
  }

  lemma {:induction false} AfterOther(s: System, t: System, a: Part, act: Action)
    requires Rounds(s) && Step(s, t, a, act) && Grows(s, t) && (act.Begin? || act.Probe? || act.Repeat? || act.Free_?)
    ensures a in t.phases && Current(t, a, t.phases[a]) && RoundOf(t.phases[a]) == RoundOf(s.phases[a])
  {
    assert RoundsOK(s, a, s.phases[a]);
    hide LeastFree, OwnedBy, MaxIs, AllAnswered, AllAgreed, Failed, SetSlot;
    assert a.proc in s.tables && |s.tables[a.proc]| == s.limit;
    SlotKeeps(s, a.proc);
    hide Shape;
    if act.Free_? {
      MaxStable(s, t, a.comm, s.phases[a].round, s.phases[a].cid);
      AgreedStable(s, t, a.comm, s.phases[a].round);
    }
  }

  /** The current round of a part after its own step. */
  lemma {:induction false} CurrentSelf(s: System, t: System, a: Part, act: Action)
    requires Rounds(s) && Step(s, t, a, act) && Grows(s, t)
    ensures a in t.phases && Current(t, a, t.phases[a])
    ensures forall r: nat :: r < RoundOf(t.phases[a]) ==> Failed(t, a.comm, r)
  {
    hide Step, Current, OwnedBy, Failed;
    StepForm(s, t, a, act);
    assert RoundsOK(s, a, s.phases[a]);
    hide Shape;
    FailedStable(s, t, a.comm, RoundOf(s.phases[a]));
    match act
    case Settle => AfterSettle(s, t, a);
    case Try => AfterTry(s, t, a);
    case Decide => AfterDecide(s, t, a);
    case _ => AfterOther(s, t, a, act);
  }

  lemma {:induction false} RoundsSelf(s: System, t: System, a: Part, act: Action)
    requires Rounds(s) && Step(s, t, a, act)
    ensures a in t.phases && a.comm in t.members && RoundsOK(t, a, t.phases[a])
  {
    StepShape(s, t, a, act);
    StepGrows(s, t, a, act);
    CountsSelf(s, t, a, act);
    CurrentSelf(s, t, a, act);
    assert RoundsOK(s, a, s.phases[a]);
    hide Step, Current, Failed, OwnedBy;
  }

  /** Every step keeps what is known of the rounds. */
  lemma {:induction false} StepKeepsRounds(s: System, t: System, a: Part, act: Action)
    requires Rounds(s) && Step(s, t, a, act)
    ensures Rounds(t)
  {
    StepShape(s, t, a, act);
    StepGrows(s, t, a, act);
    forall b | b in t.phases
      ensures RoundsOK(t, b, t.phases[b])
    {
      if b == a {
        RoundsSelf(s, t, a, act);
      } else {
        RoundsOther(s, t, a, b, s.phases[b]);
      }
    }
    hide Step, RoundsOK;
  }

  /** A step that does no harm keeps the tables as the phases say. */
  lemma {:induction false} StepKeepsInv(s: System, t: System, a: Part, act: Action)
    requires Inv(s) && Step(s, t, a, act) && !Harmful(s, a, act)
    ensures Inv(t)
  {
    StepKeepsRounds(s, t, a, act);
    StepShape(s, t, a, act);
    forall b | b in t.phases
      ensures OwnedBy(t, b)
    {
      if b == a {
        OwnedSelf(s, t, a, act);
      } else {
        OwnedOther(s, t, a, act, b);
      }
    }
    hide Step, OwnedBy, Rounds, Harmful;
  }

  lemma {:induction false} InitInv(s: System)
    requires Init(s)
    ensures Inv(s)
  {}

  // ----- what harm means -----

  /** A step changes a slot that belongs to another communicator. */
  ghost predicate Disturbs(s: System, t: System, a: Part) {
    exists p, i :: p in s.tables && p in t.tables && 0 <= i < |s.tables[p]| && i < |t.tables[p]|
      && Foreign(s.tables[p][i], a.comm) && t.tables[p][i] != s.tables[p][i]
  }

  /** As long as the tables are as the phases say, a step changes a slot of another communicator exactly if it
      is harmful, which can be seen before it is taken. */
  lemma {:induction false} HarmExact(s: System, t: System, a: Part, act: Action)
    requires Inv(s) && Step(s, t, a, act)
    ensures Disturbs(s, t, a) <==> Harmful(s, a, act)
  {
    if Harmful(s, a, act) {
      HarmDone(s, t, a, act);
    } else {
      hide Step, Inv, Harmful;
      forall p, i | p in s.tables && p in t.tables && 0 <= i < |s.tables[p]| && i < |t.tables[p]|
        ensures !(Foreign(s.tables[p][i], a.comm) && t.tables[p][i] != s.tables[p][i])
      {
        TableLength(s, p);
        OnlyOwn(s, t, a, act, p, i);
      }
    }
  }

  lemma {:induction false} TableLength(s: System, p: nat)
    requires Inv(s) && p in s.tables
    ensures |s.tables[p]| == s.limit
  {
    hide OwnedBy, RoundsOK;
  }

  lemma {:induction false} HarmDone(s: System, t: System, a: Part, act: Action)
    requires Inv(s) && Step(s, t, a, act) && Harmful(s, a, act)
    ensures Disturbs(s, t, a)
  {
    hide RoundsOK, OwnedBy, LeastFree, AllAnswered, AllAgreed, MaxIs;
    var ph := s.phases[a];
    assert a.proc in s.tables && |s.tables[a.proc]| == s.limit;
    if act.Settle? {
      var next :| MaxIs(s, a.comm, ph.round, next) && t == AfterMax(s, a, next);
      assert next != ph.id;
      assert t.tables[a.proc][ph.id] == Free;
    } else {
      assert t.tables[a.proc][ph.next] == Free || t.tables[a.proc][ph.next] == Live(a.comm);
    }
  }

  // ----- runs -----

  /** A run from an initial state. */
  ghost predicate Run(run: seq<System>) {
    |run| > 0 && Init(run[0]) && forall i :: 0 <= i < |run| - 1 ==> Next(run[i], run[i + 1])
  }

  ghost predicate SafeNext(s: System, t: System) {
    Shape(s) && exists a, act :: Step(s, t, a, act) && !Harmful(s, a, act)
  }

  /** A run without harmful steps. */
  ghost predicate SafeRun(run: seq<System>) {
    |run| > 0 && Init(run[0]) && forall i :: 0 <= i < |run| - 1 ==> SafeNext(run[i], run[i + 1])
  }

  /** The context id that a process got for a communicator, whether or not it freed it since. */
  predicate Got(ph: Phase, cid: nat) {
    (ph.Finished? || ph.Freed?) && ph.cid == cid
  }

  /** All participants of a negotiation get the same id. */
  ghost predicate Agreement(s: System) {
    forall a, b, x, y ::
      a in s.phases && b in s.phases && a.comm == b.comm && Got(s.phases[a], x) && Got(s.phases[b], y) ==> x == y
  }

  /** No process has two live communicators with the same id, and the id leads to the communicator. */
  ghost predicate Uniqueness(s: System) {
    && (forall a, b | a in s.phases && b in s.phases && a != b && a.proc == b.proc ::
          s.phases[a].Finished? && s.phases[b].Finished? ==> s.phases[a].cid != s.phases[b].cid)
    && (forall a :: a in s.phases && s.phases[a].Finished? ==>
          && a.proc in s.tables && s.phases[a].cid < |s.tables[a.proc]|
          && s.tables[a.proc][s.phases[a].cid] == Live(a.comm))
  }

  /** What is known about a process that has finished. */
  lemma {:induction false} FinishedRound(s: System, a: Part)
    requires Rounds(s) && a in s.phases && (s.phases[a].Finished? || s.phases[a].Freed?)
    ensures var ph := s.phases[a];
            && a.comm in s.members && MaxIs(s, a.comm, ph.round, ph.cid) && AllAgreed(s, a.comm, ph.round)
            && forall r: nat :: r < ph.round ==> Failed(s, a.comm, r)
  {
    assert RoundsOK(s, a, s.phases[a]);
    hide MaxIs, OwnedBy, Failed;
  }

  lemma {:induction false} InvAgreement(s: System, a: Part, b: Part)
    requires Rounds(s) && a in s.phases && b in s.phases && a.comm == b.comm
    requires (s.phases[a].Finished? || s.phases[a].Freed?) && (s.phases[b].Finished? || s.phases[b].Freed?)
    ensures s.phases[a].cid == s.phases[b].cid
  {
    FinishedRound(s, a);
    FinishedRound(s, b);
    hide MaxIs, AllAnswered, AllAgreed, Rounds;
    assert s.phases[a].round == s.phases[b].round;
    MaxUnique(s, a.comm, s.phases[a].round, s.phases[a].cid, s.phases[b].cid);
  }

  lemma {:induction false} InvUnique(s: System, a: Part)
    requires Inv(s) && a in s.phases && s.phases[a].Finished?
    ensures a.proc in s.tables && s.phases[a].cid < |s.tables[a.proc]|
    ensures s.tables[a.proc][s.phases[a].cid] == Live(a.comm)
  {
    assert OwnedBy(s, a) && RoundsOK(s, a, s.phases[a]);
    assert HoldsAt(s.phases[a], s.phases[a].cid);
  }

  /** The rounds are in order in every state of every run. */
  lemma {:induction false} RunRounds(run: seq<System>, n: nat)
    requires Run(run) && n < |run|
    ensures Rounds(run[n])
    decreases n
  {
    hide *;
    if n == 0 {
      FirstState(run);
    } else {
      RunRounds(run, n - 1);
      var a, act := StepOf(run, n - 1);
      StepKeepsRounds(run[n - 1], run[n], a, act);
    }
  }

  lemma {:induction false} FirstState(run: seq<System>)
    requires Run(run)
    ensures |run| > 0 && Rounds(run[0]) && Inv(run[0])
    ensures forall b :: b in run[0].phases ==> Reserving(run[0].phases[b])
  {
    InitInv(run[0]);
    hide Rounds, OwnedBy, Shape;
  }

  lemma {:induction false} StepOf(run: seq<System>, n: nat) returns (a: Part, act: Action)
    requires Run(run) && n + 1 < |run|
    ensures Shape(run[n]) && Step(run[n], run[n + 1], a, act)
  {
    hide Step, Shape, Init;
    assert Next(run[n], run[n + 1]);
    a, act :| Step(run[n], run[n + 1], a, act);
  }

  lemma {:induction false} SafeStepOf(run: seq<System>, n: nat) returns (a: Part, act: Action)
    requires SafeRun(run) && n + 1 < |run|
    ensures Shape(run[n]) && Step(run[n], run[n + 1], a, act) && !Harmful(run[n], a, act)
  {
    hide Step, Shape, Init, Harmful;
    assert SafeNext(run[n], run[n + 1]);
    a, act :| Step(run[n], run[n + 1], a, act) && !Harmful(run[n], a, act);
  }

  /** A run without harmful steps keeps the tables as the phases say. */
  lemma {:induction false} RunInv(run: seq<System>, n: nat)
    requires SafeRun(run) && n < |run|
    ensures Inv(run[n])
    decreases n
  {
    hide *;
    if n == 0 {
      SafeIsRun(run);
      FirstState(run);
    } else {
      RunInv(run, n - 1);
      var a, act := SafeStepOf(run, n - 1);
      StepKeepsInv(run[n - 1], run[n], a, act);
    }
  }

  /** In every state of every run participants agree, whatever harm was done to the tables. */
  lemma {:induction false} RunsAgree(run: seq<System>, n: nat)
    requires Run(run) && n < |run|
    ensures Agreement(run[n])
  {
    RunRounds(run, n);
    hide Rounds;
    var s := run[n];
    forall a, b, x, y |
      a in s.phases && b in s.phases && a.comm == b.comm && Got(s.phases[a], x) && Got(s.phases[b], y)
      ensures x == y
    {
      InvAgreement(s, a, b);
    }
  }

  /** In every state of every run without harmful steps ids are unique among live communicators. */
  lemma {:induction false} RunsSafe(run: seq<System>, n: nat)
    requires SafeRun(run) && n < |run|
    ensures Agreement(run[n]) && Uniqueness(run[n])
  {
    RunInv(run, n);
    SafeIsRun(run);
    RunsAgree(run, n);
    hide Inv, Agreement;
    var s := run[n];
    forall a | a in s.phases && s.phases[a].Finished?
      ensures a.proc in s.tables && s.phases[a].cid < |s.tables[a.proc]|
      ensures s.tables[a.proc][s.phases[a].cid] == Live(a.comm)
    {
      InvUnique(s, a);
    }
  }

  lemma {:induction false} SafeIsRun(run: seq<System>)
    requires SafeRun(run)
    ensures Run(run)
  {
    hide Step, Harmful, Init, Shape;
    forall i | 0 <= i < |run| - 1 ensures Next(run[i], run[i + 1]) {
      assert SafeNext(run[i], run[i + 1]);
    }
  }

  ghost predicate StepFor(s: System, t: System, a: Part)
    requires Shape(s)
  {
    exists act :: Step(s, t, a, act)
  }

  /** A slot that a communicator holds, reserved or live, is changed only by a step for that
      communicator at that process. */
  lemma {:induction false} OnlyHolderReleases(run: seq<System>, n: nat, p: nat, i: nat, c: nat)
    requires SafeRun(run) && n + 1 < |run| && p in run[n].tables && i < run[n].limit
    requires Shape(run[n]) && Belongs(run[n].tables[p][i], c)
    ensures p in run[n + 1].tables && |run[n + 1].tables[p]| == run[n].limit
    ensures run[n + 1].tables[p][i] != run[n].tables[p][i] ==> StepFor(run[n], run[n + 1], Part(c, p))
  {
    RunInv(run, n);
    hide Inv, Step, Shape, Harmful, SafeRun, LeastFree;
    var a, act := SafeStepOf(run, n);
    OnlyOwn(run[n], run[n + 1], a, act, p, i);
    assert run[n + 1].tables[p][i] != run[n].tables[p][i] ==> a == Part(c, p);
  }

  // ----- runs in which every search finds an id -----

  /** Every process that searches still has a free id at or above the place where it searches. */
  ghost predicate Supplied(s: System) {
    forall a | a in s.phases && s.phases[a].Searching? && a.proc in s.tables ::
      s.phases[a].from <= |s.tables[a.proc]| ==>
        LeastFree(s.tables[a.proc], s.phases[a].from) < |s.tables[a.proc]|
  }

  /** Nothing was proposed without being reserved. */
  predicate Reserving(ph: Phase) {
    match ph
    case Repeated(_, _) => false
    case Settled(_, _, response, reserved, _) => response ==> reserved
    case _ => true
  }

  /** As long as every search has a free id left, no step does harm. */
  lemma {:induction false} SuppliedIsSafe(run: seq<System>)
    requires Run(run) && forall i :: 0 <= i < |run| ==> Supplied(run[i])
    ensures SafeRun(run)
  {
    forall i | 0 <= i < |run| - 1 ensures SafeNext(run[i], run[i + 1]) {
      AllReserving(run, i);
      hide *;
      var a, act := StepOf(run, i);
      ReservingSafe(run[i], a, act);
      SafeStep(run[i], run[i + 1], a, act);
    }
  }

  lemma {:induction false} SafeStep(s: System, t: System, a: Part, act: Action)
    requires Shape(s) && Step(s, t, a, act) && !Harmful(s, a, act)
    ensures SafeNext(s, t)
  {
    hide Step, Harmful, Shape;
  }

  lemma {:induction false} ReservingSafe(s: System, a: Part, act: Action)
    requires Shape(s) && forall b :: b in s.phases ==> Reserving(s.phases[b])
    ensures !Harmful(s, a, act)
  {}

  lemma {:induction false} AllReserving(run: seq<System>, n: nat)
    requires Run(run) && n < |run| && forall i :: 0 <= i < |run| ==> Supplied(run[i])
    ensures forall b :: b in run[n].phases ==> Reserving(run[n].phases[b])
    decreases n
  {
    hide *;
    if n == 0 {
      FirstState(run);
    } else {
      AllReserving(run, n - 1);
      var a, act := StepOf(run, n - 1);
      SuppliedAt(run, n - 1);
      RunRounds(run, n - 1);
      StepReserves(run[n - 1], run[n], a, act);
    }
  }

  lemma {:induction false} SuppliedAt(run: seq<System>, n: nat)
    requires n < |run| && forall i :: 0 <= i < |run| ==> Supplied(run[i])
    ensures Supplied(run[n])
  {}

  lemma {:induction false} StepReserves(s: System, t: System, a: Part, act: Action)
    requires Rounds(s) && Step(s, t, a, act) && Supplied(s)
    requires forall b :: b in s.phases ==> Reserving(s.phases[b])
    ensures forall b :: b in t.phases ==> Reserving(t.phases[b])
  {
    StepShape(s, t, a, act);
    OwnReserves(s, t, a, act);
    hide Step, Rounds, Supplied;
    forall b | b in t.phases ensures Reserving(t.phases[b]) {
      if b != a { assert t.phases[b] == s.phases[b]; }
    }
  }

  lemma {:induction false} OwnReserves(s: System, t: System, a: Part, act: Action)
    requires Rounds(s) && Step(s, t, a, act) && Supplied(s) && a in s.phases && Reserving(s.phases[a])
    ensures a in t.phases && Reserving(t.phases[a])
  {
    assert RoundsOK(s, a, s.phases[a]);
    hide RoundsOK;
    hide MaxIs, AllAnswered, AllAgreed;
    assert a.proc in s.tables && |s.tables[a.proc]| == s.limit;
  }
}
