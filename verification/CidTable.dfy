/** The table of communicators of one process, and what one process does in a round of the
    context-id negotiation.

    Source: openmpi-1.4.2/ompi/communicator/comm_cid.c, `ompi_comm_nextcid`. */
module CidTable {

  /** An entry of the table: reserved for a communicator that is being made, or held by a live one.
      Communicators are numbered in the order in which their negotiations start. */
  datatype Slot = Free | Held(comm: nat) | Live(comm: nat)

  type Table = seq<Slot>

  /** The least free id from `start` on; the length of the table if there is none. */
  function LeastFree(t: Table, start: nat): (id: nat)
    requires start <= |t|
    ensures start <= id <= |t|
    ensures id < |t| ==> t[id] == Free
    ensures forall i :: start <= i < id ==> t[i] != Free
    decreases |t| - start
  {
    if start == |t| || t[start] == Free then start else LeastFree(t, start + 1)
  }

  /** What a process holds after the maximum of all proposals is known. */
  function Settled(t: Table, comm: nat, proposed: nat, next: nat): (Table, bool)
    requires proposed < |t| && next < |t|
  {
    if next == proposed then (t, true)
    else
      var released := t[proposed := Free];
      if released[next] == Free then (released[next := Held(comm)], true) else (released, false)
  }

  /** What a process holds when some process did not agree. */
  function Undone(t: Table, next: nat, response: bool): Table
    requires next < |t|
  {
    if response then t[next := Free] else t
  }

  /** A failed round leaves the table as it was. */
  lemma {:induction false} RoundUndone(t: Table, comm: nat, proposed: nat, next: nat)
    requires proposed < |t| && next < |t| && t[proposed] == Free
    ensures var (u, response) := Settled(t[proposed := Held(comm)], comm, proposed, next);
            |u| == |t| && Undone(u, next, response) == t
  {
    assert t[proposed := Held(comm)][proposed := Free] == t;
  }

  /** So does one in which a process found no free id and proposed again what it had proposed before. */
  lemma {:induction false} StaleUndone(t: Table, comm: nat, proposed: nat, next: nat)
    requires proposed < |t| && next < |t| && t[proposed] == Free
    ensures var (u, response) := Settled(t, comm, proposed, next);
            |u| == |t| && response == (t[next] == Free) && Undone(u, next, response) == t
  {
    assert t[proposed := Free] == t;
  }

  /** A process agrees to an id exactly if that id was free in its table, and then holds only that. */
  lemma {:induction false} AgreesIfFree(t: Table, comm: nat, proposed: nat, next: nat)
    requires proposed < |t| && next < |t| && t[proposed] == Free
    ensures var (u, response) := Settled(t[proposed := Held(comm)], comm, proposed, next);
            && response == (t[next] == Free)
            && u == if response then t[next := Held(comm)] else t
  {
    assert t[proposed := Held(comm)][proposed := Free] == t;
  }

  /** One participant of a negotiation, with the variables of its call. */
  class Process {
    var slots: Table
    var start: nat
    var proposed: nat
    var response: bool

    constructor (slots: Table)
      ensures this.slots == slots
    {
      this.slots, start, proposed, response := slots, 0, 0, false;
    }

    /** `opal_pointer_array_test_and_set_item`, for an index inside the table. */
    method TestAndSet(i: nat, value: Slot) returns (flag: bool)
      requires i < |slots| && value != Free
      modifies this`slots
      ensures flag == (old(slots)[i] == Free)
      ensures slots == if flag then old(slots)[i := value] else old(slots)
    {
      flag := slots[i] == Free;
      if flag {
        slots := slots[i := value];
      }
    }

    /** `lowest_free` of the table. */
    method Begin()
      modifies this`start
      ensures start == LeastFree(slots, 0)
    {
      start := 0;
      while start < |slots| && slots[start] != Free
        invariant start <= |slots| && LeastFree(slots, 0) == LeastFree(slots, start)
      {
        start := start + 1;
      }
    }

    /** The least free id from `start` on is reserved and proposed; if there is none, the variable still
        holds the id of an earlier round. */
    method Propose(comm: nat)
      requires start <= |slots|
      modifies this`slots, this`proposed
      ensures var id := LeastFree(old(slots), start);
              if id < |old(slots)| then proposed == id && slots == old(slots)[id := Held(comm)]
              else proposed == old(proposed) && slots == old(slots)
    {
      for i := start to |slots|
        invariant slots == old(slots) && proposed == old(proposed) && LeastFree(slots, start) == LeastFree(slots, i)
      {
        var flag := TestAndSet(i, Held(comm));
        if flag {
          proposed := i;
          return;
        }
      }
    }

    /** Moving to the maximum of all proposals. */
    method Settle(comm: nat, next: nat)
      requires proposed < |slots| && next < |slots|
      modifies this`slots, this`response
      ensures (slots, response) == Settled(old(slots), comm, proposed, next)
    {
      if next == proposed {
        response := true;
      } else {
        slots := slots[proposed := Free];
        response := TestAndSet(next, Held(comm));
      }
    }

    /** Some process did not agree. */
    method Undo(next: nat)
      requires next < |slots|
      modifies this`slots, this`start
      ensures slots == Undone(old(slots), next, response) && start == next + 1
    {
      if response {
        slots := slots[next := Free];
      }
      start := next + 1;
    }

    /** The id is given to the new communicator. */
    method Finish(comm: nat, next: nat)
      requires next < |slots|
      modifies this`slots
      ensures slots == old(slots)[next := Live(comm)]
    {
      slots := slots[next := Live(comm)];
    }
  }
}
