/** The reductions of the context-id negotiation between two groups of processes, and the list of
    communicators that are negotiating.

    Source: openmpi-1.4.2/ompi/communicator/comm_cid.c:355-420, 594-860. */
module CidReduce {

  datatype Op = OpMax | OpMin | OpSum | OpProd

  function Apply(op: Op, a: int, b: int): int {
    match op
    case OpMax => if a > b then a else b
    case OpMin => if a < b then a else b
    case OpSum => b + a
    case OpProd => b * a
  }

  /** The reduction over a group. */
  function Reduce(op: Op, s: seq<int>): int
    requires |s| > 0
  {
    if |s| == 1 then s[0] else Apply(op, s[0], Reduce(op, s[1..]))
  }

  /** `ompi_comm_allreduce_inter`: a reduction on the inter-communicator leaves the result of each
      group at the other group; the leaders exchange and combine them; the overall result is
      handed to the other group. */
  method AllreduceInter(op: Op, local: seq<int>, remote: seq<int>) returns (localOut: int, remoteOut: int)
    requires |local| > 0 && |remote| > 0
    ensures localOut == remoteOut == Reduce(op, local + remote)
  {
    var localTmp, remoteTmp := Reduce(op, remote), Reduce(op, local);
    var localLeader, remoteLeader := remoteTmp, localTmp;
    localLeader := Apply(op, localTmp, localLeader);
    remoteLeader := Apply(op, remoteTmp, remoteLeader);
    localOut, remoteOut := remoteLeader, localLeader;
    ReduceConcat(op, local, remote);
    Commute(op, Reduce(op, local), Reduce(op, remote));
  }

  /** `ompi_comm_allreduce_intra_bridge`: each group reduces by itself, the leaders exchange and
      combine, and each leader hands the result to its own group. */
  method AllreduceBridge(op: Op, local: seq<int>, remote: seq<int>) returns (localOut: int, remoteOut: int)
    requires |local| > 0 && |remote| > 0
    ensures localOut == remoteOut == Reduce(op, local + remote)
  {
    var localTmp, remoteTmp := Reduce(op, local), Reduce(op, remote);
    localOut, remoteOut := remoteTmp, localTmp;
    localOut := Apply(op, localTmp, localOut);
    remoteOut := Apply(op, remoteTmp, remoteOut);
    ReduceConcat(op, local, remote);
    Commute(op, localTmp, remoteTmp);
  }

  lemma {:induction false} Commute(op: Op, a: int, b: int)
    ensures Apply(op, a, b) == Apply(op, b, a)
  {}

  lemma {:induction false} Associate(op: Op, a: int, b: int, c: int)
    ensures Apply(op, Apply(op, a, b), c) == Apply(op, a, Apply(op, b, c))
  {
    if op.OpProd? {
      assert c * (b * a) == (c * b) * a;
    }
  }

  lemma {:induction false} ReduceConcat(op: Op, s: seq<int>, t: seq<int>)
    requires |s| > 0 && |t| > 0
    ensures Reduce(op, s + t) == Apply(op, Reduce(op, s), Reduce(op, t))
    decreases |s|
  {
    assert (s + t)[1..] == s[1..] + t;
    if |s| == 1 {
      assert s[1..] + t == t;
    } else {
      ReduceConcat(op, s[1..], t);
      Associate(op, s[0], Reduce(op, s[1..]), Reduce(op, t));
      assert |s + t| > 1;
    }
  }

  // ----- the reductions of a negotiation -----

  /** Which reduction a negotiation uses: within one group, or between two, directly or by a bridge. */
  datatype Mode = Intra | Inter | Bridge

  /** One reduction over all participants, the first `local` of them in the local group: everybody gets
      the reduction over everybody, whichever way it is computed. */
  method Allreduce(mode: Mode, op: Op, values: seq<int>, local: nat) returns (results: seq<int>)
    requires |values| > 0 && (!mode.Intra? ==> 0 < local < |values|)
    ensures |results| == |values| && forall k :: 0 <= k < |results| ==> results[k] == Reduce(op, values)
  {
    var localOut, remoteOut;
    match mode {
      case Intra => localOut, remoteOut := Reduce(op, values), Reduce(op, values);
      case Inter => localOut, remoteOut := AllreduceInter(op, values[..local], values[local..]);
      case Bridge => localOut, remoteOut := AllreduceBridge(op, values[..local], values[local..]);
    }
    assert !mode.Intra? ==> values[..local] + values[local..] == values;
    results := seq(|values|, k => if k < local then localOut else remoteOut);
  }

  lemma {:induction false} ReduceMax(s: seq<int>)
    requires |s| > 0
    ensures Reduce(OpMax, s) in s && forall k :: 0 <= k < |s| ==> s[k] <= Reduce(OpMax, s)
  {
    if |s| > 1 {
      ReduceMax(s[1..]);
      forall k | 1 <= k < |s| ensures s[k] <= Reduce(OpMax, s) { assert s[k] == s[1..][k - 1]; }
    }
  }

  lemma {:induction false} ReduceMin(s: seq<int>)
    requires |s| > 0
    ensures Reduce(OpMin, s) in s && forall k :: 0 <= k < |s| ==> Reduce(OpMin, s) <= s[k]
  {
    if |s| > 1 {
      ReduceMin(s[1..]);
      forall k | 1 <= k < |s| ensures Reduce(OpMin, s) <= s[k] { assert s[k] == s[1..][k - 1]; }
    }
  }

  // ----- the negotiating communicators of a process -----

  ghost predicate Ascending(s: seq<nat>) {
    forall i, j :: 0 <= i < j < |s| ==> s[i] < s[j]
  }

  class Registry {
    var cids: seq<nat>

    constructor ()
      ensures cids == []
    {
      cids := [];
    }

    /** `ompi_comm_register_cid`, with threads: a communicator negotiates once at a time. */
    method Register(cid: nat) returns (ok: bool)
      requires Ascending(cids)
      modifies this
      ensures Ascending(cids) && ok == (cid !in old(cids))
      ensures forall c :: c in cids <==> c in old(cids) || c == cid
      ensures |cids| == |old(cids)| + if ok then 1 else 0
    {
      var i := 0;
      while i < |cids| && cids[i] <= cid
        invariant i <= |cids| && cids == old(cids) && forall j :: 0 <= j < i ==> cids[j] < cid
      {
        if cids[i] == cid {
          return false;
        }
        i := i + 1;
      }
      cids := cids[..i] + [cid] + cids[i..];
      ok := true;
    }

    /** `ompi_comm_unregister_cid`. */
    method Unregister(cid: nat)
      requires Ascending(cids)
      modifies this
      ensures Ascending(cids) && forall c :: c in cids <==> c in old(cids) && c != cid
    {
      var i := 0;
      while i < |cids|
        invariant i <= |cids| && cids == old(cids) && forall j :: 0 <= j < i ==> cids[j] != cid
      {
        if cids[i] == cid {
          cids := cids[..i] + cids[i + 1..];
          break;
        }
        i := i + 1;
      }
    }

    /** `ompi_comm_lowest_cid`: the negotiation that may go on. */
    method Lowest() returns (cid: nat)
      requires Ascending(cids) && cids != []
      ensures cid in cids && forall c :: c in cids ==> cid <= c
    {
      cid := cids[0];
    }
  }
}
