/** Whole runs: a message is packed by any number of calls, the stream is cut again in any way, and
    it is unpacked by any number of calls. */
module Streams {
  import opened Typemap
  import opened Memory
  import opened SplitPoint
  import opened Convertors
  import opened SndRcv

  // ----- packing -----

  /** The buffers of all calls. */
  ghost function Buffers(calls: seq<seq<array<byte>>>): set<array<byte>> {
    set i, j | 0 <= i < |calls| && 0 <= j < |calls[i]| :: calls[i][j]
  }

  /** Within a call the buffers are different ones; none is the user's memory. */
  ghost predicate Separate(send: Convertor, iov: seq<array<byte>>) {
    send.mem !in iov && forall i, j :: 0 <= i < j < |iov| ==> iov[i] != iov[j]
  }

  /** `data` is the beginning of the message. */
  ghost predicate Streamed(send: Convertor, data: seq<byte>)
    reads send.mem
  {
    && |send.code| > 0 && |data| <= |send.Whole()|
    && InBounds(send.mem.Length, send.base, send.Whole()[..|data|])
    && data == Gather(send.mem[..], send.base, send.Whole()[..|data|])
  }

  /** The bytes that a call put into its buffers. */
  method Collect(iov: seq<array<byte>>, lens: seq<nat>) returns (data: seq<byte>)
    requires |lens| <= |iov| && forall i :: 0 <= i < |lens| ==> lens[i] <= iov[i].Length
    ensures data == Concat(iov[..|lens|], lens)
  {
    data := [];
    assert iov[..0] == [] && lens[..0] == [];
    for i := 0 to |lens|
      invariant data == Concat(iov[..i], lens[..i])
    {
      ConcatSnoc(iov, lens[..i], i, lens[i]);
      assert lens[..i] + [lens[i]] == lens[..i + 1];
      data := data + iov[i][..lens[i]];
    }
    assert lens[..|lens|] == lens;
  }

  lemma {:induction false} StreamedNothing(send: Convertor)
    requires send.Setup()
    ensures Streamed(send, [])
  {
    hide WholeTM;
    assert send.Whole()[..0] == [];
  }

  lemma {:induction false} StreamedMore(send: Convertor, a: seq<byte>, b: seq<byte>, end: nat)
    requires Streamed(send, a) && |a| <= end <= |send.Whole()|
    requires InBounds(send.mem.Length, send.base, send.Whole()[|a|..end])
    requires b == Gather(send.mem[..], send.base, send.Whole()[|a|..end])
    ensures Streamed(send, a + b) && |a + b| == end
  {
    hide WholeTM;
    GatherAppend(send.mem[..], send.base, send.Whole()[..|a|], send.Whole()[|a|..end]);
    assert send.Whole()[..|a|] + send.Whole()[|a|..end] == send.Whole()[..end];
  }

  /** One call. */
  method PackCall(send: Convertor, iov: seq<array<byte>>, data: seq<byte>) returns (longer: seq<byte>)
    requires send.Valid() && !send.receives && send.partialLength == 0 && Separate(send, iov)
    requires Streamed(send, data) && |data| == send.bConverted
    modifies send, send.stack, iov
    ensures send.Valid() && send.partialLength == 0
    ensures Streamed(send, longer) && |longer| == send.bConverted && send.mem[..] == old(send.mem[..])
  {
    hide *;
    SeparateFacts(send, iov);
    var lens, status := send.Pack(iov);
    PackedFacts(send, iov, lens, data);
    var more := Collect(iov, lens);
    StreamedMore(send, data, more, send.bConverted);
    longer := data + more;
  }

  lemma {:induction false} SeparateFacts(send: Convertor, iov: seq<array<byte>>)
    requires Separate(send, iov)
    ensures send.mem !in iov && forall i, j :: 0 <= i < j < |iov| ==> iov[i] != iov[j]
  {}

  lemma {:induction false} PackedFacts(send: Convertor, iov: seq<array<byte>>, lens: seq<nat>, data: seq<byte>)
    requires Streamed(send, data) && send.Packed(iov, lens, |data|, send.bConverted)
    ensures |send.code| > 0 && |lens| <= |iov| && (forall i :: 0 <= i < |lens| ==> lens[i] <= iov[i].Length)
    ensures |data| <= send.bConverted <= |send.Whole()|
    ensures InBounds(send.mem.Length, send.base, send.Whole()[|data|..send.bConverted])
    ensures Concat(iov[..|lens|], lens) == Gather(send.mem[..], send.base, send.Whole()[|data|..send.bConverted])
  {
    hide WholeTM, Gather, InBounds, Concat;
  }

  /** Any number of calls.  What they packed is the beginning of the message. */
  method PackRun(send: Convertor, calls: seq<seq<array<byte>>>) returns (data: seq<byte>)
    requires send.Valid() && !send.receives && send.bConverted == 0 && send.partialLength == 0
    requires forall i :: 0 <= i < |calls| ==> Separate(send, calls[i])
    modifies send, send.stack, Buffers(calls)
    ensures send.Valid() && send.partialLength == 0 && send.mem[..] == old(send.mem[..])
    ensures Streamed(send, data) && |data| == send.bConverted
    ensures send.completed <==> data == Gather(send.mem[..], send.base, send.Whole())
  {
    hide Convertor.Valid, WholeTM, Gather, InBounds, Committed;
    ValidFacts(send);
    StreamedNothing(send);
    data := [];
    for i := 0 to |calls|
      invariant send.Valid() && send.partialLength == 0 && send.mem[..] == old(send.mem[..])
      invariant Streamed(send, data) && |data| == send.bConverted
    {
      assert Separate(send, calls[i]);
      assert forall j :: 0 <= j < |calls[i]| ==> calls[i][j] in Buffers(calls);
      data := PackCall(send, calls[i], data);
    }
    Complete(send, data);
  }

  /** The message is complete if nothing of the typemap is left. */
  lemma {:induction false} Complete(send: Convertor, data: seq<byte>)
    requires send.Valid() && Streamed(send, data) && |data| == send.bConverted
    ensures InBounds(send.mem.Length, send.base, send.Whole())
    ensures send.completed <==> data == Gather(send.mem[..], send.base, send.Whole())
  {
    hide WholeTM, Convertor.Saved;
    assert send.Whole()[..|send.Whole()|] == send.Whole();
  }

  // ----- unpacking -----

  /** All fragments of all calls. */
  ghost function Stream(calls: seq<seq<seq<byte>>>): seq<byte> {
    if calls == [] then [] else Stream(calls[..|calls| - 1]) + Flat(calls[|calls| - 1])
  }

  /** Whenever a fragment follows a split element, it holds what that element lacks. */
  ghost predicate Acceptable(recv: Convertor, calls: seq<seq<seq<byte>>>) {
    forall i :: 0 <= i < |calls| ==> recv.Fragments(calls[i], |Stream(calls[..i])|)
  }

  lemma {:induction false} StreamNext(calls: seq<seq<seq<byte>>>, i: nat)
    requires i < |calls|
    ensures Stream(calls[..i + 1]) == Stream(calls[..i]) + Flat(calls[i])
  {
    assert calls[..i + 1][..i] == calls[..i];
  }

  /** The fragments so far reached user memory, unless the message ended before. */
  ghost predicate Taken(recv: Convertor, data: seq<byte>, before: seq<byte>)
    reads recv, recv.mem
  {
    && recv.Written(data, recv.bConverted, 0, before)
    && (!recv.completed ==> recv.bConverted == |data|)
  }

  /** Fragments that come after the end of the message are not used. */
  lemma {:induction false} WrittenLonger(recv: Convertor, a: seq<byte>, x: seq<byte>, n: nat, before: seq<byte>)
    requires recv.Written(a, n, 0, before)
    ensures recv.Written(a + x, n, 0, before)
  {
    hide WholeTM, Scatter, InBounds;
    assert (a + x)[..n] == a[..n];
  }

  lemma {:induction false} WrittenFacts(recv: Convertor, a: seq<byte>, n: nat, before: seq<byte>)
    requires recv.Written(a, n, 0, before)
    ensures |recv.code| > 0 && n <= |a| && 0 + n <= |recv.Whole()| && |before| == recv.mem.Length
    ensures InBounds(|before|, recv.base, recv.Whole()[0..0 + n])
    ensures recv.mem[..] == Scatter(before, recv.base, recv.Whole()[0..0 + n], a[..n])
  {}

  lemma {:induction false} NothingMoved(recv: Convertor, x: seq<byte>, b: nat, mid: seq<byte>)
    requires recv.Written(x, 0, b, mid)
    ensures recv.mem[..] == mid
  {
    hide WholeTM;
    assert recv.Whole()[b..b + 0] == [] && x[..0] == [];
    ScatterNothing(mid, recv.base);
  }

  lemma {:induction false} AtEnd(recv: Convertor)
    requires recv.Valid() && |recv.code| > 0 && |recv.Whole()| <= recv.bConverted
    ensures recv.completed && recv.bConverted == |recv.Whole()|
  {
    hide WholeTM, Convertor.Saved, Convertor.Setup;
  }

  /** One call. */
  method UnpackCall(recv: Convertor, iov: seq<seq<byte>>, ghost data: seq<byte>, ghost before: seq<byte>)
    requires recv.Valid() && recv.Splittable() && Taken(recv, data, before)
    requires recv.Fragments(iov, |data|)
    modifies recv, recv.stack, recv.mem
    ensures recv.Valid() && Taken(recv, data + Flat(iov), before)
  {
    hide Convertor.Valid, Convertor.Written, Convertor.Fragments, WholeTM, Scatter, InBounds, Committed;
    ValidFacts(recv);
    ghost var b, mid, all := recv.bConverted, recv.mem[..], data + Flat(iov);
    if recv.completed {
      WrittenLonger(recv, data, Flat(iov), b, before);
      WrittenFacts(recv, all, b, before);
      var n, _ := recv.Unpack(iov);
      AtEnd(recv);
      NothingMoved(recv, Flat(iov), b, mid);
      recv.SplitWritten(all, b, 0, before);
    } else {
      WrittenFacts(recv, data, b, before);
      assert data[..b] == data;
      var n, _ := recv.Unpack(iov);
      ValidFacts(recv);
      recv.JoinWritten(data, Flat(iov), n, 0, before, mid);
    }
  }

  /** Any number of calls. */
  method UnpackRun(recv: Convertor, calls: seq<seq<seq<byte>>>)
    requires recv.Valid() && recv.Splittable() && recv.bConverted == 0 && Acceptable(recv, calls)
    modifies recv, recv.stack, recv.mem
    ensures recv.Valid() && Taken(recv, Stream(calls), old(recv.mem[..]))
  {
    hide Convertor.Valid, Convertor.Written, Convertor.Fragments, Convertor.Splittable, WholeTM;
    ghost var before := recv.mem[..];
    ValidFacts(recv);
    recv.NothingWritten([], 0);
    assert calls[..0] == [];
    for i := 0 to |calls|
      invariant recv.Valid() && Taken(recv, Stream(calls[..i]), before)
    {
      StreamNext(calls, i);
      UnpackCall(recv, calls[i], Stream(calls[..i]), before);
    }
    assert calls[..|calls|] == calls;
  }

  // ----- both sides -----

  /** The receiver holds the bytes of the sender at the displacements of the typemap, and what it
      held before everywhere else. */
  ghost predicate Restored(send: Convertor, recv: Convertor, sent: seq<byte>, before: seq<byte>)
    reads recv.mem
    requires |recv.code| > 0
  {
    && |before| == recv.mem.Length
    && (forall k :: 0 <= k < |recv.Whole()| ==>
          && 0 <= recv.base + recv.Whole()[k] < recv.mem.Length && 0 <= send.base + recv.Whole()[k] < |sent|
          && recv.mem[recv.base + recv.Whole()[k]] == sent[send.base + recv.Whole()[k]])
    && (forall i :: 0 <= i < recv.mem.Length && i - recv.base !in recv.Whole() ==> recv.mem[i] == before[i])
  }

  /** Packing in any number of calls, cutting the stream again in any way that does not starve a split
      element, and unpacking in any number of calls restores exactly the bytes of the typemap. */
  method RoundTrip(send: Convertor, recv: Convertor, buffers: seq<seq<array<byte>>>,
                   cut: seq<byte> -> seq<seq<seq<byte>>>)
    requires Apart(send, recv) && send.Valid() && !send.receives && recv.Valid() && recv.Splittable()
    requires send.bConverted == recv.bConverted == 0 && send.partialLength == 0
    requires forall i :: 0 <= i < |buffers| ==> Separate(send, buffers[i])
    requires recv.mem !in Buffers(buffers)
    requires forall s :: Stream(cut(s)) == s && Acceptable(recv, cut(s))
    modifies send, recv, send.stack, recv.stack, recv.mem, Buffers(buffers)
    ensures send.Valid() && recv.Valid() && send.mem[..] == old(send.mem[..])
    ensures Moved(send, recv, recv.bConverted, send.mem[..], old(recv.mem[..]))
    ensures recv.completed || recv.bConverted == send.bConverted
    ensures send.completed && send.Whole() == recv.Whole() ==> recv.completed
    ensures send.completed && send.Whole() == recv.Whole() && NoOverlap(recv.Whole()) ==>
              Restored(send, recv, send.mem[..], old(recv.mem[..]))
  {
    hide Convertor.Valid, Convertor.Splittable, WholeTM, Acceptable, NoOverlap;
    ghost var sent, before := send.mem[..], recv.mem[..];
    var data := PackRun(send, buffers);
    UnpackRun(recv, cut(data));
    Arrived(send, recv, data, sent, before);
    if send.completed && send.Whole() == recv.Whole() {
      AllArrived(send, recv);
      if NoOverlap(recv.Whole()) {
        MovedRestores(send, recv, sent, before);
      }
    }
  }

  lemma {:induction false} Arrived(send: Convertor, recv: Convertor, data: seq<byte>, sent: seq<byte>,
                                   before: seq<byte>)
    requires Streamed(send, data) && sent == send.mem[..] && recv.Valid() && Taken(recv, data, before)
    ensures Moved(send, recv, recv.bConverted, sent, before)
  {
    hide WholeTM, Convertor.Valid;
    ValidFacts(recv);
    WrittenFacts(recv, data, recv.bConverted, before);
    assert send.Whole()[..0] == [] && recv.Whole()[..0] == [];
    ScatterNothing(before, recv.base);
    assert Gather(sent, send.base, []) == [];
    MovedMore(send, recv, 0, recv.bConverted, |data|, data, sent, before, before);
  }

  lemma {:induction false} AllArrived(send: Convertor, recv: Convertor)
    requires send.Valid() && recv.Valid() && send.completed && |send.code| > 0 && |recv.code| > 0
    requires send.Whole() == recv.Whole()
    requires recv.completed || recv.bConverted == send.bConverted
    ensures recv.completed && recv.bConverted == |recv.Whole()|
  {
    hide WholeTM, Convertor.Saved, Convertor.Setup;
    if recv.completed {
      AtEnd(recv);
    }
  }
}
