/** Moving a message from one layout to another inside a process: pack a chunk, unpack it, until
    one side is complete. */
module SndRcv {
  import opened Typemap
  import opened Memory
  import opened SplitPoint
  import opened Convertors
  import opened ConvertorState
  import opened Progress

  const CHUNK: nat := 64 * 1024

  /** How many bytes both sides have. */
  ghost function Common(send: Convertor, recv: Convertor): nat
    requires |send.code| > 0 && |recv.code| > 0
  {
    if |recv.Whole()| <= |send.Whole()| then |recv.Whole()| else |send.Whole()|
  }

  /** The first `n` bytes of the message have arrived. */
  ghost predicate Moved(send: Convertor, recv: Convertor, n: nat, sent: seq<byte>, before: seq<byte>)
    reads recv.mem
  {
    && |send.code| > 0 && |recv.code| > 0 && n <= |send.Whole()| && n <= |recv.Whole()|
    && |sent| == send.mem.Length && |before| == recv.mem.Length
    && InBounds(|sent|, send.base, send.Whole()[..n]) && InBounds(|before|, recv.base, recv.Whole()[..n])
    && recv.mem[..] == Scatter(before, recv.base, recv.Whole()[..n], Gather(sent, send.base, send.Whole()[..n]))
  }

  ghost predicate Apart(send: Convertor, recv: Convertor) {
    send != recv && send.mem != recv.mem && send.stack != recv.stack
  }

  lemma {:induction false} StartMoved(send: Convertor, recv: Convertor, before: seq<byte>)
    requires send.Setup() && recv.Setup() && before == recv.mem[..]
    ensures |send.code| > 0 && |recv.code| > 0
    ensures Moved(send, recv, 0, send.mem[..], before)
  {
    assert send.Whole()[..0] == [] && recv.Whole()[..0] == [];
    assert Gather(send.mem[..], send.base, []) == [];
  }

  /** A chunk that was packed from byte `b` on and unpacked there. */
  lemma {:induction false} MovedMore(send: Convertor, recv: Convertor, b: nat, k: nat, n: nat, data: seq<byte>,
                                     sent: seq<byte>, before: seq<byte>, mid: seq<byte>)
    requires |send.code| > 0 && |recv.code| > 0 && b + n <= |send.Whole()| && b + k <= |recv.Whole()|
    requires k <= n == |data|
    requires |sent| == send.mem.Length && |before| == |mid| == recv.mem.Length
    requires InBounds(|sent|, send.base, send.Whole()[..b]) && InBounds(|before|, recv.base, recv.Whole()[..b])
    requires mid == Scatter(before, recv.base, recv.Whole()[..b], Gather(sent, send.base, send.Whole()[..b]))
    requires InBounds(|sent|, send.base, send.Whole()[b..b + n])
    requires data == Gather(sent, send.base, send.Whole()[b..b + n])
    requires recv.Written(data, k, b, mid)
    ensures Moved(send, recv, b + k, sent, before)
  {
    hide WholeTM, Scatter, InBounds;
    WrittenIs(recv, data, k, b, mid);
    BoundsSlice(|sent|, send.base, send.Whole()[b..b + n], 0, k);
    var s, r := send.Whole(), recv.Whole();
    assert s[..b] + s[b..b + k] == s[..b + k] && r[..b] + r[b..b + k] == r[..b + k];
    assert s[b..b + n][..k] == s[b..b + k];
    GatherAppend(sent, send.base, s[..b], s[b..b + k]);
    assert data[..k] == Gather(sent, send.base, s[b..b + k]);
    ScatterAppend(before, recv.base, r[..b], r[b..b + k], Gather(sent, send.base, s[..b]), data[..k]);
  }

  lemma {:induction false} WrittenIs(recv: Convertor, data: seq<byte>, k: nat, b: nat, mid: seq<byte>)
    requires recv.Written(data, k, b, mid)
    ensures |recv.code| > 0 && k <= |data| && b + k <= |recv.Whole()| && |mid| == recv.mem.Length
    ensures InBounds(|mid|, recv.base, recv.Whole()[b..b + k])
    ensures recv.mem[..] == Scatter(mid, recv.base, recv.Whole()[b..b + k], data[..k])
  {}

  // ----- where the chunks end -----

  /** The last offset up to `n` at which no element of the sender is split. */
  ghost function Boundary(code: seq<Rec>, n: nat): (b: nat)
    requires Committed(code)
    ensures b <= n
  {
    if n == 0 || MissingAt(code, n) == 0 then n else Boundary(code, n - 1)
  }

  /** Where the chunk ends that begins at byte `b` of a message of `whole` bytes. */
  ghost function NextCut(code: seq<Rec>, whole: nat, b: nat): nat
    requires Committed(code)
  {
    if whole <= b + CHUNK then whole else Boundary(code, b + CHUNK)
  }

  /** Where the last chunk begins. */
  ghost function LastCut(code: seq<Rec>, whole: nat, b: nat): nat
    requires Committed(code)
    decreases whole - b
  {
    if whole <= b + CHUNK || NextCut(code, whole, b) <= b then b else LastCut(code, whole, NextCut(code, whole, b))
  }

  lemma {:induction false} LastCutAfter(code: seq<Rec>, whole: nat, b: nat)
    requires Committed(code)
    ensures LastCut(code, whole, b) >= b
    decreases whole - b
  {
    hide MissingAt, Boundary;
    if !(whole <= b + CHUNK || NextCut(code, whole, b) <= b) { LastCutAfter(code, whole, NextCut(code, whole, b)); }
  }

  lemma {:induction false} BoundaryIs(code: seq<Rec>, n: nat, b: nat)
    requires Committed(code) && b <= n && MissingAt(code, b) == 0
    requires forall k :: b < k <= n ==> MissingAt(code, k) != 0
    ensures Boundary(code, n) == b
    decreases n
  {
    hide MissingAt;
    if b < n { BoundaryIs(code, n - 1, b); }
  }

  /** The last chunk is too short for the element of the receiver that the chunk before it split: the
      message of the sender ends inside the element in which its last chunk begins. */
  ghost predicate Starves(send: Convertor, recv: Convertor)
    requires Committed(send.code) && Committed(recv.code)
  {
    var s := LastCut(send.code, |send.Whole()|, 0);
    s < |recv.Whole()| && s + MissingAt(recv.code, s) > |send.Whole()|
  }

  /** Any other chunk holds what a split element lacks; so does the last one if the receiver has not more bytes
      than the sender, or no element of it is split where the message of the sender ends. */
  lemma {:induction false} ChunkFits(send: Convertor, recv: Convertor, b: nat, len: nat, last: bool)
    requires Committed(recv.code) && |send.code| > 0 && b + len <= |send.Whole()| && Short(recv.code)
    requires if last then b + len == |send.Whole()| else len + 16 > CHUNK
    ensures b < |recv.Whole()| && !last ==> MissingAt(recv.code, b) <= len
    ensures |recv.Whole()| <= |send.Whole()| || MissingAt(recv.code, |send.Whole()|) == 0 ==>
              b < |recv.Whole()| ==> MissingAt(recv.code, b) <= len
  {
    TMNonEmpty(Body(recv.code), 0);
    hide WholeTM, Missing, TM;
    if b < |recv.Whole()| {
      if !last { MissingShort(Body(recv.code), b % |TM(Body(recv.code), 0)|); }
      if (|recv.Whole()| <= |send.Whole()| || MissingAt(recv.code, |send.Whole()|) == 0) && last && len > 0 {
        MissingFits(recv.code, recv.extent, recv.total, b, |send.Whole()|);
      }
    }
  }

  /** Packs one chunk. */
  method SendChunk(send: Convertor, buf: array<byte>) returns (len: nat, done: bool)
    requires send.Valid() && !send.receives && send.partialLength == 0 && Short(send.code) && buf.Length == CHUNK
    requires buf != send.mem
    modifies send, send.stack, buf
    ensures send.Valid() && send.partialLength == 0 && send.bConverted == old(send.bConverted) + len && len <= CHUNK
    ensures InBounds(send.mem.Length, send.base, send.Whole()[old(send.bConverted)..send.bConverted])
    ensures buf[..len] == Gather(send.mem[..], send.base, send.Whole()[old(send.bConverted)..send.bConverted])
    ensures if done then send.bConverted == |send.Whole()| else len + 16 > CHUNK
    ensures Committed(send.code) && send.bConverted == NextCut(send.code, |send.Whole()|, old(send.bConverted))
    ensures done <==> |send.Whole()| <= old(send.bConverted) + CHUNK
  {
    hide *;
    ghost var b := send.bConverted;
    var lens;
    lens, done := send.Pack([buf]);
    len := if |lens| == 0 then 0 else lens[0];
    PackedLen(send, buf, lens, b);
    EndsAtCut(send, buf, lens, b);
  }

  /** Where a chunk ends. */
  lemma {:induction false} EndsAtCut(send: Convertor, buf: array<byte>, lens: seq<nat>, b: nat)
    requires send.Valid() && send.partialLength == 0 && buf.Length == CHUNK && |lens| <= 1
    requires send.bConverted == b + (if |lens| == 0 then 0 else lens[0]) && send.bConverted - b <= CHUNK
    requires !send.completed ==> |lens| == 1 && send.AtData() && send.Cut([buf], lens, send.stack[send.stackPos].index)
    requires send.completed ==> send.bConverted == |send.Whole()|
    ensures Committed(send.code) && send.bConverted == NextCut(send.code, |send.Whole()|, b)
    ensures send.completed <==> |send.Whole()| <= b + CHUNK
  {
    hide *;
    ValidFacts(send);
    if !send.completed {
      NextElement(send);
      CutShort(send, buf, lens, b);
      BoundaryIs(send.code, b + CHUNK, send.bConverted);
    }
    CutIs(send.code, |send.Whole()|, b);
  }

  lemma {:induction false} CutIs(code: seq<Rec>, whole: nat, b: nat)
    requires Committed(code)
    ensures NextCut(code, whole, b) == if whole <= b + CHUNK then whole else Boundary(code, b + CHUNK)
  {
    hide Boundary, MissingAt;
  }

  /** The next element does not fit, and neither does any smaller part that splits no element. */
  lemma {:induction false} CutShort(send: Convertor, buf: array<byte>, lens: seq<nat>, b: nat)
    requires Committed(send.code) && |send.code| > 0 && send.partialLength == 0 && buf.Length == CHUNK && |lens| == 1
    requires send.bConverted == b + lens[0] && send.AtData()
    requires send.Cut([buf], lens, send.stack[send.stackPos].index)
    ensures b + CHUNK < send.bConverted + send.code[send.stack[send.stackPos].index].typ.size
    ensures MissingAt(send.code, send.bConverted) == 0
    ensures forall k :: send.bConverted < k <= b + CHUNK && k < |send.Whole()| ==> MissingAt(send.code, k) != 0
  {
    hide WholeTM, MissingAt;
  }

  /** The element that comes next ends inside the message. */
  lemma {:induction false} NextElement(c: Convertor)
    requires c.Valid() && !c.completed && c.partialLength == 0 && c.AtData()
    ensures |c.code| > 0 && c.bConverted + c.code[c.stack[c.stackPos].index].typ.size <= |c.Whole()|
  {
    hide WholeTM, InBounds, Enclosing, Proper, Committed;
    var fs, top := c.stack[..c.stackPos], c.stack[c.stackPos];
    assert fs[|fs| - 1] == c.stack[c.stackPos - 1];
    Place(c.code, c.extent, c.total, fs, top.index, top.count, Top(fs).disp + top.disp, c.bConverted);
    MoveData(c.code, c.extent, c.total, fs, top.index, top.count, Top(fs).disp + top.disp, c.bConverted, 1);
  }

  lemma {:induction false} PackedLen(send: Convertor, buf: array<byte>, lens: seq<nat>, b: nat)
    requires send.Packed([buf], lens, b, send.bConverted) && send.partialLength == 0 && send.Valid()
    requires buf.Length == CHUNK && Short(send.code)
    requires !send.completed ==> |lens| == 1 && send.AtData() && send.Cut([buf], lens, send.stack[send.stackPos].index)
    ensures |lens| <= 1
    ensures var len := if |lens| == 0 then 0 else lens[0];
            && send.bConverted == b + len && len <= CHUNK
            && InBounds(send.mem.Length, send.base, send.Whole()[b..b + len])
            && buf[..len] == Gather(send.mem[..], send.base, send.Whole()[b..b + len])
            && (if send.completed then send.bConverted == |send.Whole()| else len + 16 > CHUNK)
  {
    hide WholeTM, InBounds, Gather, Committed;
    OneBuffer(buf, lens);
  }

  lemma {:induction false} ValidFacts(c: Convertor)
    requires c.Valid()
    ensures c.Setup() && Committed(c.code) && |c.code| > 0 && c.bConverted <= |c.Whole()|
    ensures c.completed ==> c.bConverted == |c.Whole()|
  {}

  /** Whether the chunk is too short for an element that the receiver has begun. */
  method TooShort(recv: Convertor, len: nat) returns (short: bool)
    requires recv.Valid()
    ensures Committed(recv.code)
    ensures short <==> !recv.completed && MissingAt(recv.code, recv.bConverted) > len
  {
    hide WholeTM, InBounds, Enclosing, Proper, MissingAt;
    LacksAt(recv);
    if recv.completed || recv.partialLength == 0 {
      return false;
    }
    var size := recv.code[recv.stack[recv.stackPos].index].typ.size;
    short := size - recv.partialLength > len;
  }

  lemma {:induction false} LacksAt(c: Convertor)
    requires c.Valid()
    ensures Committed(c.code)
    ensures !c.completed && c.partialLength > 0 ==>
              && 0 <= c.stackPos < c.stack.Length && 0 <= c.stack[c.stackPos].index < |c.code|
              && c.code[c.stack[c.stackPos].index].Data?
              && MissingAt(c.code, c.bConverted) == c.code[c.stack[c.stackPos].index].typ.size - c.partialLength
    ensures !c.completed && c.partialLength == 0 ==> MissingAt(c.code, c.bConverted) == 0
  {
    hide WholeTM, InBounds, Enclosing, Proper, MissingAt, Committed;
    if !c.completed {
      assert c.Setup() && c.Saved(c.bConverted, c.partialLength) && Committed(c.code);
      hide Convertor.Valid, Convertor.Setup;
      var fs, top := c.stack[..c.stackPos], c.stack[c.stackPos];
      assert fs[|fs| - 1] == c.stack[c.stackPos - 1];
      LacksIn(c.code, c.extent, c.total, fs, top, Top(fs).disp + top.disp, c.bConverted, c.partialLength);
    }
  }

  lemma {:induction false} LacksIn(code: seq<Rec>, extent: int, total: nat, fs: seq<Frame>, top: Frame, src: int,
                                   b: nat,
                                   p: nat)
    requires Committed(code) && p <= b && 0 <= top.index < |code| && !code[top.index].EndLoop?
    requires Proper(code, extent, total, fs, top.index, top.count, src, b - p)
    requires p > 0 ==> code[top.index].Data? && p < code[top.index].typ.size
    ensures MissingAt(code, b) == if p == 0 then 0 else code[top.index].typ.size - p
  {
    hide WholeTM, Proper, MissingAt, Committed;
    if code[top.index].Data? {
      Place(code, extent, total, fs, top.index, top.count, src, b - p);
      StopAt(code, extent, total, fs, top.index, top.count, src, b - p, p);
    } else {
      LoopLacks(code, extent, total, fs, top.index, top.count, src, b);
    }
  }

  /** No element is split where a record begins. */
  lemma {:induction false} LoopLacks(code: seq<Rec>, extent: int, total: nat, fs: seq<Frame>, pos: int, cnt: nat,
                                     src: int,
                                     b: nat)
    requires Proper(code, extent, total, fs, pos, cnt, src, b) && Committed(code)
    requires 0 <= pos < |code| && !code[pos].EndLoop?
    ensures MissingAt(code, b) == 0
    decreases |code| - pos
  {
    hide WholeTM, Proper, MissingAt, Committed, At;
    Place(code, extent, total, fs, pos, cnt, src, b);
    if code[pos].Data? {
      StopAt(code, extent, total, fs, pos, cnt, src, b, 0);
    } else {
      ProperAt(code, extent, total, fs, pos, cnt, src, b);
      Enter(code, extent, total, fs, pos, cnt, src, b);
      LoopLacks(code, extent, total, fs + [Frame(pos, cnt, src)], pos + 1, Counter(code[pos + 1]), src, b);
    }
  }

  /** One turn of the loop: pack a chunk, unpack it.  The library reads behind a chunk that is too short for an
      element that the receiver has begun; the model stops there. */
  method Chunk(send: Convertor, recv: Convertor, buf: array<byte>, ghost sent: seq<byte>, ghost before: seq<byte>)
    returns (completed: bool, starved: bool)
    requires Apart(send, recv) && send.Valid() && recv.Valid() && buf.Length == CHUNK
    requires buf != send.mem && buf != recv.mem && send.mem[..] == sent
    requires send.bConverted == recv.bConverted && !send.receives && send.partialLength == 0 && Short(send.code)
    requires recv.Splittable()
    requires Moved(send, recv, recv.bConverted, sent, before)
    modifies send, recv, send.stack, recv.stack, recv.mem, buf
    ensures send.Valid() && recv.Valid() && send.partialLength == 0 && Committed(send.code) && Committed(recv.code)
    ensures var b, whole := old(recv.bConverted), |send.Whole()|;
            && send.bConverted == NextCut(send.code, whole, b) <= whole && (whole > b + CHUNK ==> send.bConverted > b)
            && (starved <==> b < |recv.Whole()| && whole <= b + CHUNK && b + MissingAt(recv.code, b) > whole)
            && (starved ==> !completed && Moved(send, recv, b, sent, before))
            && (!starved && completed ==> Moved(send, recv, Common(send, recv), sent, before)
                                          && (whole <= b + CHUNK || |recv.Whole()| <= send.bConverted))
            && (!starved && !completed ==> send.bConverted == recv.bConverted > b && whole > b + CHUNK
                                           && Moved(send, recv, recv.bConverted, sent, before))
  {
    hide WholeTM, MissingAt, Gather, Scatter, InBounds, Committed, Convertor.Valid, Boundary;
    ghost var b, mid := recv.bConverted, recv.mem[..];
    ValidFacts(recv);
    var len, sDone := SendChunk(send, buf);
    ValidFacts(send);
    var data := buf[..len];
    assert recv.mem[..] == mid;
    ShortSplittable(recv);
    ChunkFits(send, recv, b, len, sDone);
    CompletedAt(recv);
    starved := TooShort(recv, len);
    if starved {
      return false, true;
    }
    OneFragment(recv, data, b);
    var maxData, rDone := recv.Unpack([data]);
    ValidFacts(recv);
    MovedMore(send, recv, b, maxData, len, data, sent, before, mid);
    hide Moved;
    completed := sDone || rDone;
  }

  lemma {:induction false} CompletedAt(c: Convertor)
    requires c.Valid()
    ensures |c.code| > 0 && (c.completed <==> c.bConverted == |c.Whole()|)
  {}

  /** The bytes of a message, chunk after chunk, reach the places that the receiver's typemap gives them, although
      neither side's element boundaries fall on the chunk boundaries; unless the last chunk is too short for an
      element that the receiver has begun, and then all bytes before that chunk have. */
  method Transfer(send: Convertor, recv: Convertor) returns (truncated: bool, starved: bool)
    requires Apart(send, recv) && send.Valid() && recv.Valid()
    requires send.bConverted == recv.bConverted == 0 && send.partialLength == recv.partialLength == 0
    requires !send.receives && Short(send.code) && recv.Splittable()
    modifies send, recv, send.stack, recv.stack, recv.mem
    ensures Committed(send.code) && Committed(recv.code) && (starved <==> Starves(send, recv))
    ensures !starved ==> Moved(send, recv, Common(send, recv), send.mem[..], old(recv.mem[..]))
    ensures starved ==> Moved(send, recv, LastCut(send.code, |send.Whole()|, 0), send.mem[..], old(recv.mem[..]))
    ensures truncated == (|send.Whole()| > |recv.Whole()|)
  {
    hide WholeTM, Convertor.Valid, Moved, Short, MissingAt, Boundary, LastCut, Committed;
    ghost var sent, before := send.mem[..], recv.mem[..];
    var buf := new byte[CHUNK](_ => 0);
    var completed := false;
    starved := false;
    ValidFacts(send);
    ValidFacts(recv);
    StartMoved(send, recv, before);
    ghost var b, whole := 0, |send.Whole()|;
    while !completed && !starved
      invariant send.Valid() && recv.Valid() && send.mem[..] == sent && send.bConverted <= |send.Whole()|
      invariant send.partialLength == 0
      invariant !completed && !starved ==>
                  send.bConverted == recv.bConverted == b && Moved(send, recv, recv.bConverted, sent, before)
      invariant !completed && !starved ==> LastCut(send.code, whole, b) == LastCut(send.code, whole, 0)
      invariant completed ==> Moved(send, recv, Common(send, recv), sent, before) && !starved && !Starves(send, recv)
      invariant starved ==> Starves(send, recv) && Moved(send, recv, LastCut(send.code, whole, 0), sent, before)
      decreases if completed || starved then 0 else 1, whole - send.bConverted
    {
      LastCutStep(send.code, whole, b);
      completed, starved := Chunk(send, recv, buf, sent, before);
      b := send.bConverted;
    }
    send.WholeLength();
    recv.WholeLength();
    truncated := send.total * send.size > recv.total * recv.size;
  }

  lemma {:induction false} LastCutStep(code: seq<Rec>, whole: nat, b: nat)
    requires Committed(code)
    ensures whole <= b + CHUNK ==> LastCut(code, whole, b) == b
    ensures whole > b + CHUNK && NextCut(code, whole, b) > b ==>
              LastCut(code, whole, b) == LastCut(code, whole, NextCut(code, whole, b)) >= NextCut(code, whole, b)
  {
    hide MissingAt, Boundary;
    LastCutAfter(code, whole, NextCut(code, whole, b));
  }

  lemma {:induction false} OneBuffer(buf: array<byte>, lens: seq<nat>)
    requires |lens| <= 1 && (|lens| == 1 ==> lens[0] <= buf.Length)
    ensures Concat([buf][..|lens|], lens) == buf[..if |lens| == 0 then 0 else lens[0]]
  {
    if |lens| == 1 {
      assert lens[..0] == [] && [buf][..1] == [buf];
      assert Concat([buf], lens) == Concat([buf][..0], lens[..0]) + buf[..lens[0]];
    }
  }

  lemma {:induction false} OneFragment(recv: Convertor, data: seq<byte>, b: nat)
    requires Committed(recv.code) && (b < |recv.Whole()| ==> MissingAt(recv.code, b) <= |data|)
    ensures recv.Fragments([data], b) && Flat([data]) == data
  {
    assert FlatTo([data], 0) == [];
    assert FlatTo([data], 1) == FlatTo([data], 0) + data;
  }

  lemma {:induction false} ShortSplittable(c: Convertor)
    requires c.Splittable()
    ensures Short(c.code)
  {}

  /** With the same typemap on both sides, the receiver ends up with exactly the typemap bytes of
      the sender, and every byte in a gap or around the message keeps its value. */
  lemma {:induction false} MovedRestores(send: Convertor, recv: Convertor, sent: seq<byte>, before: seq<byte>)
    requires |send.code| > 0 && |recv.code| > 0 && send.Whole() == recv.Whole() && NoOverlap(recv.Whole())
    requires Moved(send, recv, Common(send, recv), sent, before)
    ensures forall k :: 0 <= k < |recv.Whole()| ==>
              0 <= recv.base + recv.Whole()[k] < recv.mem.Length && 0 <= send.base + recv.Whole()[k] < |sent|
              && recv.mem[recv.base + recv.Whole()[k]] == sent[send.base + recv.Whole()[k]]
    ensures forall i :: 0 <= i < recv.mem.Length && i - recv.base !in recv.Whole() ==> recv.mem[i] == before[i]
  {
    hide WholeTM, Gather, Scatter, NoOverlap;
    var tm := recv.Whole();
    assert tm[..|tm|] == tm;
    RoundTrip(sent, send.base, before, recv.base, tm);
    assert forall i :: 0 <= i < recv.mem.Length ==> recv.mem[i] == recv.mem[..][i];
  }

  // ----- a chunk that is too short -----

  const CHAR: Basic := Basic(0x04, 1)
  const DOUBLE: Basic := Basic(0x12, 8)

  /** The sender has 65538 chars, the receiver 4 chars and then 9000 doubles: the first chunk ends in the middle of
      a double that lacks 4 bytes, and 2 bytes are left for the second one. */
  lemma {:induction false} StarvedExample(send: Convertor, recv: Convertor)
    requires send.code == [Data(CHAR, 65538, 0, 1, true), EndLoop(1, 65538, 0)] && send.total == 1
    requires recv.code == [Data(CHAR, 4, 0, 1, true), Data(DOUBLE, 9000, 4, 8, true), EndLoop(2, 72004, 0)]
    requires recv.total == 1
    ensures Committed(send.code) && Committed(recv.code) && Starves(send, recv)
    ensures LastCut(send.code, |send.Whole()|, 0) == 65536 && MissingAt(recv.code, 65536) == 4
    ensures |send.Whole()| == 65538
  {
    CharsOnly(send.code, send.extent);
    CharsDoubles(recv.code, recv.extent);
    hide MissingAt, WholeTM, Committed;
    assert NextCut(send.code, 65538, 0) == 65536;
    assert LastCut(send.code, 65538, 65536) == 65536;
  }

  lemma {:induction false} CharsOnly(code: seq<Rec>, extent: int)
    requires code == [Data(CHAR, 65538, 0, 1, true), EndLoop(1, 65538, 0)]
    ensures Committed(code) && |WholeTM(code, 1, extent)| == 65538 && MissingAt(code, 65536) == 0
    ensures Boundary(code, 65536) == 65536
  {
    var c := [code[0]];
    assert Body(code) == c && c[1..] == [] && WF([]) && TM([], 0) == [];
    ElemsLength(1, 65538, 0, 1);
    IterLength(c, 0, extent, 1);
    hide Elems;
    assert |TM(c, 0)| == 65538;
  }

  lemma {:induction false} CharsDoubles(code: seq<Rec>, extent: int)
    requires code == [Data(CHAR, 4, 0, 1, true), Data(DOUBLE, 9000, 4, 8, true), EndLoop(2, 72004, 0)]
    ensures Committed(code) && |WholeTM(code, 1, extent)| == 72004 && MissingAt(code, 65536) == 4
  {
    var c, d := [code[0], code[1]], [code[1]];
    assert Body(code) == c && c[1..] == d && d[1..] == [] && WF([]) && TM([], 0) == [] && WF(d) && WF(c);
    ElemsLength(1, 4, 0, 1);
    ElemsLength(8, 9000, 4, 8);
    IterLength(c, 0, extent, 1);
    hide Elems, WF;
    assert |TM(d, 0)| == 72000 && |TM(c, 0)| == 72004;
    assert Missing(d, 65532) == 4;
    assert Missing(c, 65536) == Missing(d, 65532);
  }
}
