/** The unpack and copy functions cast the extent of a data record to 32 bits before they compare it
    with the element size.  `Read` is the description as they read it.

    Source: openmpi-1.4.2/ompi/datatype/datatype_unpack.h:34, dt_copy.c:58. */
module ReadExtent {
  import opened Typemap

  const WRAP: nat := 0x1_0000_0000

  /** A record whose extent the cast takes for the element size. */
  function ReadRec(r: Rec): Rec {
    if r.Data? && r.typ.size == r.extent % WRAP then Data(r.typ, r.count, r.disp, r.typ.size, r.contiguous) else r
  }

  function Read(c: seq<Rec>): (d: seq<Rec>)
    ensures |d| == |c|
    ensures forall i :: 0 <= i < |c| ==> d[i] == ReadRec(c[i])
  {
    seq(|c|, i requires 0 <= i < |c| => ReadRec(c[i]))
  }

  /** Several elements whose extent is taken for their size although it is a different one. */
  predicate Confused(r: Rec) {
    r.Data? && r.count >= 2 && r.typ.size == r.extent % WRAP && r.extent != r.typ.size
  }

  ghost predicate Clear(c: seq<Rec>) {
    forall i :: 0 <= i < |c| ==> !Confused(c[i])
  }

  /** The elements are moved to the right places exactly if they are not confused. */
  lemma {:induction false} CastExact(r: Rec, disp: int)
    requires r.Data? && r.typ.size >= 1 && r.count >= 1
    ensures |Elems(r.typ.size, r.count, disp, ReadRec(r).extent)| == |Elems(r.typ.size, r.count, disp, r.extent)|
    ensures Elems(r.typ.size, r.count, disp, ReadRec(r).extent) == Elems(r.typ.size, r.count, disp, r.extent) <==>
              !Confused(r)
  {
    ElemsLength(r.typ.size, r.count, disp, r.extent);
    ElemsLength(r.typ.size, r.count, disp, ReadRec(r).extent);
    ElemsRunIff(r.typ.size, r.count, disp, r.extent);
    ElemsRunIff(r.typ.size, r.count, disp, r.typ.size);
    hide Elems, Run;
  }

  /** A record is confused if its extent differs from the size, but only by a multiple of 2^32. */
  lemma {:induction false} ConfusedIs(r: Rec)
    requires r.Data?
    ensures Confused(r) <==> r.count >= 2 && r.extent != r.typ.size && r.typ.size < 0x1_0000_0000
                             && (r.extent - r.typ.size) % 0x1_0000_0000 == 0
  {}

  lemma {:induction false} ReadSlice(c: seq<Rec>, i: nat, j: nat)
    requires i <= j <= |c|
    ensures Read(c)[i..j] == Read(c[i..j])
  {}

  lemma {:induction false} ClearParts(c: seq<Rec>, i: nat, j: nat)
    requires i <= j <= |c|
    ensures Clear(c) <==> Clear(c[..i]) && Clear(c[i..j]) && Clear(c[j..])
  {
    if Clear(c[..i]) && Clear(c[i..j]) && Clear(c[j..]) {
      forall k | 0 <= k < |c| ensures !Confused(c[k]) {
        assert if k < i then c[k] == c[..i][k] else if k < j then c[k] == c[i..j][k - i] else c[k] == c[j..][k - j];
      }
    }
  }

  /** What a description denotes as it is read: as many bytes as it should, beginning at the same place,
      and the right ones exactly if no record is confused. */
  ghost predicate ReadSame(c: seq<Rec>) {
    && |TM(Read(c), 0)| == |TM(c, 0)| && First(Read(c)) == First(c) && WF(Read(c))
    && (TM(Read(c), 0) == TM(c, 0) <==> Clear(c))
  }

  lemma {:induction false} ReadTM(c: seq<Rec>)
    requires WF(c)
    ensures ReadSame(c)
    decreases |c|, 1
  {
    if c != [] {
      if c[0].Data? { ReadData(c); } else { hide ReadSame; ReadLoop(c); }
    }
  }

  lemma {:induction false} ReadData(c: seq<Rec>)
    requires WF(c) && c != [] && c[0].Data?
    ensures ReadSame(c)
    decreases |c|, 0
  {
    var r, rest := c[0], c[1..];
    ReadTM(rest);
    ReadSlice(c, 1, |c|);
    assert c[1..|c|] == rest && Read(c)[1..|c|] == Read(c)[1..];
    CastExact(r, r.disp);
    ClearParts(c, 0, 1);
    assert c[0..1] == [r];
    hide Elems, Read;
    CatEqual(Elems(r.typ.size, r.count, r.disp, ReadRec(r).extent), TM(Read(rest), 0),
             Elems(r.typ.size, r.count, r.disp, r.extent), TM(rest, 0));
    hide WF, First;
    assert 0 + r.disp == r.disp;
    assert Clear([r]) <==> !Confused(r);
  }

  lemma {:induction false} ReadLoop(c: seq<Rec>)
    requires WF(c) && c != [] && c[0].Loop?
    ensures ReadSame(c)
    decreases |c|, 0
  {
    var loop, items := c[0], c[0].items;
    var body, rest := c[1..items], c[items + 1..];
    LoopIs(c, body, rest);
    hide WF, TM, First, Run, Iter, Clear, ReadSame, Confused;
    ReadTM(body);
    ReadTM(rest);
    ReadSlice(c, 1, items);
    ReadSlice(c, items + 1, |c|);
    assert c[items + 1..|c|] == rest && Read(c)[items + 1..|c|] == Read(c)[items + 1..];
    var d := Read(c);
    assert d[0] == loop && d[items] == c[items] && d[1..items] == Read(body) && d[items + 1..] == Read(rest);
    hide Read;
    ClearLoop(c);
    if c[0].contiguous { RunClear(body, c[items].first, c[items].size); }
    ReadLoopSame(c, d, body, rest);
  }

  lemma {:induction false} ClearLoop(c: seq<Rec>)
    requires c != [] && c[0].Loop? && 2 <= c[0].items < |c| && c[c[0].items].EndLoop?
    ensures Clear(c) <==> Clear(c[1..c[0].items]) && Clear(c[c[0].items + 1..])
  {
    var items := c[0].items;
    ClearParts(c, 1, items);
    ClearParts(c[items..], 1, 1);
    assert c[items..][1..] == c[items + 1..] && c[items..][..1] == [c[items]] && c[..1] == [c[0]];
  }

  /** Records that denote one run of bytes are not confused. */
  lemma {:induction false} RunClear(c: seq<Rec>, first: int, n: nat)
    requires WF(c) && TM(c, 0) == Run(first, n)
    ensures Clear(c)
    decreases |c|
  {
    if c != [] {
      if c[0].Data? {
        var e := Elems(c[0].typ.size, c[0].count, c[0].disp, c[0].extent);
        ElemsLength(c[0].typ.size, c[0].count, c[0].disp, c[0].extent);
        RunParts(e, TM(c[1..], 0), first, n);
        ElemsRunIff(c[0].typ.size, c[0].count, c[0].disp, c[0].extent);
        RunClear(c[1..], first + |e|, n - |e|);
        assert c[0].disp == first by { assert e[0] == c[0].disp; }
        hide WF, TM, Elems, Run;
        assert !Confused(c[0]);
      } else {
        var items := c[0].items;
        var body, rest := c[1..items], c[items + 1..];
        LoopIs(c, body, rest);
        var u := Iter(body, 0, c[0].extent, c[0].loops);
        RunParts(u, TM(rest, 0), first, n);
        var v := Iter(body, c[0].extent, c[0].extent, c[0].loops - 1);
        assert u == TM(body, 0) + v;
        RunParts(TM(body, 0), v, first, |u|);
        RunClear(body, first, |TM(body, 0)|);
        RunClear(rest, first + |u|, n - |u|);
        ClearLoop(c);
      }
    }
  }

  lemma {:induction false} RunParts(a: seq<int>, b: seq<int>, first: int, n: nat)
    requires a + b == Run(first, n)
    ensures |a| <= n && a == Run(first, |a|) && b == Run(first + |a|, n - |a|)
  {
    assert a == (a + b)[..|a|] && b == (a + b)[|a|..];
  }

  /** The parts of a loop and the rest determine a stretch. */
  lemma {:induction false} LoopIs(c: seq<Rec>, body: seq<Rec>, rest: seq<Rec>)
    requires c != [] && c[0].Loop? && 2 <= c[0].items < |c| && c[1..c[0].items] == body && c[c[0].items + 1..] == rest
    ensures TM(c, 0) == Iter(body, 0, c[0].extent, c[0].loops) + TM(rest, 0)
    ensures First(c) == First(c[1..])
    ensures WF(c) <==>
              && 1 <= c[0].loops && WF(body) && WF(rest)
              && c[c[0].items] == EndLoop(c[0].items, |TM(body, 0)|, First(body))
              && (c[0].contiguous ==> TM(body, 0) == Run(c[c[0].items].first, c[c[0].items].size))
    ensures WF(body) ==> First(c) == First(body)
  {
    assert c[1..][..c[0].items - 1] == body;
    if WF(body) { FirstPrefix(c[1..], c[0].items - 1); }
    hide Iter, Run;
  }

  /** A body that is one run of bytes is not confused. */
  lemma {:induction false} ReadLoopSame(c: seq<Rec>, d: seq<Rec>, body: seq<Rec>, rest: seq<Rec>)
    requires WF(c) && c[..] == c && c != [] && c[0].Loop? && 2 <= c[0].items < |c| && |d| == |c| && d == Read(c)
    requires d[0] == c[0] && d[c[0].items] == c[c[0].items] && c[1..c[0].items] == body && c[c[0].items + 1..] == rest
    requires d[1..c[0].items] == Read(body) && d[c[0].items + 1..] == Read(rest) && ReadSame(body) && ReadSame(rest)
    requires Clear(c) <==> Clear(body) && Clear(rest)
    requires c[0].contiguous ==> Clear(body)
    ensures ReadSame(c)
  {
    hide Read, Clear;
    LoopIs(c, body, rest);
    LoopIs(d, Read(body), Read(rest));
    IterEqual(Read(body), body, 0, c[0].extent, c[0].loops);
    CatEqual(Iter(Read(body), 0, c[0].extent, c[0].loops), TM(Read(rest), 0), Iter(body, 0, c[0].extent, c[0].loops),
             TM(rest, 0));
    hide TM, WF, First, Iter, Run;
  }

  lemma {:induction false} ReadCommitted(code: seq<Rec>)
    requires Committed(code)
    ensures Committed(Read(code)) && Body(Read(code)) == Read(Body(code))
    ensures |TM(Body(Read(code)), 0)| == |TM(Body(code), 0)|
  {
    ReadSlice(code, 0, |code| - 1);
    assert code[0..|code| - 1] == Body(code) && Read(code)[0..|code| - 1] == Body(Read(code));
    ReadTM(Body(code));
    hide WF, TM, First;
  }

  /** Unpacking and copying use the typemap exactly if no record is confused. */
  lemma {:induction false} ReadWhole(code: seq<Rec>, total: nat, extent: int)
    requires Committed(code) && total >= 1
    ensures Committed(Read(code)) && |WholeTM(Read(code), total, extent)| == |WholeTM(code, total, extent)|
    ensures WholeTM(Read(code), total, extent) == WholeTM(code, total, extent) <==> Clear(Body(code))
  {
    ReadCommitted(code);
    ReadTM(Body(code));
    hide WF, TM, First, Clear;
    IterEqual(Body(Read(code)), Body(code), 0, extent, total);
  }

  /** Two elements of 4 bytes whose distance is 2^32 + 4 are read as 8 adjacent bytes. */
  lemma {:induction false} ConfusedExample()
    ensures var r := Data(Basic(0x0B, 4), 2, 0, WRAP + 4, true);
            && WF([r]) && Confused(r) && TM([r], 0) == Run(0, 4) + Run(WRAP + 4, 4) && TM(Read([r]), 0) == Run(0, 8)
  {
    var r, d := Data(Basic(0x0B, 4), 2, 0, WRAP + 4, true), Data(Basic(0x0B, 4), 2, 0, 4, true);
    assert Read([r]) == [d] && [r][1..] == [] && [d][1..] == [];
    ElemsRun(4, 2, 0);
    assert Elems(4, 1, WRAP + 4, WRAP + 4) == Run(WRAP + 4, 4) + Elems(4, 0, WRAP + 4 + (WRAP + 4), WRAP + 4);
    assert Elems(4, 2, 0, WRAP + 4) == Run(0, 4) + Elems(4, 1, WRAP + 4, WRAP + 4);
    hide Elems, Run;
    assert TM([d], 0) == Elems(4, 2, 0, 4) + [];
    assert TM([r], 0) == Elems(4, 2, 0, WRAP + 4) + [];
  }
}
