/** Room on the stacks.  A convertor, the direct copy and the compiler allocate their stacks by the
    number of loops that a datatype keeps.  How many entries each of them uses is known from the
    description; here is what an add does to the number and to the entries.

    Source: openmpi-1.4.2/ompi/datatype/convertor.c:504-513, dt_copy.c:193, dt_optimize.c:84 and
    dt_add.c:263-331. */
module StackRoom {
  import opened Typemap
  import opened BuilderSpec
  import opened Builder
  import opened Layout
  import opened Nesting
  import opened ConvertorState
  import opened Convertors
  import O = OptimizeSpec
  import P = Progress
  import Canonical
  import opened Memory
  import DirectCopy
  import Optimize
  import Constructors

  const DT_STATIC_STACK_SIZE: nat := 5

  // ----- what a convertor uses -----

  /** There is a state at a data record with an entry for the whole message and one for every loop of
      the deepest nest. */
  lemma {:induction false} DeepestState(code: seq<Rec>, extent: int, total: nat)
    returns (fs: seq<Frame>, pos: int, b: nat)
    requires Committed(code) && total >= 1
    ensures |fs| == 1 + Depth(User.Convertor, Body(code)) && 0 <= pos < |code| && code[pos].Data?
    ensures P.Proper(code, extent, total, fs, pos, Counter(code[pos]), Top(fs).disp, b)
    ensures b < |WholeTM(code, total, extent)|
  {
    var start := [Frame(-1, total, 0)];
    P.StartStack(code, extent, total);
    hide WF, TM, Iter, FramesOK, After, OK, RemAt, Depth;
    assert code[0..|code| - 1] == Body(code);
    assert BodyAt(code, extent, total, start, 0, |code| - 1);
    fs, pos := Descend(code, extent, total, start, 0);
    b := StateAt(code, extent, total, fs, pos);
  }

  /** From a record that is not begun to the deepest one of the rest of the body. */
  lemma {:induction false} Descend(code: seq<Rec>, extent: int, total: nat, fs: seq<Frame>, pos: int)
    returns (gs: seq<Frame>, at: int)
    requires |fs| >= 1 && Framed(code, Top(fs)) && BodyAt(code, extent, total, fs, pos, Hi(code, Top(fs)))
    ensures |gs| == |fs| + Depth(User.Convertor, code[pos..Hi(code, Top(fs))]) && 0 <= at < |code| && code[at].Data?
    ensures OK(code, extent, total, gs, at, Counter(code[at]), Top(gs).disp)
    decreases Hi(code, Top(fs)) - pos
  {
    hide *;
    var hi := Hi(code, Top(fs));
    BodyFacts(code, extent, total, fs, pos, hi);
    DepthAt(User.Convertor, code, pos, hi);
    if code[pos].Data? {
      if Depth(User.Convertor, code[pos + 1..hi]) == 0 {
        gs, at := fs, pos;
      } else {
        NoneDeep(code, pos + 1, hi);
        gs, at := Descend(code, extent, total, fs, pos + 1);
      }
    } else {
      var n := code[pos].items;
      var inner, rest := Depth(User.Convertor, code[pos + 1..pos + n]), Depth(User.Convertor, code[pos + n + 1..hi]);
      IntoEvery(code[pos..hi], inner, rest);
      if 1 + inner >= rest {
        var more := Pushed(code, extent, total, fs, pos);
        gs, at := Descend(code, extent, total, more, pos + 1);
      } else {
        NoneDeep(code, pos + n + 1, hi);
        gs, at := Descend(code, extent, total, fs, pos + n + 1);
      }
    }
  }

  /** The innermost body ends at `hi`, and `pos` is one of its records. */
  ghost predicate BodyAt(code: seq<Rec>, extent: int, total: nat, fs: seq<Frame>, pos: int, hi: int) {
    && |fs| >= 1 && FramesOK(code, extent, total, fs) && Framed(code, Top(fs)) && hi == Hi(code, Top(fs))
    && 0 <= Lo(Top(fs)) <= pos < hi < |code| && WF(code[pos..hi])
  }

  lemma {:induction false} BodyFacts(code: seq<Rec>, extent: int, total: nat, fs: seq<Frame>, pos: int, hi: int)
    requires BodyAt(code, extent, total, fs, pos, hi)
    ensures |fs| >= 1 && Framed(code, Top(fs)) && 0 <= pos < hi < |code| && hi == Hi(code, Top(fs))
    ensures OK(code, extent, total, fs, pos, Counter(code[pos]), Top(fs).disp) && !code[pos].EndLoop?
    ensures code[pos].Data? && pos + 1 < hi ==> BodyAt(code, extent, total, fs, pos + 1, hi)
    ensures code[pos].Loop? ==> 2 <= code[pos].items < hi - pos && code[pos..hi] != [] && code[pos..hi][0] == code[pos]
    ensures code[pos].Loop? && pos + code[pos].items + 1 < hi ==>
              BodyAt(code, extent, total, fs, pos + code[pos].items + 1, hi)
  {
    hide WF, TM, Iter, FramesOK, RemAt, OK;
    Unfold(code, pos, hi);
    FreshOK(code, extent, total, fs, pos);
  }

  lemma {:induction false} Pushed(code: seq<Rec>, extent: int, total: nat, fs: seq<Frame>, pos: int)
    returns (more: seq<Frame>)
    requires |fs| >= 1 && Framed(code, Top(fs)) && BodyAt(code, extent, total, fs, pos, Hi(code, Top(fs)))
    requires code[pos].Loop?
    ensures |more| == |fs| + 1 && Framed(code, Top(more)) && Hi(code, Top(more)) == pos + code[pos].items
    ensures BodyAt(code, extent, total, more, pos + 1, pos + code[pos].items)
  {
    var n := code[pos].items;
    hide WF, TM, Iter, FramesOK, RemAt, After;
    Unfold(code, pos, Hi(code, Top(fs)));
    FreshOK(code, extent, total, fs, pos);
    PushStep(code, extent, total, fs, pos, code[pos].loops, Top(fs).disp);
    more := fs + [Frame(pos, code[pos].loops, Top(fs).disp)];
    assert Top(more) == Frame(pos, code[pos].loops, Top(fs).disp);
  }

  lemma {:induction false} IntoEvery(c: seq<Rec>, inner: nat, rest: nat)
    requires c != [] && c[0].Loop? && 2 <= c[0].items < |c|
    ensures Treats(User.Convertor, c) == Into
    ensures Higher(1 + inner, rest) == if 1 + inner >= rest then 1 + inner else rest
  {}

  lemma {:induction false} NoneDeep(code: seq<Rec>, pos: int, hi: int)
    requires 0 <= pos <= hi <= |code| && Depth(User.Convertor, code[pos..hi]) > 0
    ensures pos < hi
  {}

  lemma {:induction false} StateAt(code: seq<Rec>, extent: int, total: nat, fs: seq<Frame>, pos: int) returns (b: nat)
    requires 0 <= pos < |code| && code[pos].Data? && |fs| >= 1
    requires OK(code, extent, total, fs, pos, Counter(code[pos]), Top(fs).disp)
    ensures P.Proper(code, extent, total, fs, pos, Counter(code[pos]), Top(fs).disp, b)
    ensures b < |WholeTM(code, total, extent)|
  {
    hide WF, TM, WholeTM, RemAt, OK;
    Canonical.RemSuffix(code, extent, total, fs, pos, Counter(code[pos]), Top(fs).disp);
    var rest, whole := RemAt(code, extent, total, fs, pos, Counter(code[pos]), Top(fs).disp),
        WholeTM(code, total, extent);
    b := |whole| - |rest|;
    assert rest == whole[b..];
    P.Place(code, extent, total, fs, pos, Counter(code[pos]), Top(fs).disp, b);
  }

  /** Not more loops enclose a record than the loops are deep. */
  lemma {:induction false} EnclosingDepth(c: seq<Rec>, end: Rec, pos: int)
    requires WF(c) && end.EndLoop?
    ensures |P.Enclosing(c + [end], pos)| <= Depth(User.Convertor, c)
  {
    var code := c + [end];
    assert code[0..|c|] == c;
    Within(code, 0, |c|, pos);
    assert P.Enclosing(code, pos) == Loops(code, 0, |c|, pos);
  }

  /** The loops between two places that enclose a record. */
  ghost function Loops(code: seq<Rec>, lo: nat, hi: nat, pos: int): set<int>
    requires hi <= |code|
  {
    set i | lo <= i < hi && code[i].Loop? && i < pos <= i + code[i].items
  }

  lemma {:induction false} Within(code: seq<Rec>, lo: nat, hi: nat, pos: int)
    requires lo <= hi <= |code| && WF(code[lo..hi])
    ensures |Loops(code, lo, hi, pos)| <= Depth(User.Convertor, code[lo..hi])
    ensures pos <= lo || pos >= hi ==> Loops(code, lo, hi, pos) == {}
    decreases hi - lo
  {
    hide *;
    if lo == hi {
      NoLoops(code, lo, pos);
    } else {
      Unfold(code, lo, hi);
      DepthAt(User.Convertor, code, lo, hi);
      if code[lo].Data? {
        Within(code, lo + 1, hi, pos);
        NotALoop(code, lo, hi, pos);
      } else {
        var n := code[lo].items;
        Within(code, lo + 1, lo + n, pos);
        Within(code, lo + n + 1, hi, pos);
        IntoEvery(code[lo..hi], Depth(User.Convertor, code[lo + 1..lo + n]),
                  Depth(User.Convertor, code[lo + n + 1..hi]));
        LoopsParts(code, lo, n, hi, pos);
        HigherMore(|Loops(code, lo + 1, lo + n, pos)|, Depth(User.Convertor, code[lo + 1..lo + n]),
                   |Loops(code, lo + n + 1, hi, pos)|, Depth(User.Convertor, code[lo + n + 1..hi]));
      }
    }
  }

  lemma {:induction false} NoLoops(code: seq<Rec>, lo: nat, pos: int)
    requires lo <= |code|
    ensures Loops(code, lo, lo, pos) == {} && |Loops(code, lo, lo, pos)| == 0
  {}

  lemma {:induction false} NotALoop(code: seq<Rec>, lo: nat, hi: nat, pos: int)
    requires lo < hi <= |code| && code[lo].Data?
    ensures Loops(code, lo, hi, pos) == Loops(code, lo + 1, hi, pos)
  {}

  lemma {:induction false} HigherMore(a: nat, b: nat, c: nat, d: nat)
    requires a <= b && c <= d
    ensures Higher(1 + a, c) <= Higher(1 + b, d)
  {}

  lemma {:induction false} LoopsParts(code: seq<Rec>, lo: nat, n: nat, hi: nat, pos: int)
    requires 2 <= n && lo + n < hi <= |code| && code[lo].Loop? && code[lo].items == n && code[lo + n].EndLoop?
    requires pos <= lo + 1 || pos >= lo + n ==> Loops(code, lo + 1, lo + n, pos) == {}
    requires pos <= lo + n + 1 || pos >= hi ==> Loops(code, lo + n + 1, hi, pos) == {}
    ensures |Loops(code, lo, hi, pos)| <= Higher(1 + |Loops(code, lo + 1, lo + n, pos)|,
                                                 |Loops(code, lo + n + 1, hi, pos)|)
    ensures pos <= lo || pos >= hi ==> Loops(code, lo, hi, pos) == {}
  {
    var inner, rest, all := Loops(code, lo + 1, lo + n, pos), Loops(code, lo + n + 1, hi, pos),
        Loops(code, lo, hi, pos);
    var own: set<int> := if lo < pos <= lo + n then {lo} else {};
    assert all == own + inner + rest;
    if pos <= lo + n {
      assert all == own + inner;
      assert |all| <= |own| + |inner|;
    } else {
      assert all == rest;
    }
  }

  /** A stack has room for every record, with the fake outermost loop and the saved position, exactly if
      it has room for the deepest nest. */
  lemma {:induction false} RoomExact(code: seq<Rec>, room: int)
    requires Committed(code)
    ensures (forall pos :: |P.Enclosing(code, pos)| + 2 <= room) <==> Depth(User.Convertor, Body(code)) + 2 <= room
  {
    var c, end := Body(code), code[|code| - 1];
    assert code == c + [end];
    forall pos ensures |P.Enclosing(code, pos)| <= Depth(User.Convertor, c) {
      EnclosingDepth(c, end, pos);
    }
    var fs, at, b := DeepestState(code, 0, 1);
    hide Depth, WF, TM, WholeTM, P.Enclosing, P.Proper;
    P.Place(code, 0, 1, fs, at, Counter(code[at]), Top(fs).disp, b);
  }

  /** At byte `b` a data record is next that lies in the deepest nest of loops. */
  ghost predicate DeepAt(code: seq<Rec>, extent: int, total: nat, b: nat) {
    1 <= |code|
    && exists fs: seq<Frame>,
    pos: int {:trigger P.Proper(code, extent, total, fs, pos, Counter(code[pos]), Top(fs).disp, b)} ::
      && |fs| == 1 + Depth(User.Convertor, Body(code)) && 0 <= pos < |code| && code[pos].Data?
      && P.Proper(code, extent, total, fs, pos, Counter(code[pos]), Top(fs).disp, b)
      && b < |WholeTM(code, total, extent)|
  }

  lemma {:induction false} SomeDeep(code: seq<Rec>, extent: int, total: nat)
    requires Committed(code) && total >= 1
    ensures exists b: nat :: DeepAt(code, extent, total, b)
  {
    var fs, pos, b := DeepestState(code, extent, total);
    hide Depth, WF, TM, WholeTM, P.Proper;
    assert DeepAt(code, extent, total, b);
  }

  /** A convertor that stopped there holds one entry for the message, one for every loop and one for the
      position, wherever it came from. */
  lemma {:induction false} HeldAt(c: Convertors.Convertor, b: nat)
    requires |c.code| >= 1 && DeepAt(c.code, c.extent, c.total, b) && c.Saved(b, c.partialLength) && c.AtData()
    ensures c.stackPos + 1 == Depth(User.Convertor, Body(c.code)) + 2 && c.partialLength == 0
  {
    hide Depth, WF, TM, WholeTM, P.Proper, P.Enclosing;
    var fs: seq<Frame>, pos: int :|
      && |fs| == 1 + Depth(User.Convertor, Body(c.code)) && 0 <= pos < |c.code| && c.code[pos].Data?
      && P.Proper(c.code, c.extent, c.total, fs, pos, Counter(c.code[pos]), Top(fs).disp, b);
    var gs, top := c.stack[..c.stackPos], c.stack[c.stackPos];
    assert gs[|gs| - 1] == c.stack[c.stackPos - 1];
    SameSaved(c.code, c.extent, c.total, fs, Frame(pos, Counter(c.code[pos]), 0), 0, gs, top, c.partialLength, b);
  }

  /** A convertor that packs can be brought there: it really uses that many entries. */
  method FillStack(c: Convertors.Convertor, b: nat)
    requires c.Valid() && !c.receives && !c.completed && c.bConverted == 0 && c.partialLength == 0
    requires |c.code| >= 1 && DeepAt(c.code, c.extent, c.total, b)
    modifies c, c.stack
    ensures c.Valid() && c.bConverted == b && c.stackPos + 1 == Depth(User.Convertor, Body(c.code)) + 2
  {
    hide *;
    FillFacts(c, b);
    if b > 0 {
      var skipped := c.SetPosition(b);
      AlwaysInStep(c, skipped);
    } else {
      var empty := new byte[0];
      var lens, status := c.Pack([empty]);
      NothingInEmpty(c, empty, lens);
    }
    ValidSaved(c);
    HeldAt(c, b);
  }

  lemma {:induction false} FillFacts(c: Convertors.Convertor, b: nat)
    requires c.Valid() && !c.receives && !c.completed && c.bConverted == 0 && |c.code| >= 1
    requires DeepAt(c.code, c.extent, c.total, b)
    ensures c.code == c.desc && b < |c.Whole()| && c.mem.Length >= 0
  {
    hide Depth, WF, TM, WholeTM, P.Proper, P.Enclosing, Convertors.Convertor.Saved;
  }

  lemma {:induction false} ValidSaved(c: Convertors.Convertor)
    requires c.Valid() && !c.completed
    ensures c.Setup() && c.Saved(c.bConverted, c.partialLength)
  {
    hide Convertors.Convertor.Saved, Convertors.Convertor.Setup, WholeTM;
  }

  lemma {:induction false} NothingInEmpty(c: Convertors.Convertor, empty: array<byte>, lens: seq<nat>)
    requires empty.Length == 0 && c.Packed([empty], lens, 0, c.bConverted)
    ensures c.bConverted == 0
  {
    hide WholeTM, Scatter;
    var iov := [empty];
    assert |lens| <= 1 && |Concat(iov[..|lens|], lens)| == 0;
    assert |Gather(c.mem[..], c.base, c.Whole()[0..c.bConverted])| == c.bConverted;
  }

  // ----- what an add does -----

  /** How deep the records for copies of a datatype are nested, for the compiler and once compiled. */
  ghost function Layers(u: User, add: Datatype, count: nat, extent: int): nat
    reads add
  {
    if add.kind.Predefined? || Collapses(add.desc, add.ub - add.lb, extent) then 0
    else if count == 1 then Depth(u, add.desc)
    else if add.contiguous then (if u.Compiled? && extent != add.size then 1 else 0)
    else if |add.desc| == 1 && Flattened(add.desc[0], count) then 0
    else 1 + Depth(u, add.desc)
  }

  /** A loop around this record alone is turned into single records. */
  predicate Flattened(r: Rec, count: nat) {
    r.Data? && (count < 3 || (r.count == 1 && r.extent == r.typ.size))
  }

  lemma {:induction false} DepthNew(u: User, add: Datatype, count: nat, disp: int, extent: int)
    requires add.Valid() && add.desc != [] && count >= 1 && (u.Compiler? || u.Compiled?)
    ensures Depth(u, Datatype.NewRecords(add, count, disp, extent)) == Layers(u, add, count, extent)
  {
    assert add.kind.Predefined? || add.kind.Derived?;
    hide Described, Depth;
    if add.kind.Predefined? {
      Datatype.BasicFields(add);
      DepthBasic(u, add.kind.typ, count, disp, extent);
    } else if Collapses(add.desc, add.ub - add.lb, extent) {
      DepthOne(u, Repeated(add.desc[0], count, disp));
    } else {
      DepthMoved(u, add.desc, disp);
      if count > 1 {
        hide Moved, First;
        DepthLooped(u, add.desc, add.size, add.contiguous, count, disp, extent);
      }
    }
  }

  lemma {:induction false} DepthBasic(u: User, t: Basic, count: nat, disp: int, extent: int)
    requires u.Compiler? || u.Compiled?
    ensures Depth(u, BasicRecords(t, count, disp, extent)) == 0
  {
    hide Depth;
    var o := BasicRecords(t, count, disp, extent);
    if extent != t.size && count > 1 {
      assert o[1..2] == [o[1]];
      DepthLoop(u, o, [o[1]]);
    } else {
      DepthOne(u, o[0]);
    }
  }

  lemma {:induction false} DepthLooped(u: User, c: seq<Rec>, size: nat, contiguous: bool, count: nat, disp: int,
                                       extent: int)
    requires (u.Compiler? || u.Compiled?) && c != [] && Depth(u, Moved(c, disp)) == Depth(u, c)
    ensures Depth(u, Looped(Moved(c, disp), size, contiguous, count, extent))
         == if contiguous then (if u.Compiled? && extent != size then 1 else 0)
            else if |c| == 1 && Flattened(c[0], count) then 0
            else 1 + Depth(u, c)
  {
    hide Depth, First;
    var m := Moved(c, disp);
    var o := Looped(m, size, contiguous, count, extent);
    assert o[1..|m| + 1] == m && o[1] == m[0] == MoveRec(c[0], disp) && o[|m| + 1].EndLoop? && o[|m| + 1].size == size;
    DepthLoop(u, o, m);
  }

  /** The entries that a convertor allocates. */
  function Room(loopCount: nat): nat {
    Higher(DT_STATIC_STACK_SIZE, loopCount + 1)
  }

  /** The stack of a convertor has room for the compiled description. */
  ghost predicate ConvertorFits(loopCount: nat, desc: seq<Rec>) {
    Depth(Compiled, desc) + 2 <= Room(loopCount)
  }

  /** The stack of the compiler has room for the description. */
  ghost predicate CompilerFits(loopCount: nat, desc: seq<Rec>) {
    Depth(Compiler, desc) + 1 <= loopCount + 2
  }

  /** The stack of the direct copy has room for the compiled description. */
  ghost predicate CopyFits(loopCount: nat, desc: seq<Rec>) {
    Depth(Compiler, desc) + 1 <= loopCount + 1
  }

  /** What the three predicates mean: the allocated entries are as many as the three use. */
  lemma {:induction false} FitsExact(d: Datatype)
    requires d.Valid() && d.kind.Derived? && d.desc != []
    requires d.committed && |d.optCode| >= 1 && d.optCode == O.Opt(d.desc, O.NoRun) + [d.optCode[|d.optCode| - 1]]
    requires Committed(d.optCode)
    ensures ConvertorFits(d.loopCount, d.desc) <==> forall pos :: |P.Enclosing(d.optCode, pos)| + 2 <= Room(d.loopCount)
    ensures CopyFits(d.loopCount, d.desc) <==> DirectCopy.Entries(d.optCode) <= d.loopCount + 1
  {
    assert WF(d.desc) && Body(d.optCode) == O.Opt(d.desc, O.NoRun);
    hide Depth, O.Opt, WF, Described, P.Enclosing, Committed;
    OptDepth(User.Convertor, d.desc, O.NoRun);
    OptDepth(User.Copy, d.desc, O.NoRun);
    RoomExact(d.optCode, Room(d.loopCount));
  }

  /** Several copies of a basic type with gaps between them set the number of loops to 1. */
  predicate Resets(add: Datatype, count: nat, extent: int)
    reads add
  {
    add.kind.Predefined? && extent != add.size && count > 1
  }

  /** A nest that just fits into the static stack gets one loop more, and the two numbers of loops do
      not make up for it. */
  ghost predicate Overfills(loops: nat, add: Datatype, count: nat)
    reads add
  {
    add.kind.Derived? && count >= 2 && !add.contiguous && Depth(Compiled, add.desc) == 3 && loops + add.loopCount <= 2
  }

  /** Which adds take away the room, exactly. */
  method AddRoom(d: Datatype, add: Datatype, count: nat, disp: int, givenExtent: int) returns (ok: bool)
    requires d.Valid() && d.kind.Derived? && add != d && add.Valid() && !add.kind.LbMarker? && !add.kind.UbMarker?
    requires Datatype.Addressable(add, count, disp, Datatype.RealExtent(add.Extent(), givenExtent))
    requires ConvertorFits(d.loopCount, d.desc) && (add.kind.Derived? ==> ConvertorFits(add.loopCount, add.desc))
    requires CompilerFits(d.loopCount, d.desc) && (add.kind.Derived? ==> CompilerFits(add.loopCount, add.desc))
    requires CopyFits(d.loopCount, d.desc) && (add.kind.Derived? ==> CopyFits(add.loopCount, add.desc))
    modifies d
    ensures var resets := ok && add.desc != []
            && old(Resets(add, count, Datatype.RealExtent(add.Extent(), givenExtent)));
            && (CompilerFits(d.loopCount, d.desc) <==> !(resets && Depth(Compiler, old(d.desc)) >= 3))
            && (CopyFits(d.loopCount, d.desc) <==> !(resets && Depth(Compiler, old(d.desc)) >= 2))
            && (ConvertorFits(d.loopCount, d.desc)
                <==> !(resets && Depth(Compiled, old(d.desc)) >= 4) && !(ok && old(Overfills(d.loopCount, add, count))))
  {
    ghost var extent, was, loops := Datatype.RealExtent(add.Extent(), givenExtent), d.desc, d.loopCount;
    if count > 0 && add.desc != [] {
      ValidNested(d);
      hide *;
      DepthNew(Compiler, add, count, disp, extent);
      DepthNew(Compiled, add, count, disp, extent);
      DepthConcat(Compiler, was, Datatype.NewRecords(add, count, disp, extent));
      DepthConcat(Compiled, was, Datatype.NewRecords(add, count, disp, extent));
      RoomMore(add, was, was + Datatype.NewRecords(add, count, disp, extent), loops, count, extent);
    } else {
      NoMore(add, loops, count, extent);
    }
    hide *;
    ok := d.Add(add, count, disp, givenExtent);
  }

  lemma {:induction false} NoMore(add: Datatype, loops: nat, count: nat, extent: int)
    requires add.Valid() && (count == 0 || add.desc == [])
    ensures !(add.desc != [] && Resets(add, count, extent)) && !Overfills(loops, add, count)
  {
    hide Described;
  }

  /** The arithmetic of one add. */
  lemma {:induction false} RoomMore(add: Datatype, was: seq<Rec>, now: seq<Rec>, loops: nat, count: nat, extent: int)
    requires add.Valid() && add.desc != [] && count >= 1
    requires Depth(Compiler, now) == Higher(Depth(Compiler, was), Layers(Compiler, add, count, extent))
    requires Depth(Compiled, now) == Higher(Depth(Compiled, was), Layers(Compiled, add, count, extent))
    requires ConvertorFits(loops, was) && (add.kind.Derived? ==> ConvertorFits(add.loopCount, add.desc))
    requires CompilerFits(loops, was) && (add.kind.Derived? ==> CompilerFits(add.loopCount, add.desc))
    requires CopyFits(loops, was) && (add.kind.Derived? ==> CopyFits(add.loopCount, add.desc))
    ensures var n := Datatype.NewLoopCount(loops, add, count, extent); var resets := Resets(add, count, extent);
            && (CompilerFits(n, now) <==> !(resets && Depth(Compiler, was) >= 3))
            && (CopyFits(n, now) <==> !(resets && Depth(Compiler, was) >= 2))
            && (ConvertorFits(n, now) <==> !(resets && Depth(Compiled, was) >= 4) && !Overfills(loops, add, count))
  {
    assert add.kind.Predefined? || add.kind.Derived?;
    hide Described;
    if add.kind.Derived? && |add.desc| == 1 && add.desc[0].Data? {
      assert add.desc == [add.desc[0]];
      DepthOne(Compiled, add.desc[0]);
    }
    hide Depth;
  }

  lemma {:induction false} ValidNested(d: Datatype)
    requires d.Valid()
    ensures O.Nested(d.desc)
  {
    hide TM, Run, Bounds, First, O.Repeating;
    O.NestedWF(d.desc);
  }

  // ----- the room that is lost -----

  /** What the example keeps: a datatype with gaps, whose loops the compiler can only open. */
  ghost predicate Deep(d: Datatype, n: nat)
    reads d
  {
    && d.Valid() && d.kind.Derived? && 2 <= |d.desc| < 100 && !d.contiguous && d.trueLb == 0 && !d.committed
    && d.desc[0].Loop? && !d.desc[0].contiguous && d.desc[0].items == |d.desc| - 1
    && Depth(Compiler, d.desc) == Depth(Compiled, d.desc) == n && !O.Altered(d.desc, O.Apart)
  }

  /** A loop of two copies of a datatype. */
  method Nest(add: Datatype, n: nat, extent: int) returns (d: Datatype)
    requires Deep(add, n) && |add.desc| < 98 && 0 <= extent <= 100000 && add.trueUb <= 1000000
    ensures fresh(d) && Deep(d, n + 1) && |d.desc| == |add.desc| + 2
    ensures d.loopCount == add.loopCount + 2 && d.trueUb == add.trueUb + extent
  {
    NestAdds(add, n, extent);
    hide *;
    d := new Datatype();
    var ok := d.Add(add, 2, 0, extent);
    Constructors.NewBounds(d, add, 2, 0, extent);
    NestIs(d, add, n, extent);
  }

  lemma {:induction false} NestAdds(add: Datatype, n: nat, extent: int)
    requires Deep(add, n) && 0 <= extent <= 100000 && add.trueUb <= 1000000
    ensures add.Valid() && add.kind.Derived? && |add.desc| >= 2 && add.desc != []
    ensures Datatype.RealExtent(add.Extent(), extent) == extent && Datatype.Addressable(add, 2, 0, extent)
    ensures !add.Stretches(2, extent)
    ensures !Datatype.TooMany(add.kind, |add.desc|, 2)
    ensures TM([], 0) + Iter(add.desc, 0, extent, 2) == Iter(add.desc, 0, extent, 2)
    ensures forall k: nat :: Datatype.NewLoopCount(k, add, 2, extent) == k + add.loopCount + 2
    ensures forall k: nat, ub: int, c: bool :: !Datatype.Stays(k, ub, c, add, 2, 0, extent)
    ensures [] + Datatype.NewRecords(add, 2, 0, extent) == Datatype.NewRecords(add, 2, 0, extent)
    ensures Datatype.NewRecords(add, 2, 0, extent) == Looped(add.desc, add.size, false, 2, extent)
    ensures Depth(Compiler, Datatype.NewRecords(add, 2, 0, extent)) == n
               + 1 == Depth(Compiled, Datatype.NewRecords(add, 2, 0, extent))
  {
    assert TM([], 0) == [];
    Nothing(Iter(add.desc, 0, extent, 2));
    DepthNew(Compiler, add, 2, 0, extent);
    DepthNew(Compiled, add, 2, 0, extent);
    NotMoved(add.desc);
    hide TM, WF, Iter, Bounds, Run, First, Depth, O.Repeating, Described, O.Altered;
  }

  lemma {:induction false} NotMoved(c: seq<Rec>)
    ensures Moved(c, 0) == c
  {
    forall i | 0 <= i < |c| ensures Moved(c, 0)[i] == c[i] {}
  }

  lemma {:induction false} NestIs(d: Datatype, add: Datatype, n: nat, extent: int)
    requires Deep(add, n) && |add.desc| < 98 && extent >= 0 && d.Valid() && d.kind.Derived? && !d.contiguous
    requires !d.committed
    requires d.desc == Looped(add.desc, add.size, false, 2, extent)
    requires Depth(Compiler, d.desc) == n + 1 == Depth(Compiled, d.desc)
    requires d.trueLb == CopiesLb(add.trueLb, 0, extent, 2) && d.trueUb == CopiesUb(add.trueUb, 0, extent, 2)
    ensures Deep(d, n + 1) && |d.desc| == |add.desc| + 2 && d.trueUb == add.trueUb + extent
  {
    assert WF(d.desc);
    LoopedAltered(add.desc, add.size, 2, extent);
    hide TM, WF, Bounds, Run, First, Depth, O.Repeating, Described, O.Altered;
  }

  lemma {:induction false} LoopedAltered(c: seq<Rec>, size: nat, count: nat, extent: int)
    requires WF(c) && c != [] && WF(Looped(c, size, false, count, extent))
    ensures O.Altered(Looped(c, size, false, count, extent), O.Apart) <==> O.Altered(c, O.Apart)
  {
    var o := Looped(c, size, false, count, extent);
    assert o[1..|c| + 1] == c && o[|c| + 2..] == [];
    assert WF([]) && !O.Altered([], O.Apart);
    hide TM, First, Run;
  }

  lemma {:induction false} Nothing(t: seq<int>)
    ensures [] + t == t
  {}

  /** Two elements of a basic type with a gap between them: one loop, which the compiler turns into a
      record. */
  method Pair(int4: Datatype) returns (d: Datatype)
    requires int4.Valid() && int4.kind == Predefined(O.INT4)
    ensures fresh(d) && Deep(d, 0) && |d.desc| == 3 && d.loopCount == 1 && d.trueUb == 12
  {
    PairAdds(int4);
    hide *;
    d := new Datatype();
    var ok := d.Add(int4, 2, 0, 8);
    Constructors.NewBounds(d, int4, 2, 0, 8);
    PairIs(d, int4);
  }

  lemma {:induction false} PairAdds(int4: Datatype)
    requires int4.Valid() && int4.kind == Predefined(O.INT4)
    ensures int4.desc != [] && Datatype.RealExtent(int4.Extent(), 8) == 8 && Datatype.Addressable(int4, 2, 0, 8)
    ensures !int4.Stretches(2, 8)
    ensures !Datatype.TooMany(int4.kind, |int4.desc|, 2)
    ensures TM([], 0) + Iter(int4.desc, 0, 8, 2) == Iter(int4.desc, 0, 8, 2)
    ensures forall k: nat :: Datatype.NewLoopCount(k, int4, 2, 8) == 1
    ensures forall k: nat, ub: int, c: bool :: !Datatype.Stays(k, ub, c, int4, 2, 0, 8)
    ensures [] + Datatype.NewRecords(int4, 2, 0, 8) == Datatype.NewRecords(int4, 2, 0, 8)
              == BasicRecords(O.INT4, 2, 0, 8)
    ensures Depth(Compiler, BasicRecords(O.INT4, 2, 0, 8)) == 0 == Depth(Compiled, BasicRecords(O.INT4, 2, 0, 8))
    ensures int4.trueLb == 0 && int4.trueUb == 4
  {
    assert TM([], 0) == [];
    Nothing(Iter(int4.desc, 0, 8, 2));
    Datatype.BasicFields(int4);
    DepthBasic(Compiler, O.INT4, 2, 0, 8);
    DepthBasic(Compiled, O.INT4, 2, 0, 8);
    hide TM, WF, Iter, Bounds, Run, First, Depth, O.Repeating, Described;
  }

  lemma {:induction false} PairIs(d: Datatype, int4: Datatype)
    requires d.Valid() && d.kind.Derived? && !d.contiguous && !d.committed && d.desc == BasicRecords(O.INT4, 2, 0, 8)
    requires Depth(Compiler, d.desc) == 0 == Depth(Compiled, d.desc)
    requires d.trueLb == CopiesLb(0, 0, 8, 2) && d.trueUb == CopiesUb(4, 0, 8, 2)
    ensures Deep(d, 0) && |d.desc| == 3 && d.trueUb == 12
  {
    assert WF(d.desc);
    PairAltered(0);
    hide TM, WF, Bounds, Run, First, Depth, O.Repeating, Described, O.Altered;
  }

  lemma {:induction false} PairAltered(disp: int)
    requires WF(BasicRecords(O.INT4, 2, disp, 8))
    ensures !O.Altered(BasicRecords(O.INT4, 2, disp, 8), O.Apart)
  {
    var o := BasicRecords(O.INT4, 2, disp, 8);
    var d := Data(O.INT4, 1, disp, 4, true);
    assert o[1..2] == [d] && o[3..] == [] && [d][1..] == [];
    assert WF([]) && WF([d]) && !O.Altered([], O.Apart) && !O.Altered([], O.Ended(disp + 4, false));
    hide TM, First, Run;
  }

  lemma {:induction false} AlteredBehind(c: seq<Rec>, b: seq<Rec>)
    requires WF(c) && c != [] && c[0].Loop? && !c[0].contiguous && c[0].items == |c| - 1 && WF(b) && WF(c + b)
    ensures O.Altered(c + b, O.Apart) <==> O.Altered(c, O.Apart) || O.Altered(b, O.Apart)
  {
    var n := c[0].items;
    assert (c + b)[1..n] == c[1..n] && (c + b)[n + 1..] == b && c[n + 1..] == [];
    assert WF([]) && !O.Altered([], O.Apart);
    hide TM, First, Run;
  }

  /** Two ints with a gap, four loops around them, and then two ints with a gap once more: one loop is
      counted.  The compiler gets three entries and uses five, the direct copy gets two and uses five,
      and a convertor gets five and uses six. */
  method RoomLost() returns (d: Datatype, ghost entries: nat)
    ensures d.Valid() && d.committed && d.desc != [] && d.loopCount == 1 && !O.Altered(d.desc, O.Apart)
    ensures Committed(d.optCode)
    ensures entries == 5 && entries > d.loopCount + 2
    ensures DirectCopy.Entries(d.optCode) == 5 > d.loopCount + 1
    ensures Depth(User.Convertor, Body(d.optCode)) + 2 == 6 > Room(d.loopCount)
    ensures !forall pos :: |P.Enclosing(d.optCode, pos)| + 2 <= Room(d.loopCount)
  {
    d := FiveLoops();
    hide *;
    ValidSound(d);
    entries := d.Commit();
    LostAll(d);
  }

  lemma {:induction false} ValidSound(d: Datatype)
    requires d.Valid()
    ensures d.Sound()
  {
    hide Structured, Described;
  }

  method FiveLoops() returns (d: Datatype)
    ensures fresh(d) && d.Valid() && d.kind.Derived? && d.loopCount == 1 && !d.committed && d.desc != []
    ensures WF(d.desc) && Depth(Compiler, d.desc) == Depth(Compiled, d.desc) == 4 && !O.Altered(d.desc, O.Apart)
  {
    var int4 := new Datatype.Basic(O.INT4, 4);
    PairAdds(int4);
    hide *;
    d := Pair(int4);
    d := Nest(d, 0, 100);
    d := Nest(d, 1, 1000);
    d := Nest(d, 2, 10000);
    d := Nest(d, 3, 100000);
    ghost var was := d.desc;
    LastAdd(d, int4);
    var ok := d.Add(int4, 2, 1000000, 8);
    FiveDeep(d, was);
  }

  lemma {:induction false} LastAdd(d: Datatype, int4: Datatype)
    requires Deep(d, 4) && int4.Valid() && int4.kind == Predefined(O.INT4) && int4.trueLb == 0 && int4.trueUb == 4
    ensures d.Valid() && d.kind.Derived? && Datatype.RealExtent(int4.Extent(), 8) == 8
    ensures Datatype.Addressable(int4, 2, 1000000, 8)
    ensures !int4.Stretches(2, 8) && Datatype.NewRecords(int4, 2, 1000000, 8) == BasicRecords(O.INT4, 2, 1000000, 8)
    ensures !Datatype.TooMany(int4.kind, |int4.desc|, 2) && int4.desc != [] && !d.committed
    ensures WF(d.desc) && d.desc != [] && d.desc[0].Loop? && !d.desc[0].contiguous && d.desc[0].items == |d.desc| - 1
    ensures Depth(Compiler, d.desc) == Depth(Compiled, d.desc) == 4 && !O.Altered(d.desc, O.Apart)
  {
    hide TM, WF, Iter, Bounds, Run, First, Depth, O.Repeating, O.Altered;
  }

  lemma {:induction false} FiveDeep(d: Datatype, was: seq<Rec>)
    requires d.Valid() && d.desc == was + BasicRecords(O.INT4, 2, 1000000, 8)
    requires WF(was) && was != [] && was[0].Loop? && !was[0].contiguous && was[0].items == |was| - 1
    requires Depth(Compiler, was) == Depth(Compiled, was) == 4 && !O.Altered(was, O.Apart)
    ensures WF(d.desc) && Depth(Compiler, d.desc) == Depth(Compiled, d.desc) == 4 && !O.Altered(d.desc, O.Apart)
  {
    var b := BasicRecords(O.INT4, 2, 1000000, 8);
    DepthBasic(Compiler, O.INT4, 2, 1000000, 8);
    DepthBasic(Compiled, O.INT4, 2, 1000000, 8);
    O.NestedWF(was);
    DepthConcat(Compiler, was, b);
    DepthConcat(Compiled, was, b);
    BasicAppended(O.INT4, 2, 1000000, 8);
    PairAltered(1000000);
    assert WF(d.desc);
    hide TM, WF, Bounds, Run, First, Depth, O.Repeating, O.Altered, Described, O.Nested;
    AlteredBehind(was, b);
  }

  lemma {:induction false} LostAll(d: Datatype)
    requires WF(d.desc) && Depth(Compiler, d.desc) == Depth(Compiled, d.desc) == 4 && d.loopCount == 1
    requires |d.optCode| >= 1 && d.optCode == O.Opt(d.desc, O.NoRun) + [d.optCode[|d.optCode| - 1]]
    requires Committed(d.optCode)
    ensures DirectCopy.Entries(d.optCode) == 5
    ensures Depth(User.Convertor, Body(d.optCode)) + 2 == 6 > Room(d.loopCount) == 5
    ensures !forall pos :: |P.Enclosing(d.optCode, pos)| + 2 <= Room(d.loopCount)
  {
    assert Body(d.optCode) == O.Opt(d.desc, O.NoRun);
    hide Depth, O.Opt, WF, P.Enclosing, Committed;
    OptDepth(User.Convertor, d.desc, O.NoRun);
    OptDepth(User.Copy, d.desc, O.NoRun);
    RoomExact(d.optCode, 5);
  }
}
