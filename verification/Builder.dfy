/** Datatypes under construction: `ompi_ddt_add` appends copies of one datatype to another and
    keeps the bounds, the size and the contiguity flags; a commit compiles the description.

    Source: openmpi-1.4.2/ompi/datatype/dt_add.c, dt_create.c and dt_optimize.c. */
module Builder {
  import opened Typemap
  import opened BuilderSpec
  import opened Layout
  import O = OptimizeSpec
  import Optimize
  import Nesting
  import G = Signature
  import S = SplitPoint

  /** What a datatype is: a basic type, one of the markers, the null datatype, or built by adding. */
  datatype Kind = Predefined(typ: Basic) | LbMarker | UbMarker | NullType | Derived

  const MAX_DT_COMPONENT_COUNT: nat := 0xFFFF_FFFF

  class Datatype {
    const kind: Kind
    var desc: seq<Rec>
    var size: nat
    var nbElems: nat
    var loopCount: nat      // btypes[DT_LOOP], by which stacks are allocated
    var lb: int
    var ub: int
    var trueLb: int
    var trueUb: int
    var align: nat
    var contiguous: bool
    var noGaps: bool
    var userLb: bool
    var userUb: bool
    var hasData: bool
    var committed: bool
    var code: seq<Rec>      // the description with the END_LOOP of a commit
    var optCode: seq<Rec>   // the compiled description

    /** Every datatype has a well-formed description of its size. */
    ghost predicate Sound()
      reads this
    {
      && Structured(desc, size, nbElems) && (contiguous ==> Described(desc, size, nbElems, trueLb, trueUb, contiguous))
      && (desc != [] ==> trueLb < trueUb)
      && match kind
         case Predefined(t) => t.size >= 1 && desc == [BasicRec(t)] && contiguous && lb == 0 && ub == t.size && !userLb
              && !userUb
         case Derived => align >= 1 && (desc == [] ==> trueLb == LONG_MAX && trueUb == LONG_MIN)
         case _ => desc == [] && lb == 0 && ub == 0
    }

    /** The fields describe the data; only a record that was overstretched makes this fail. */
    ghost predicate Valid()
      reads this
    {
      Sound() && Described(desc, size, nbElems, trueLb, trueUb, contiguous)
    }

    function Extent(): Extents
      reads this
    {
      Extents(lb, ub, userLb, userUb, align)
    }

    /** The no-gaps flag promises that copies of the datatype follow each other directly. */
    ghost predicate NoGapsSound()
      reads this
    {
      noGaps ==> contiguous && ub - lb == size
    }

    /** `ompi_ddt_create`: an empty datatype. */
    constructor ()
      ensures Valid() && NoGapsSound() && kind == Derived && desc == [] && size == nbElems == loopCount == 0
      ensures !committed && !hasData
      ensures Extent() == Extents(LONG_MAX, LONG_MIN, false, false, 1) && contiguous && !noGaps
      ensures trueLb == LONG_MAX && trueUb == LONG_MIN && Encloses(Extent(), []) && Snug(Extent(), [])
    {
      kind := Derived;
      desc, size, nbElems, loopCount := [], 0, 0, 0;
      lb, ub, trueLb, trueUb, align := LONG_MAX, LONG_MIN, LONG_MAX, LONG_MIN, 1;
      contiguous, noGaps, userLb, userUb, hasData, committed := true, false, false, false, false, false;
      code, optCode := [], [];
      new;
      NothingPlaced();
      EmptyDescribed(LONG_MAX, LONG_MIN, true);
      DescribedStructured([], 0, 0, LONG_MAX, LONG_MIN, true);
    }

    /** A basic type. */
    constructor Basic(t: Basic, alignment: nat)
      requires t.size >= 1
      ensures Valid() && NoGapsSound() && kind == Predefined(t) && contiguous && noGaps && align == alignment
    {
      kind := Predefined(t);
      desc, size, nbElems, loopCount := [BasicRec(t)], t.size, 1, 0;
      lb, ub, trueLb, trueUb, align := 0, t.size, 0, t.size, alignment;
      contiguous, noGaps, userLb, userUb, hasData, committed := true, true, false, false, true, true;
      code, optCode := [], [];
      new;
      BasicDescribed(t);
      DescribedStructured(desc, t.size, 1, 0, t.size, true);
    }

    /** The markers and the null datatype hold no data. */
    constructor Marker(k: Kind)
      requires k.LbMarker? || k.UbMarker? || k.NullType?
      ensures Valid() && NoGapsSound() && kind == k && size == 0 && Extent() == Extents(0, 0, false, false, 0)
    {
      kind := k;
      desc, size, nbElems, loopCount := [], 0, 0, 0;
      lb, ub, trueLb, trueUb, align := 0, 0, 0, 0, 0;
      contiguous, noGaps, userLb, userUb, hasData, committed := false, false, false, false, false, false;
      code, optCode := [], [];
      new;
      EmptyDescribed(0, 0, false);
      DescribedStructured([], 0, 0, 0, 0, false);
    }

    /** The default extent is requested with -1. */
    static function RealExtent(add: Extents, extent: int): int {
      if extent == -1 then add.ub - add.lb else extent
    }

    // ----- adding -----

    /** The markers set a bound. */
    method AddMarker(kindOfAdd: Kind, disp: int)
      requires Sound() && kind.Derived? && (kindOfAdd.LbMarker? || kindOfAdd.UbMarker?)
      modifies this`lb, this`ub, this`userLb, this`userUb, this`noGaps
      ensures Sound() && (old(Valid()) ==> Valid())
      ensures kindOfAdd.LbMarker? ==>
                userLb && userUb == old(userUb) && ub == old(ub)
                && lb == if old(userLb) then Min(old(lb), disp) else disp
      ensures kindOfAdd.UbMarker? ==>
                userUb && userLb == old(userLb) && lb == old(lb)
                && ub == if old(userUb) then Max(old(ub), disp) else disp
      ensures old(NoGapsSound()) ==> NoGapsSound()
      ensures forall l: seq<Placed> :: Encloses(old(Extent()), l) ==>
                Encloses(Extent(), l + [if kindOfAdd.LbMarker? then LowerMark(disp) else UpperMark(disp)])
    {
      hide Described, Structured, Encloses;
      MarkPlaced(Extent(), disp);
      if kindOfAdd.LbMarker? {
        if userLb {
          lb := Min(lb, disp);
        } else {
          lb, userLb := disp, true;
        }
      } else {
        if userUb {
          ub := Max(ub, disp);
        } else {
          ub, userUb := disp, true;
        }
      }
      if ub - lb != size {
        noGaps := false;
      }
    }

    /** The bounds and the true bounds of the copies. */
    static method CopyBounds(add: Datatype, count: nat, disp: int, extent: int)
      returns (newLb: int, newUb: int, newTrueLb: int, newTrueUb: int)
      ensures newLb == CopiesLb(add.lb, disp, extent, count) && newUb == CopiesUb(add.ub, disp, extent, count)
      ensures var a, b := CopiesLb(add.trueLb, disp, extent, count), CopiesUb(add.trueUb, disp, extent, count);
              newTrueLb == Min(a, b) && newTrueUb == Max(a, b)
    {
      if count == 0 {
        newLb, newUb := add.lb + disp, add.ub + disp;
      } else {
        var upper, lower := disp + extent * (count - 1), disp;
        if lower < upper {
          newLb, newUb := lower, upper;
        } else {
          newLb, newUb := upper, lower;
        }
        newLb, newUb := newLb + add.lb, newUb + add.ub;
      }
      newTrueLb, newTrueUb := newLb - (add.lb - add.trueLb), newUb - (add.ub - add.trueUb);
      if newTrueLb > newTrueUb {
        newTrueLb, newTrueUb := newTrueUb, newTrueLb;
      }
    }

    /** The new bounds; the true bounds of the copies are handed on. */
    method GrowExtent(add: Datatype, count: nat, disp: int, extent: int) returns (newTrueLb: int, newTrueUb: int)
      requires align >= 1 && add != this
      modifies this`lb, this`ub, this`userLb, this`userUb, this`align
      ensures Extent() == Grown(old(Extent()), add.Extent(), disp, extent, count) && align >= 1
      ensures var p := Copies(add.Extent(), disp, extent, count);
              && (forall l: seq<Placed> :: Encloses(old(Extent()), l) ==> Encloses(Extent(), l + [p]))
              && (!old(userUb) && !add.userUb ==>
                    forall l: seq<Placed> :: Encloses(old(Extent()), l) && Snug(old(Extent()), l) ==>
                      (Snug(Extent(), l + [p])
                       <==> old(StaysSnug(Extent(), Highest(l), add.Extent(), disp, extent, count))))
      ensures var a, b := CopiesLb(add.trueLb, disp, extent, count), CopiesUb(add.trueUb, disp, extent, count);
              newTrueLb == Min(a, b) && newTrueUb == Max(a, b)
    {
      hide Encloses, Snug, StaysSnug, Highest;
      MorePlaced(Extent(), add.Extent(), disp, extent, count);
      var newLb, newUb;
      newLb, newUb, newTrueLb, newTrueUb := CopyBounds(add, count, disp, extent);
      hide CopiesLb, CopiesUb, Aligned;
      if add.userLb != userLb {
        if userLb { newLb := lb; }
        userLb := true;
      } else {
        newLb := Min(lb, newLb);
      }
      if userUb != add.userUb {
        if userUb { newUb := ub; }
        userUb := true;
      } else {
        newUb := Max(ub, newUb);
      }
      lb, ub, align := newLb, newUb, Max(align, add.align);
      if !userUb {
        ub := Aligned(lb, ub, align);
      }
    }

    /** The records of a description, moved by `disp`, are appended one by one. */
    method AppendMoved(records: seq<Rec>, disp: int)
      modifies this`desc
      ensures desc == old(desc) + Moved(records, disp)
    {
      for i := 0 to |records|
        invariant desc == old(desc) + Moved(records, disp)[..i]
      {
        desc := desc + [MoveRec(records[i], disp)];
      }
    }

    /** A loop around the moved records is appended. */
    method AppendLooped(add: Datatype, count: nat, disp: int, extent: int)
      requires add != this && add.desc != [] && WF(add.desc)
      modifies this`desc
      ensures desc == old(desc) + Looped(Moved(add.desc, disp), add.size, add.contiguous, count, extent)
    {
      hide WF, First, Looped;
      ghost var before := desc;
      var loop := Loop(count, |add.desc| + 1, extent, add.contiguous);
      var start := |desc|;
      desc := desc + [loop];
      AppendMoved(add.desc, disp);
      MovedWF(add.desc, disp);
      assert desc[start + 1..|desc|] == Moved(add.desc, disp);
      var first := Optimize.GetFirstNonLoop(desc, start + 1, |desc|);
      desc := desc + [EndLoop(|add.desc| + 1, add.size, first)];
      LoopedIs(before, Moved(add.desc, disp), add.size, add.contiguous, count, extent);
    }

    /** The records for `count` copies are appended. */
    method Append(add: Datatype, count: nat, disp: int, extent: int)
      requires add != this && add.Sound() && count >= 1
      requires add.kind.Predefined? || (add.kind.Derived? && add.desc != [])
      modifies this`desc
      ensures desc == old(desc) + NewRecords(add, count, disp, extent)
    {
      hide WF, O.Repeating, TM, Bounds, Run, Looped, Moved;
      if add.kind.Predefined? {
        var t := add.kind.typ;
        if extent != t.size && count > 1 {
          desc := desc + [Loop(count, 2, extent, false), Data(t, 1, disp, t.size, true), EndLoop(2, t.size, disp)];
        } else {
          desc := desc + [Data(t, count, disp, extent, add.contiguous)];
        }
      } else {
        var first := add.desc[0];
        if |add.desc| == 1 && extent == add.ub - add.lb && first.Data? && extent == first.extent {
          desc := desc + [first.(count := first.count * count, disp := first.disp + disp)];
        } else if count == 1 {
          AppendMoved(add.desc, disp);
        } else {
          AppendLooped(add, count, disp, extent);
        }
      }
    }

    /** Copies of this datatype are represented correctly: it is not a single record of several
        elements whose extent was set to that of one element. */
    ghost predicate Repeatable()
      reads this
    {
      kind.Derived? && |desc| == 1 && desc[0].Data? && desc[0].extent == ub - lb ==>
        desc[0].count <= 1 || desc[0].extent == 0
    }

    lemma {:induction false} RepeatableKeeps(count: nat, extent: int)
      requires Repeatable()
      ensures !Stretches(count, extent)
    {}

    // ----- committing -----

    /** `ompi_ddt_commit`; `entries` is the number of stack entries that the compiler uses. */
    method Commit() returns (ghost entries: nat)
      requires Sound() && kind.Derived?
      modifies this`committed, this`code, this`optCode
      ensures committed && Sound() && (old(Valid()) ==> Valid())
      ensures old(committed) ==> (code, optCode) == old((code, optCode))
      ensures !old(committed) && desc == [] ==> optCode == []
      ensures !old(committed) && desc != [] ==>
                && code == desc + [EndLoop(|desc|, size, First(desc))] && Committed(code)
                && |optCode| >= 1 && optCode == O.Opt(desc, O.NoRun) + [EndLoop(|optCode| - 1, size, First(desc))]
                && |optCode| <= |code|
                && (!O.Altered(desc, O.Apart) ==> Committed(optCode))
      ensures !old(committed) && desc != [] ==> entries == 1 + Nesting.Depth(Nesting.Compiler, desc)
      ensures !old(committed) && desc != [] ==>
                && G.Refines(G.Marks(Body(optCode)), G.Marks(desc)) && (S.Short(desc) ==> S.Short(optCode))
                && (forall t :: G.Has(optCode, t) ==> G.Has(desc, t) || t == DT_BYTE)
                && (Committed(optCode) ==>
                      forall n: nat :: S.MissingAt(optCode, n) == 0 || S.MissingAt(optCode, n) == S.MissingAt(code, n))
      ensures !old(committed) && desc != [] ==>
                forall count: nat, extent: int :: count >= 1 ==>
                  (WholeTM(optCode, count, extent) == WholeTM(code, count, extent) <==> !O.Altered(desc, O.Apart))
    {
      hide WF, O.Opt, O.Altered, O.Emptied, TM, First, Run, Bounds, O.Repeating, WholeTM, Nesting.Depth;
      entries := 0;
      if committed {
        return;
      }
      committed := true;
      if desc == [] {
        code, optCode := [EndLoop(0, size, 0)], [];
        return;
      }
      assert desc[0..|desc|] == desc;
      var first := Optimize.GetFirstNonLoop(desc, 0, |desc|);
      code := desc + [EndLoop(|desc|, size, first)];
      BodyOf(desc, code[|desc|]);
      var opt, used, deepest := Optimize.OptimizeShort(code);
      entries := deepest;
      CompiledBody(code, opt[..used + 1]);
      assert opt[..used + 1][..used] == opt[..used];
      optCode := opt[..used] + [EndLoop(used, size, first)];
      forall count: nat, extent: int | count >= 1
        ensures WholeTM(optCode, count, extent) == WholeTM(code, count, extent) <==> !O.Altered(desc, O.Apart)
      {
        O.CommitCorrect(code, optCode[used], count, extent);
      }
      O.RepeatingKept(desc, O.Apart);
      O.CommitCorrect(code, optCode[used], 1, 0);
      CommittedElements(desc, code, optCode);
    }

    /** The elements of what a commit compiles. */
    static lemma {:induction false} CommittedElements(desc: seq<Rec>, code: seq<Rec>, opt: seq<Rec>)
      requires |code| > 0 && |opt| > 0 && Body(code) == desc && WF(desc)
      requires Body(opt) == O.Opt(desc, O.NoRun) && opt[|opt| - 1].EndLoop?
      ensures G.Refines(G.Marks(Body(opt)), G.Marks(desc)) && (S.Short(desc) ==> S.Short(opt))
      ensures forall t :: G.Has(opt, t) ==> G.Has(desc, t) || t == DT_BYTE
      ensures Committed(opt) && Committed(code) ==>
                forall n: nat :: S.MissingAt(opt, n) == 0 || S.MissingAt(opt, n) == S.MissingAt(code, n)
    {
      var end := opt[|opt| - 1];
      assert opt == Body(opt) + [end];
      if S.Short(desc) {
        G.OptShort(desc);
        assert S.Short(opt);
      }
      hide *;
      G.OptElements(desc);
      forall t | G.Has(opt, t) ensures G.Has(desc, t) || t == DT_BYTE {
        G.HasConcat(Body(opt), [end], t);
        G.HasOne(end, t);
        G.OptTypes(desc, O.NoRun, t);
      }
      if Committed(opt) && Committed(code) {
        forall n: nat ensures S.MissingAt(opt, n) == 0 || S.MissingAt(opt, n) == S.MissingAt(code, n) {
          G.OptMissing(code, opt, n);
        }
      }
    }

    // ----- what the flags are used for -----

    /** `ompi_ddt_is_contiguous_memory_layout`. */
    predicate ContiguousLayout(count: nat)
      reads this
    {
      contiguous && (count == 1 || noGaps)
    }

    /** Data reported as contiguous are one run of bytes, so they may be moved by a single copy. */
    lemma {:induction false} ContiguousIsRun(count: nat)
      requires Valid() && NoGapsSound() && desc != [] && count >= 1 && ContiguousLayout(count)
      ensures 0 <= count * size && Iter(desc, 0, ub - lb, count) == Run(trueLb, count * size)
    {
      hide WF, TM, Bounds, O.Repeating;
      RunCopies(desc, trueLb, size, 0, ub - lb, count);
    }

    static ghost function NewRecords(add: Datatype, count: nat, disp: int, extent: int): seq<Rec>
      reads add
    {
      if add.kind.Predefined? then BasicRecords(add.kind.typ, count, disp, extent)
      else DerivedRecords(add.desc, add.ub - add.lb, add.size, add.contiguous, count, disp, extent)
    }

    /** The contiguous flag survives: both datatypes have it and the copies follow without a gap. */
    static ghost predicate Stays(nbElems: nat, trueUb: int, contiguous: bool, add: Datatype, count: nat, disp: int,
                                 extent: int)
      reads add
    {
      && contiguous && add.contiguous && disp + add.trueLb == (if nbElems == 0 then disp else trueUb)
      && (add.size == extent || count < 2)
    }

    /** The number of loops that is kept.  Several copies of a basic type with gaps between them set it
        to 1, whatever it was. */
    static function NewLoopCount(loops: nat, add: Datatype, count: nat, extent: int): nat
      reads add
    {
      if add.kind.Predefined? then
        if extent != add.size && count > 1 then 1 else loops
      else loops + add.loopCount + if Collapses(add.desc, add.ub - add.lb, extent) || count == 1 then 0 else 2
    }

    /** The count grows by that of the added datatype and by two for a new LOOP record; a LOOP record around a
        basic type sets it to one. */
    static lemma {:induction false} LoopsCounted(loops: nat, add: Datatype, count: nat, disp: int, extent: int)
      requires add.Sound() && add.desc != [] && count >= 1
      ensures var o := NewRecords(add, count, disp, extent);
              NewLoopCount(loops, add, count, extent)
              == if add.kind.Predefined? then (if Loops(o) > 0 then 1 else loops)
                 else loops + add.loopCount + 2 * (Loops(o) - Loops(add.desc))
    {
      if add.kind.Predefined? { BasicFields(add); }
      hide Structured, Described, Run, TM, First;
      if add.kind.Predefined? {
        BasicLoops(add.kind.typ, count, disp, extent);
      } else {
        DerivedLoops(add.desc, add.ub - add.lb, add.size, add.contiguous, count, disp, extent);
      }
    }

    /** The fields that describe the data, and the contiguity flags. */
    method UpdateFields(add: Datatype, count: nat, disp: int, extent: int, newTrueLb: int, newTrueUb: int)
      requires add != this && add.Sound() && count >= 1
      requires add.kind.Predefined? || (add.kind.Derived? && add.desc != [])
      modifies this`desc, this`size, this`nbElems, this`loopCount, this`trueLb, this`trueUb, this`contiguous,
               this`noGaps
      ensures desc == old(desc) + NewRecords(add, count, disp, extent)
      ensures size == old(size) + count * add.size && nbElems == old(nbElems) + count * add.nbElems
      ensures loopCount == NewLoopCount(old(loopCount), add, count, extent)
      ensures trueLb == Min(newTrueLb, old(trueLb)) && trueUb == Max(newTrueUb, old(trueUb))
      ensures contiguous == Stays(old(nbElems), old(trueUb), old(contiguous), add, count, disp, extent)
      ensures noGaps == (contiguous && size == ub - lb)
    {
      hide *;
      Sign(count, add.size);
      Sign(count, add.nbElems);
      size := size + count * add.size;
      var oldTrueUb := if nbElems == 0 then disp else trueUb;
      trueLb, trueUb := Min(newTrueLb, trueLb), Max(newTrueUb, trueUb);
      Append(add, count, disp, extent);
      loopCount := NewLoopCount(loopCount, add, count, extent);
      var bothContiguous := contiguous && add.contiguous;
      contiguous, noGaps := false, false;
      if bothContiguous && disp + add.trueLb == oldTrueUb && (add.size == extent || count < 2) {
        contiguous := true;
        if size == ub - lb {
          noGaps := true;
        }
      }
      StaysIs(nbElems, old(trueUb), old(contiguous), add, count, disp, extent);
      nbElems := nbElems + count * add.nbElems;
    }

    static lemma {:induction false} StaysIs(nbElems: nat, trueUb: int, contiguous: bool, add: Datatype, count: nat,
                                            disp: int, extent: int)
      ensures Stays(nbElems, trueUb, contiguous, add, count, disp, extent)
           == (contiguous && add.contiguous && disp + add.trueLb == (if nbElems == 0 then disp else trueUb)
               && (add.size == extent || count < 2))
    {}

    /** Data are added. */
    method AddData(add: Datatype, count: nat, disp: int, extent: int, newTrueLb: int, newTrueUb: int)
      requires Sound() && kind.Derived? && add != this && add.Sound() && add.desc != [] && count >= 1
      requires newTrueLb < newTrueUb
      requires Valid() && add.Valid() ==>
                 && newTrueLb == CopiesLb(add.trueLb, disp, extent, count) <= LONG_MAX
                 && newTrueUb == CopiesUb(add.trueUb, disp, extent, count) >= LONG_MIN
      modifies this`desc, this`size, this`nbElems, this`loopCount, this`trueLb, this`trueUb, this`contiguous,
               this`noGaps
      ensures size == old(size) + count * add.size && desc != []
      ensures desc == old(desc) + NewRecords(add, count, disp, extent)
      ensures loopCount == NewLoopCount(old(loopCount), add, count, extent)
      ensures TM(desc, 0) == TM(old(desc), 0) + Iter(add.desc, disp, extent, count) <==> !add.Stretches(count, extent)
      ensures Sound() && (old(Valid() && add.Valid()) && !add.Stretches(count, extent) ==> Valid())
      ensures trueLb == Min(newTrueLb, old(trueLb)) && trueUb == Max(newTrueUb, old(trueUb))
      ensures contiguous == Stays(old(nbElems), old(trueUb), old(contiguous), add, count, disp, extent)
      ensures noGaps == (contiguous && size == ub - lb)
    {
      hide Described, Structured, Iter, TM, WF, Run, Bounds, O.Repeating, NewRecords, Overstretched, CopiesLb, CopiesUb;
      StructureAdded(desc, size, nbElems, add, count, disp, extent);
      if Valid() && add.Valid() {
        DataAdded(desc, size, nbElems, trueLb, trueUb, contiguous, add, count, disp, extent);
      }
      StaysSafe(nbElems, trueUb, contiguous, add, count, disp, extent);
      hide Stays;
      UpdateFields(add, count, disp, extent, newTrueLb, newTrueUb);
    }

    /** The flag survives an add exactly if the data are one run afterwards, except that it is lost as well by a
        first add of data that do not begin at the origin of their datatype. */
    static lemma {:induction false} StaysExact(c: seq<Rec>, size: nat, nbElems: nat, trueLb: int, trueUb: int,
                                               add: Datatype, count: nat, disp: int, extent: int)
      requires Described(c, size, nbElems, trueLb, trueUb, true) && count >= 1
      requires add.Valid() && add.contiguous && add.desc != []
      ensures Stays(nbElems, trueUb, true, add, count, disp, extent) <==>
                (c != [] || add.trueLb == 0) && OneRun(TM(c, 0) + Iter(add.desc, disp, extent, count))
    {
      Emptiness(c, size, nbElems, trueLb, trueUb, true);
      Emptiness(add.desc, add.size, add.nbElems, add.trueLb, add.trueUb, true);
      assert TM([], 0) == [];
      hide WF, TM, Run, Bounds, O.Repeating, Iter, OneRun;
      if c != [] { RunBounds(trueLb, size, trueLb, trueUb); }
      RunOf(trueLb, size);
      RunOf(trueLb, 0);
      FollowsExact(TM(c, 0), trueLb, add.desc, add.trueLb, add.size, disp, extent, count);
    }

    /** The contiguous flag does not survive what is overstretched. */
    static lemma {:induction false} StaysSafe(nbElems: nat, trueUb: int, contiguous: bool, add: Datatype, count: nat,
                                              disp: int, extent: int)
      requires add.Sound() && add.desc != []
      ensures Stays(nbElems, trueUb, contiguous, add, count, disp, extent) ==>
                contiguous && add.Valid() && !add.Stretches(count, extent)
    {
      if add.contiguous && (add.size == extent || count < 2) {
        RunNotStretched(add.desc, add.ub - add.lb, add.size, add.trueLb, count, extent);
      }
      hide TM, WF, Run, Bounds, O.Repeating, Overstretched;
    }

    static lemma {:induction false} StructureAdded(c: seq<Rec>, size: nat, nbElems: nat, add: Datatype, count: nat,
                                                   disp: int, extent: int)
      requires Structured(c, size, nbElems) && add.Sound() && add.desc != [] && count >= 1
      ensures c + NewRecords(add, count, disp, extent) != []
      ensures TM(c + NewRecords(add, count, disp, extent), 0) == TM(c, 0) + Iter(add.desc, disp, extent, count)
              <==> !add.Stretches(count, extent)
      ensures (Sign(count, add.size);
               Sign(count, add.nbElems);
               Structured(c + NewRecords(add, count, disp, extent), size + count * add.size,
                          nbElems + count * add.nbElems))
    {
      hide Described, Iter, TM, WF, Run, Bounds, O.Repeating, NewRecords, Overstretched;
      NewRecordsTM(add, count, disp, extent);
      Positive(count, add.nbElems);
      AppendTM(c, NewRecords(add, count, disp, extent), Iter(add.desc, disp, extent, count));
      Sign(count, add.size);
      AppendStructured(c, size, nbElems, NewRecords(add, count, disp, extent), count * add.size, count * add.nbElems);
    }

    static lemma {:induction false} DataAdded(c: seq<Rec>, size: nat, nbElems: nat, trueLb: int, trueUb: int,
                                              contiguous: bool,
                                              add: Datatype, count: nat, disp: int, extent: int)
      requires Described(c, size, nbElems, trueLb, trueUb, contiguous) && add.Valid() && add.desc != [] && count >= 1
      requires c == [] ==>
                 trueLb >= CopiesLb(add.trueLb, disp, extent, count)
                 && trueUb <= CopiesUb(add.trueUb, disp, extent, count)
      ensures (Sign(count, add.size);
               Sign(count, add.nbElems);
               !add.Stretches(count, extent) ==>
                 Described(c + NewRecords(add, count, disp, extent), size + count * add.size,
                           nbElems + count * add.nbElems,
                           Min(CopiesLb(add.trueLb, disp, extent, count), trueLb),
                           Max(CopiesUb(add.trueUb, disp, extent, count), trueUb),
                           Stays(nbElems, trueUb, contiguous, add, count, disp, extent)))
    {
      hide Described, Iter, TM, WF, Run, Bounds, O.Repeating, NewRecords, Overstretched;
      var t, o := Iter(add.desc, disp, extent, count), NewRecords(add, count, disp, extent);
      Emptiness(c, size, nbElems, trueLb, trueUb, contiguous);
      Emptiness(add.desc, add.size, add.nbElems, add.trueLb, add.trueUb, add.contiguous);
      Positive(count, add.nbElems);
      IterLength(add.desc, disp, extent, count);
      Positive(count, add.size);
      if !add.Stretches(count, extent) {
        NewRecordsTM(add, count, disp, extent);
        var stays := Stays(nbElems, trueUb, contiguous, add, count, disp, extent);
        if stays {
          StaysRun(add.desc, add.size, add.nbElems, add.trueLb, add.trueUb, disp, extent, count);
        }
        AppendDescribed(c, size, nbElems, trueLb, trueUb, contiguous, o, t, CopiesLb(add.trueLb, disp, extent, count),
                        CopiesUb(add.trueUb, disp, extent, count), count * add.nbElems, stays);
      }
    }

    /** More records than a loop can hold; the add is refused. */
    static predicate TooMany(k: Kind, used: nat, count: nat) {
      !k.Predefined? && count != 1 && used >= MAX_DT_COMPONENT_COUNT - 2
    }

    /** The true bounds of the copies fit the address type. */
    static ghost predicate Addressable(add: Datatype, count: nat, disp: int, extent: int)
      reads add
    {
      add.desc != [] && count > 0 ==>
        LONG_MIN <= CopiesLb(add.trueLb, disp, extent, count) && CopiesUb(add.trueUb, disp, extent, count) <= LONG_MAX
    }

    /** `ompi_ddt_add` for a datatype that is not a marker. */
    method AddCopies(add: Datatype, count: nat, disp: int, extent: int) returns (ok: bool)
      requires Sound() && kind.Derived? && add != this && add.Sound() && !add.kind.LbMarker? && !add.kind.UbMarker?
      requires Addressable(add, count, disp, extent)
      modifies this
      ensures ok == !TooMany(add.kind, |add.desc|, count)
      ensures !ok ==> unchanged(this)
      ensures (committed, code, optCode) == old((committed, code, optCode))
      ensures ok ==>
                var p := Copies(add.Extent(), disp, extent, count);
                && (forall l: seq<Placed> :: Encloses(old(Extent()), l) ==> Encloses(Extent(), l + [p]))
                && (!old(userUb) && !add.userUb ==>
                      forall l: seq<Placed> :: Encloses(old(Extent()), l) && Snug(old(Extent()), l) ==>
                        (Snug(Extent(), l + [p])
                         <==> old(StaysSnug(Extent(), Highest(l), add.Extent(), disp, extent, count))))
      ensures ok ==> G.Marks(desc) == old(G.Marks(desc)) + G.Times(old(G.Marks(add.desc)), count)
      ensures ok ==>
                Extent() == Grown(old(Extent()), add.Extent(), disp, extent, count) && hasData
                && size == old(size) + count * add.size
      ensures ok ==>
                (TM(desc, 0) == TM(old(desc), 0) + Iter(add.desc, disp, extent, count) <==>
                   !add.Stretches(count, extent))
      ensures Sound() && (ok && old(Valid() && add.Valid()) && !add.Stretches(count, extent) ==> Valid())
      ensures ok && (count == 0 || add.desc == []) ==>
                (desc, contiguous, noGaps, loopCount) == old((desc, contiguous, noGaps, loopCount))
      ensures ok && (count == 0 || add.desc == []) && old(NoGapsSound()) ==>
                (NoGapsSound() <==> !noGaps || old(KeepsSpan(Extent(), add.Extent(), disp, extent, count)))
      ensures ok && count > 0 && add.desc != [] ==>
                && desc != [] && desc == old(desc) + NewRecords(add, count, disp, extent)
                && loopCount == NewLoopCount(old(loopCount), add, count, extent)
                && trueLb == Min(CopiesLb(add.trueLb, disp, extent, count), old(trueLb))
                && trueUb == Max(CopiesUb(add.trueUb, disp, extent, count), old(trueUb))
                && contiguous == Stays(old(nbElems), old(trueUb), old(contiguous), add, count, disp, extent)
                && noGaps == (contiguous && size == ub - lb)
    {
      hide Described, Structured, Iter, TM, WF, Run, Bounds, O.Repeating, Overstretched, CopiesLb, CopiesUb, Grown,
           NewRecords, NewLoopCount, Stays, KeepsSpan, Stretches, Encloses, Snug, StaysSnug, Highest, G.Marks, G.Times;
      if TooMany(add.kind, |add.desc|, count) {
        return false;
      }
      WellFormedNow();
      NewMarks(desc, add, count, disp, extent);
      BoundsOrder(add, count, disp, extent);
      NoSize(add.desc, add.size, add.nbElems);
      var newTrueLb, newTrueUb := GrowExtent(add, count, disp, extent);
      hasData := true;
      if count == 0 || add.size == 0 {
        SpanKept(old(Extent()), add.Extent(), disp, extent, count);
        NothingAdded(desc, add.desc, disp, extent, count);
        Unstretched(add, count, extent);
        return true;
      }
      AddData(add, count, disp, extent, newTrueLb, newTrueUb);
      ok := true;
    }

    static lemma {:induction false} NoSize(c: seq<Rec>, size: nat, nbElems: nat)
      requires Structured(c, size, nbElems)
      ensures size == 0 <==> c == []
    {
      if c != [] { TMNonEmpty(c, 0); }
    }

    static lemma {:induction false} BoundsOrder(add: Datatype, count: nat, disp: int, extent: int)
      requires add.Sound()
      ensures add.desc != [] && count > 0 ==>
                CopiesLb(add.trueLb, disp, extent, count) < CopiesUb(add.trueUb, disp, extent, count)
    {
      hide WF, O.Repeating, TM, Run;
    }

    static lemma {:induction false} Unstretched(add: Datatype, count: nat, extent: int)
      requires count == 0 || add.desc == []
      ensures !add.Stretches(count, extent)
    {}

    static lemma {:induction false} NothingAdded(c: seq<Rec>, b: seq<Rec>, disp: int, extent: int, n: nat)
      requires n == 0 || b == []
      ensures TM(c, 0) + Iter(b, disp, extent, n) == TM(c, 0)
    {
      IterLength(b, disp, extent, n);
    }

    /** What an add places. */
    static function PlacedAs(add: Datatype, count: nat, disp: int, givenExtent: int): Placed
      reads add
    {
      match add.kind
      case LbMarker => LowerMark(disp)
      case UbMarker => UpperMark(disp)
      case _ => Copies(add.Extent(), disp, RealExtent(add.Extent(), givenExtent), count)
    }

    /** `ompi_ddt_add`. */
    method Add(add: Datatype, count: nat, disp: int, givenExtent: int) returns (ok: bool)
      requires Sound() && kind.Derived? && add != this && add.Sound()
      requires Addressable(add, count, disp, RealExtent(add.Extent(), givenExtent))
      modifies this
      ensures var marker := add.kind.LbMarker?
              || add.kind.UbMarker?; ok == (marker || !TooMany(add.kind, |add.desc|, count))
      ensures !ok ==> unchanged(this)
      ensures (committed, code, optCode) == old((committed, code, optCode))
      ensures ok ==>
                forall l: seq<Placed> :: Encloses(old(Extent()), l) ==>
                  Encloses(Extent(), l + [PlacedAs(add, count, disp, givenExtent)])
      ensures ok && !add.kind.LbMarker? && !add.kind.UbMarker? && !old(userUb) && !add.userUb ==>
                forall l: seq<Placed> :: Encloses(old(Extent()), l) && Snug(old(Extent()), l) ==>
                  (Snug(Extent(), l + [PlacedAs(add, count, disp, givenExtent)])
                   <==> old(StaysSnug(Extent(), Highest(l), add.Extent(), disp, RealExtent(add.Extent(), givenExtent),
                                      count)))
      ensures ok && !add.kind.LbMarker? && !add.kind.UbMarker? ==>
                G.Marks(desc) == old(G.Marks(desc)) + G.Times(old(G.Marks(add.desc)), count)
      ensures add.kind.LbMarker? ==>
                userLb && (ub, userUb) == old((ub, userUb)) && lb == if old(userLb) then Min(old(lb), disp) else disp
      ensures add.kind.UbMarker? ==>
                userUb && (lb, userLb) == old((lb, userLb)) && ub == if old(userUb) then Max(old(ub), disp) else disp
      ensures add.kind.LbMarker? || add.kind.UbMarker? ==>
                align == old(align) && Sound() && (old(Valid()) ==> Valid())
                && (desc, size, contiguous, loopCount) == old((desc, size, contiguous, loopCount))
                && (old(NoGapsSound()) ==> NoGapsSound())
      ensures ok && !add.kind.LbMarker? && !add.kind.UbMarker? ==>
                var extent := RealExtent(add.Extent(), givenExtent);
                && Extent() == Grown(old(Extent()), add.Extent(), disp, extent, count)
                && size == old(size) + count * add.size
                && (TM(desc, 0) == TM(old(desc), 0) + Iter(add.desc, disp, extent, count) <==>
                      !add.Stretches(count, extent))
                && Sound() && (old(Valid() && add.Valid()) && !add.Stretches(count, extent) ==> Valid())
                && (count == 0 || add.desc == [] ==>
                      (desc, contiguous, noGaps, loopCount) == old((desc, contiguous, noGaps, loopCount)))
                && ((count == 0 || add.desc == []) && old(NoGapsSound()) ==>
                      (NoGapsSound() <==> !noGaps || old(KeepsSpan(Extent(), add.Extent(), disp, extent, count))))
                && (count > 0 && add.desc != [] ==>
                      && desc != [] && desc == old(desc) + NewRecords(add, count, disp, extent)
                      && loopCount == NewLoopCount(old(loopCount), add, count, extent)
                      && trueLb == Min(CopiesLb(add.trueLb, disp, extent, count), old(trueLb))
                      && trueUb == Max(CopiesUb(add.trueUb, disp, extent, count), old(trueUb))
                      && contiguous == Stays(old(nbElems), old(trueUb), old(contiguous), add, count, disp, extent)
                      && noGaps == (contiguous && size == ub - lb))
    {
      hide Encloses, Snug, StaysSnug, Grown, KeepsSpan, CopiesLb, CopiesUb, Described, Structured, Iter, TM, NewRecords,
           Stays, NewLoopCount, Stretches, Highest, G.Marks, G.Times;
      var extent := RealExtent(add.Extent(), givenExtent);
      if add.kind.LbMarker? || add.kind.UbMarker? {
        AddMarker(add.kind, disp);
        return true;
      }
      ok := AddCopies(add, count, disp, extent);
    }

    lemma {:induction false} WellFormedNow()
      requires Sound()
      ensures WF(desc)
    {
      hide WF, TM, Described;
    }

    static lemma {:induction false} NewMarks(c: seq<Rec>, add: Datatype, count: nat, disp: int, extent: int)
      requires add.Sound() && WF(c)
      ensures count > 0 && add.desc != [] ==>
                G.Marks(c + NewRecords(add, count, disp, extent)) == G.Marks(c) + G.Times(G.Marks(add.desc), count)
      ensures count == 0 || add.desc == [] ==> G.Times(G.Marks(add.desc), count) == []
    {
      hide TM, WF, Run, Bounds, O.Repeating, Described, BasicRecords, DerivedRecords, G.Marks, G.Times;
      O.NestedWF(c);
      G.NoMarks();
      if count == 0 || add.desc == [] {
        G.TimesLength(G.Marks(add.desc), count);
      } else {
        G.MarksConcat(c, NewRecords(add, count, disp, extent));
        if add.kind.Predefined? {
          BasicMarks(add.kind.typ, count, disp, extent);
        } else {
          DerivedMarks(add.desc, add.ub - add.lb, add.size, add.contiguous, count, disp, extent);
        }
      }
    }

    /** The records of the copies denote the copies, unless one is overstretched. */
    static lemma {:induction false} NewRecordsTM(add: Datatype, count: nat, disp: int, extent: int)
      requires add.Sound() && add.desc != [] && count >= 1
      ensures var o := NewRecords(add, count, disp, extent);
              && WF(o) && o != [] && O.Repeating(o) && |TM(o, 0)| == count * add.size
              && (TM(o, 0) == Iter(add.desc, disp, extent, count) <==> !add.Stretches(count, extent))
      ensures add.Valid() && !add.Stretches(count, extent) ==>
                Denotes(NewRecords(add, count, disp, extent), Iter(add.desc, disp, extent, count),
                        CopiesLb(add.trueLb, disp, extent, count), CopiesUb(add.trueUb, disp, extent, count))
    {
      hide WF, TM, Iter, Bounds, Run, First, O.Repeating, Described, Structured, BasicRecords, DerivedRecords,
           Overstretched;
      if add.kind.Predefined? {
        BasicFields(add);
        BasicAppended(add.kind.typ, count, disp, extent);
        IterLength(add.desc, disp, extent, count);
      } else {
        if add.contiguous { DescribedStructured(add.desc, add.size, add.nbElems, add.trueLb, add.trueUb, true); }
        DerivedStructured(add.desc, add.size, add.nbElems, add.contiguous, add.ub - add.lb, count, disp, extent);
        if add.Valid() && !add.Stretches(count, extent) {
          DerivedAppended(add.desc, add.size, add.nbElems, add.trueLb, add.trueUb, add.contiguous, add.ub - add.lb,
                          count, disp, extent);
        }
      }
    }

    static lemma {:induction false} BasicFields(add: Datatype)
      requires add.Sound() && add.kind.Predefined?
      ensures add.size == add.kind.typ.size == |TM(add.desc, 0)| && add.trueLb == 0 && add.trueUb == add.size
      ensures add.Valid()
    {
      BasicDescribed(add.kind.typ);
      RunBounds(0, add.kind.typ.size, 0, add.kind.typ.size);
      BoundsUnique(TM(add.desc, 0), 0, add.kind.typ.size, add.trueLb, add.trueUb);
    }

    /** Copies of this datatype would be represented by an overstretched record. */
    ghost predicate Stretches(count: nat, extent: int)
      reads this
    {
      kind.Derived? && Overstretched(desc, ub - lb, count, extent)
    }
  }

  // ----- examples -----

  /** A datatype of one int. */
  method PlainInt(int4: Datatype) returns (d: Datatype)
    requires int4.Valid() && int4.kind == Predefined(O.INT4) && int4.align == 4
    ensures fresh(d) && d.Valid() && d.kind.Derived? && d.noGaps && d.contiguous && d.size == 4
    ensures d.Extent() == Extents(0, 4, false, false, 4) && TM(d.desc, 0) == Run(0, 4)
  {
    assert TM([], 0) == [];
    hide WF, TM, Run, Iter, Bounds, O.Repeating, Elems, Structured, Encloses, Snug, StaysSnug, G.Marks, G.Times;
    d := new Datatype();
    Datatype.BasicFields(int4);
    var ok := d.Add(int4, 1, 0, -1);
    hide Described;
    RunCopies(int4.desc, 0, 4, 0, 4, 1);
    IntOnly(int4.desc, d.desc);
  }

  /** The no-gaps flag goes stale: one int, then zero ints at displacement 20. */
  method StaleNoGaps() returns (d: Datatype)
    ensures d.Valid() && d.noGaps && d.size == 4 && d.ub - d.lb == 24 && !d.NoGapsSound()
    ensures d.ContiguousLayout(2) && Iter(d.desc, 0, d.ub - d.lb, 2) == Run(0, 4) + Run(24, 4)
  {
    hide WF, TM, Run, Iter, Bounds, O.Repeating, Elems, Structured, Encloses, Snug, StaysSnug, G.Marks, G.Times;
    var int4 := new Datatype.Basic(O.INT4, 4);
    d := PlainInt(int4);
    hide Described;
    ghost var first := d.desc;
    var ok := d.Add(int4, 0, 20, -1);
    assert d.Extent() == Extents(0, 24, false, false, 4) && d.desc == first && d.noGaps && d.contiguous;
    hide *;
    TwoApart(first);
    NotSound(d);
  }

  lemma {:induction false} IntOnly(c: seq<Rec>, d: seq<Rec>)
    requires TM(d, 0) == [] + Iter(c, 0, 4, 1) && Iter(c, 0, 4, 1) == Run(0, 4)
    ensures TM(d, 0) == Run(0, 4)
  {
    hide TM, Iter, Run;
  }

  lemma {:induction false} TwoApart(c: seq<Rec>)
    requires TM(c, 0) == Run(0, 4)
    ensures Iter(c, 0, 24, 2) == Run(0, 4) + Run(24, 4)
  {
    RunCopies(c, 0, 4, 0, 24, 1);
    RunCopies(c, 0, 4, 24, 24, 1);
    hide TM, Run, Iter;
    IterSplit(c, 0, 24, 1, 1);
  }

  lemma {:induction false} NotSound(d: Datatype)
    requires d.Extent() == Extents(0, 24, false, false, 4) && d.noGaps && d.contiguous && d.size == 4
    ensures !d.NoGapsSound() && d.ContiguousLayout(2) && d.ub - d.lb == 24
  {}

  const CHAR: Basic := Basic(0x04, 1)

  /** The upper bound is aligned after every add, for the lower bound of that time: an int, a char behind it and
      a char before it.  The upper bound is 11 in the end, although 7 would do. */
  method LooseUpper() returns (d: Datatype, ghost l: seq<Placed>)
    ensures Encloses(d.Extent(), l) && d.Extent() == Extents(-1, 11, false, false, 4) && Highest(l) == 5
    ensures Clears(l, 7) && OnGrid(7, d.lb, d.align) && !Snug(d.Extent(), l)
  {
    hide WF, TM, Run, Iter, Bounds, O.Repeating, Elems, Described, Structured, Encloses, Snug, Clears, G.Marks, G.Times;
    var int4 := new Datatype.Basic(O.INT4, 4);
    var byte1 := new Datatype.Basic(CHAR, 1);
    Datatype.BasicFields(int4);
    Datatype.BasicFields(byte1);
    d := new Datatype();
    var ok := d.Add(int4, 1, 0, -1);
    l := [] + [Copies(Extents(0, 4, false, false, 4), 0, 4, 1)];
    assert d.Extent() == Extents(0, 4, false, false, 4);
    ok := d.Add(byte1, 1, 4, -1);
    l := l + [Copies(Extents(0, 1, false, false, 1), 4, 1, 1)];
    assert d.Extent() == Extents(0, 8, false, false, 4);
    ok := d.Add(byte1, 1, -1, -1);
    l := l + [Copies(Extents(0, 1, false, false, 1), -1, 1, 1)];
    assert d.Extent() == Extents(-1, 11, false, false, 4);
    Loose(l);
    ClearsHighest(l, 7);
  }

  lemma {:induction false} Loose(l: seq<Placed>)
    requires l == [Copies(Extents(0, 4, false, false, 4), 0, 4, 1), Copies(Extents(0, 1, false, false, 1), 4, 1, 1),
                   Copies(Extents(0, 1, false, false, 1), -1, 1, 1)]
    ensures Highest(l) == 5 && OnGrid(7, -1, 4) && (Clears(l, 7) ==> !Snug(Extents(-1, 11, false, false, 4), l))
  {
    hide Clears;
    assert l[..2] == [l[0], l[1]] && l[..2][..1] == [l[0]] && l[..1][..0] == [];
    assert Highest([l[0]]) == 4 by { assert [l[0]][..0] == []; }
    assert Highest([l[0], l[1]]) == 5 by { assert [l[0], l[1]][..1] == [l[0]]; }
  }

  /** Three ints, resized to the extent of one. */
  method ResizedInts() returns (base: Datatype)
    ensures fresh(base) && base.Valid() && base.kind.Derived? && base.desc == [Data(O.INT4, 3, 0, 4, true)]
    ensures base.Extent() == Extents(0, 4, false, true, 4) && base.lb == 0 && base.ub == 4
    ensures base.trueLb == 0 && base.trueUb == 12
  {
    hide WF, TM, Run, Iter, Bounds, O.Repeating, Elems, Described, Structured, Encloses, Snug, StaysSnug, G.Marks,
         G.Times;
    var int4 := new Datatype.Basic(O.INT4, 4);
    var ub := new Datatype.Marker(UbMarker);
    Datatype.BasicFields(int4);
    base := new Datatype();
    var ok := base.Add(int4, 3, 0, -1);
    assert base.desc == [Data(O.INT4, 3, 0, 4, true)] && base.Valid();
    assert base.Extent() == Extents(0, 12, false, false, 4);
    ok := base.Add(ub, 1, 4, 0);
    assert base.desc == [Data(O.INT4, 3, 0, 4, true)] && base.ub == 4 && base.lb == 0;
    IntsBounds(base);
  }

  /** A multiplied record does not overlap as the copies should: three ints, resized to the extent of
      one, and two copies of that. */
  method Overlapping() returns (base: Datatype, d: Datatype)
    ensures base.Valid() && TM(base.desc, 0) == Run(0, 12) && base.ub - base.lb == 4
    ensures d.desc == [Data(O.INT4, 6, 0, 4, true)] && TM(d.desc, 0) == Run(0, 24)
    ensures Iter(base.desc, 0, 4, 2) == Run(0, 12) + Run(4, 12) != TM(d.desc, 0)
  {
    hide WF, TM, Run, Iter, Bounds, O.Repeating, Elems, Described, Structured, Encloses, Snug, StaysSnug, G.Marks,
         G.Times;
    base := ResizedInts();
    d := new Datatype();
    var ok := d.Add(base, 2, 0, -1);
    assert d.desc == [Data(O.INT4, 6, 0, 4, true)];
    hide *;
    SixInts();
  }

  lemma {:induction false} IntsBounds(d: Datatype)
    requires d.Valid() && d.desc == [Data(O.INT4, 3, 0, 4, true)]
    ensures d.trueLb == 0 && d.trueUb == 12
  {
    SixInts();
    hide WF, TM, Run, Bounds, O.Repeating;
    RunBounds(0, 12, d.trueLb, d.trueUb);
  }

  lemma {:induction false} TwoRuns()
    ensures Run(0, 12) + Run(4, 12) != Run(0, 24)
  {
    assert (Run(0, 12) + Run(4, 12))[12] == 4 && Run(0, 24)[12] == 12;
  }

  lemma {:induction false} SixInts()
    ensures TM([Data(O.INT4, 3, 0, 4, true)], 0) == Run(0, 12) && TM([Data(O.INT4, 6, 0, 4, true)], 0) == Run(0, 24)
    ensures Iter([Data(O.INT4, 3, 0, 4, true)], 0, 4, 2) == Run(0, 12) + Run(4, 12) != Run(0, 24)
  {
    hide TM, Elems, Iter, Run;
    O.OneData(Data(O.INT4, 3, 0, 4, true));
    O.OneData(Data(O.INT4, 6, 0, 4, true));
    ElemsRun(4, 3, 0);
    ElemsRun(4, 6, 0);
    var base := [Data(O.INT4, 3, 0, 4, true)];
    RunCopies(base, 0, 12, 0, 4, 1);
    RunCopies(base, 0, 12, 4, 4, 1);
    IterSplit(base, 0, 4, 1, 1);
    TwoRuns();
  }

  // ----- what the compiler spoils -----

  /** One basic element and the bounds that the user gives it. */
  method OneInt(int4: Datatype, extent: int) returns (d: Datatype)
    requires int4.Valid() && int4.kind == Predefined(O.INT4) && int4.align == 4 && extent >= 4
    ensures fresh(d) && d.Valid() && d.kind.Derived? && !d.committed && d.size == 4 && d.contiguous && d.trueLb == 0
    ensures d.trueUb == 4
    ensures d.desc == [Data(O.INT4, 1, 0, extent, true)] && d.lb == 0 && d.ub == extent
  {
    hide WF, TM, Run, Iter, Bounds, O.Repeating, Elems, Described, Structured, Encloses, Snug, StaysSnug, G.Marks,
         G.Times;
    var ub := new Datatype.Marker(UbMarker);
    Datatype.BasicFields(int4);
    d := new Datatype();
    var ok := d.Add(int4, 1, 0, extent);
    assert d.desc == [Data(O.INT4, 1, 0, extent, true)] && d.Valid();
    assert d.Extent() == Extents(0, 4, false, false, 4) && d.size == 4 && d.contiguous;
    ok := d.Add(ub, 1, extent, 0);
    hide *;
    OneIntBounds(d, extent);
  }

  lemma {:induction false} OneIntBounds(d: Datatype, extent: int)
    requires d.Valid() && d.desc == [Data(O.INT4, 1, 0, extent, true)]
    ensures d.trueLb == 0 && d.trueUb == 4
  {
    O.OneData(d.desc[0]);
    O.OneBlock(4, 1, 0, extent);
    hide WF, TM, Run, Bounds, O.Repeating, Elems;
    RunBounds(0, 4, d.trueLb, d.trueUb);
  }

  /** An int and two blocks of 4 bytes, 8 bytes apart, put together by adding and committed: the last
      block is lost and the one before it is moved twice. */
  method PeeledOnCommit() returns (d: Datatype)
    ensures d.Valid() && d.committed && |d.code| > 0 && |d.optCode| > 0
    ensures forall extent :: WholeTM(d.code, 1, extent) == Run(0, 4) + Run(4, 4) + Run(12, 4)
    ensures forall extent :: WholeTM(d.optCode, 1, extent) == Run(0, 4) + Run(4, 4) + Run(4, 4)
  {
    hide *;
    HeadIs();
    var int4 := new Datatype.Basic(O.INT4, 4);
    var block := OneInt(int4, 4);
    d := OneInt(int4, 4);
    PeelAdds(block, d);
    var ok := d.Add(block, 2, 4, 8);
    WellFormed(d);
    var entries := d.Commit();
    PeeledWhole(d);
  }

  lemma {:induction false} HeadIs()
    ensures O.HEAD == Data(O.INT4, 1, 0, 4, true) && O.INT4.size >= 1
  {}

  lemma {:induction false} WellFormed(d: Datatype)
    requires d.Sound()
    ensures WF(d.desc)
  {
    hide WF, TM, O.Repeating, Described;
  }

  /** What is added to the int. */
  lemma {:induction false} PeelAdds(block: Datatype, d: Datatype)
    requires block.Valid() && block.kind.Derived? && block.desc == [O.HEAD] && block.size == 4 && block.contiguous
    requires block.lb == 0 && block.ub == 4 && block.trueLb == 0 && block.trueUb == 4
    requires d.Valid() && d.desc == [O.HEAD]
    ensures d.Sound() && block.Sound() && !block.Stretches(2, 8) && !Datatype.TooMany(block.kind, |block.desc|, 2)
    ensures block.desc != []
    ensures Datatype.RealExtent(block.Extent(), 8) == 8 && Datatype.Addressable(block, 2, 4, 8)
    ensures d.desc + Datatype.NewRecords(block, 2, 4, 8) == [O.HEAD] + O.LOOP
  {
    PeelRecords();
    hide WF, TM, Run, Bounds, O.Repeating, Described, Structured, DerivedRecords, First, Moved, Looped;
  }

  lemma {:induction false} PeelRecords()
    ensures DerivedRecords([O.HEAD], 4, 4, true, 2, 4, 8) == O.LOOP
  {
    hide *;
    OneMoved();
    OneLooped();
    assert [O.HEAD] != [];
    NotCollapsed(Moved([O.HEAD], 4));
  }

  lemma {:induction false} OneMoved()
    ensures Moved([O.HEAD], 4) == [O.BLOCK]
  {
    assert Moved([O.HEAD], 4)[0] == MoveRec(O.HEAD, 4);
  }

  lemma {:induction false} OneLooped()
    ensures Looped([O.BLOCK], 4, true, 2, 8) == O.LOOP
  {
    hide Run, TM;
    assert First([O.BLOCK]) == 4;
  }

  lemma {:induction false} NotCollapsed(m: seq<Rec>)
    requires m == Moved([O.HEAD], 4)
    ensures DerivedRecords([O.HEAD], 4, 4, true, 2, 4, 8) == Looped(m, 4, true, 2, 8)
  {
    hide Moved, Looped, First, TM;
  }

  lemma {:induction false} PeeledWhole(d: Datatype)
    requires d.desc == [O.HEAD] + O.LOOP && WF(d.desc) && |d.optCode| >= 1
    requires d.code == d.desc + [EndLoop(|d.desc|, d.size, First(d.desc))]
    requires d.optCode == O.Opt(d.desc, O.NoRun) + [EndLoop(|d.optCode| - 1, d.size, First(d.desc))]
    ensures |d.code| > 0 && |d.optCode| > 0
    ensures forall extent :: WholeTM(d.code, 1, extent) == Run(0, 4) + Run(4, 4) + Run(12, 4)
    ensures forall extent :: WholeTM(d.optCode, 1, extent) == Run(0, 4) + Run(4, 4) + Run(4, 4)
  {
    O.PeelSource();
    O.PeelOutput();
    O.PeelMeaning();
    hide TM, WF, Run, WholeTM, O.Opt, First;
    forall extent
      ensures WholeTM(d.code, 1, extent) == Run(0, 4) + Run(4, 4) + Run(12, 4)
      ensures WholeTM(d.optCode, 1, extent) == Run(0, 4) + Run(4, 4) + Run(4, 4)
    {
      O.WholeOnce(d.desc, d.code[|d.code| - 1], extent);
      O.WholeOnce(O.Opt(d.desc, O.NoRun), d.optCode[|d.optCode| - 1], extent);
    }
  }

  /** Three ints, each resized to 8 bytes, and one at displacement 12, put together by adding and
      committed: 16 adjacent bytes are moved. */
  method SpoiltOnCommit() returns (d: Datatype)
    ensures d.Valid() && d.committed && |d.code| > 0 && |d.optCode| > 0
    ensures forall extent :: WholeTM(d.code, 1, extent) == Run(0, 4) + Run(8, 4) + Run(16, 4) + Run(12, 4)
    ensures forall extent :: WholeTM(d.optCode, 1, extent) == Run(0, 16)
  {
    var int4 := new Datatype.Basic(O.INT4, 4);
    hide *;
    var wide := OneInt(int4, 8);
    d := new Datatype();
    SpoilAdds(wide, d, int4);
    var ok := d.Add(wide, 3, 0, -1);
    SpoilMore(d, int4);
    ok := d.Add(int4, 1, 12, 4);
    WellFormed(d);
    var entries := d.Commit();
    SpoiltWhole(d);
  }

  lemma {:induction false} SpoilAdds(wide: Datatype, d: Datatype, int4: Datatype)
    requires wide.Valid() && wide.kind.Derived? && wide.desc == [Data(O.INT4, 1, 0, 8, true)] && wide.size == 4
    requires wide.lb == 0 && wide.ub == 8 && wide.trueLb == 0 && wide.trueUb == 4
    requires d.Valid() && d.desc == [] && int4.Valid() && int4.kind == Predefined(O.INT4)
    ensures d.Sound() && wide.Sound() && !wide.Stretches(3, 8) && !Datatype.TooMany(wide.kind, |wide.desc|, 3)
    ensures wide.desc != []
    ensures Datatype.RealExtent(wide.Extent(), -1) == 8 && Datatype.Addressable(wide, 3, 0, 8)
    ensures d.desc + Datatype.NewRecords(wide, 3, 0, 8) == [Data(O.INT4, 3, 0, 8, true)]
  {
    hide WF, TM, Run, Bounds, O.Repeating, Described, Structured;
  }

  lemma {:induction false} SpoilMore(d: Datatype, int4: Datatype)
    requires d.Valid() && d.desc == [Data(O.INT4, 3, 0, 8, true)] && int4.Valid() && int4.kind == Predefined(O.INT4)
    ensures d.Sound() && int4.Sound() && !int4.Stretches(1, 4) && !Datatype.TooMany(int4.kind, |int4.desc|, 1)
    ensures int4.desc != []
    ensures Datatype.RealExtent(int4.Extent(), 4) == 4 && Datatype.Addressable(int4, 1, 12, 4)
    ensures d.desc + Datatype.NewRecords(int4, 1, 12, 4) == [Data(O.INT4, 3, 0, 8, true), Data(O.INT4, 1, 12, 4, true)]
  {
    Datatype.BasicFields(int4);
    hide WF, TM, Run, Bounds, O.Repeating, Described, Structured;
  }

  lemma {:induction false} SpoiltWhole(d: Datatype)
    requires d.desc == [Data(O.INT4, 3, 0, 8, true), Data(O.INT4, 1, 12, 4, true)] && WF(d.desc) && |d.optCode| >= 1
    requires d.code == d.desc + [EndLoop(|d.desc|, d.size, First(d.desc))]
    requires d.optCode == O.Opt(d.desc, O.NoRun) + [EndLoop(|d.optCode| - 1, d.size, First(d.desc))]
    ensures |d.code| > 0 && |d.optCode| > 0
    ensures forall extent :: WholeTM(d.code, 1, extent) == Run(0, 4) + Run(8, 4) + Run(16, 4) + Run(12, 4)
    ensures forall extent :: WholeTM(d.optCode, 1, extent) == Run(0, 16)
  {
    O.SpoilExample();
    hide TM, WF, Run, WholeTM, O.Opt, First;
    forall extent
      ensures WholeTM(d.code, 1, extent) == Run(0, 4) + Run(8, 4) + Run(16, 4) + Run(12, 4)
      ensures WholeTM(d.optCode, 1, extent) == Run(0, 16)
    {
      O.WholeOnce(d.desc, d.code[|d.code| - 1], extent);
      O.WholeOnce(O.Opt(d.desc, O.NoRun), d.optCode[|d.optCode| - 1], extent);
    }
  }

  lemma {:induction false} BodyOf(c: seq<Rec>, end: Rec)
    ensures Body(c + [end]) == c
  {}

  lemma {:induction false} CompiledBody(code: seq<Rec>, out: seq<Rec>)
    requires Optimize.Compiled(code, out)
    ensures 1 <= |out| <= |code| && WF(Body(code)) && out[..|out| - 1] == O.Opt(Body(code), O.NoRun)
  {
    hide WF, O.Opt;
  }

  lemma {:induction false} LoopedIs(before: seq<Rec>, c: seq<Rec>, size: nat, contiguous: bool, n: nat, extent: int)
    ensures before + [Loop(n, |c| + 1, extent, contiguous)] + c + [EndLoop(|c| + 1, size, First(c))]
         == before + Looped(c, size, contiguous, n, extent)
  {}
}
