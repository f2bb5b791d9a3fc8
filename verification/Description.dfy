/** Descriptions of datatypes that are sent to another process: the printer and the parser.

    A description is a sequence of 32-bit words; an address takes two of them.

    Source: openmpi-1.4.2/ompi/datatype/dt_args.c. */
module Description {

  const DT_MAX_PREDEFINED: nat := 0x2A

  const COMBINER_DUP: nat := 1
  const COMBINER_CONTIGUOUS: nat := 2
  const COMBINER_VECTOR: nat := 3
  const COMBINER_HVECTOR_INTEGER: nat := 4
  const COMBINER_HVECTOR: nat := 5
  const COMBINER_INDEXED: nat := 6
  const COMBINER_HINDEXED_INTEGER: nat := 7
  const COMBINER_HINDEXED: nat := 8
  const COMBINER_INDEXED_BLOCK: nat := 9
  const COMBINER_STRUCT_INTEGER: nat := 10
  const COMBINER_STRUCT: nat := 11
  const COMBINER_SUBARRAY: nat := 12
  const COMBINER_RESIZED: nat := 17

  datatype Option<T> = None | Some(value: T)

  /** A datatype, as the constructor calls that made it.  `integer` marks the variants whose combiner says that
      addresses were given as integers.  `Other` stands for the combiners that the parser does not
      rebuild: subarray, darray, the Fortran types and resized. */
  datatype Type =
    | Basic(id: nat)
    | Contiguous(count: int, base: Type)
    | Vector(count: int, blockLength: int, stride: int, base: Type)
    | Hvector(count: int, blockLength: int, stride: int, integer: bool, base: Type)
    | Indexed(lengths: seq<int>, disps: seq<int>, base: Type)
    | Hindexed(lengths: seq<int>, disps: seq<int>, integer: bool, base: Type)
    | IndexedBlock(blockLength: int, disps: seq<int>, base: Type)
    | Struct(lengths: seq<int>, disps: seq<int>, integer: bool, types: seq<Type>)
    | Other(combiner: nat, ints: seq<int>, aints: seq<int>, types: seq<Type>)

  /** The datatypes a datatype was made of. */
  function Parts(t: Type): seq<Type> {
    match t
    case Basic(_) => []
    case Struct(_, _, _, types) => types
    case Other(_, _, _, types) => types
    case _ => [t.base]
  }

  ghost predicate WellFormed(t: Type) {
    && (forall k :: 0 <= k < |Parts(t)| ==> WellFormed(Parts(t)[k]))
    && match t
       case Basic(id) => id < DT_MAX_PREDEFINED
       case Indexed(lengths, disps, _) => |lengths| == |disps|
       case Hindexed(lengths, disps, _, _) => |lengths| == |disps|
       case Struct(lengths, disps, _, types) => |lengths| == |disps| == |types|
       case Other(combiner, _, _, _) => COMBINER_SUBARRAY <= combiner <= COMBINER_RESIZED
       case _ => true
  }

  /** No part was made with a combiner that the parser does not know. */
  ghost predicate Rebuildable(t: Type) {
    !t.Other? && forall k :: 0 <= k < |Parts(t)| ==> Rebuildable(Parts(t)[k])
  }

  /** The call that a parser makes: the same constructors with the same arguments. */
  function Call(t: Type): Type
    decreases t, 1
  {
    match t
    case Basic(_) => t
    case Contiguous(count, _) => Contiguous(count, Calls(t)[0])
    case Vector(count, blockLength, stride, _) => Vector(count, blockLength, stride, Calls(t)[0])
    case Hvector(count, blockLength, stride, _, _) => Hvector(count, blockLength, stride, false, Calls(t)[0])
    case Indexed(lengths, disps, _) => Indexed(lengths, disps, Calls(t)[0])
    case Hindexed(lengths, disps, _, _) => Hindexed(lengths, disps, false, Calls(t)[0])
    case IndexedBlock(blockLength, disps, _) => IndexedBlock(blockLength, disps, Calls(t)[0])
    case Struct(lengths, disps, _, _) => Struct(lengths, disps, false, Calls(t))
    case Other(_, _, _, _) => t
  }

  /** The calls for the parts. */
  function Calls(t: Type): (c: seq<Type>)
    ensures |c| == |Parts(t)|
    decreases t, 0
  {
    seq(|Parts(t)|, k requires 0 <= k < |Parts(t)| => Call(Parts(t)[k]))
  }

  // ----- the arguments that are kept with a datatype -----

  /** `ompi_ddt_set_args`: the combiner, the integers and the addresses. */
  datatype Args = Args(combiner: nat, ints: seq<int>, aints: seq<int>)

  function SetArgs(t: Type): Args
    requires !t.Basic?
  {
    match t
    case Contiguous(count, _) => Args(COMBINER_CONTIGUOUS, [count], [])
    case Vector(count, blockLength, stride, _) => Args(COMBINER_VECTOR, [count, blockLength, stride], [])
    case Hvector(count, blockLength, stride, integer, _) =>
      Args(if integer then COMBINER_HVECTOR_INTEGER else COMBINER_HVECTOR, [count, blockLength], [stride])
    case Indexed(lengths, disps, _) => Args(COMBINER_INDEXED, [|lengths|] + lengths + disps, [])
    case Hindexed(lengths, disps, integer, _) =>
      Args(if integer then COMBINER_HINDEXED_INTEGER else COMBINER_HINDEXED, [|lengths|] + lengths, disps)
    case IndexedBlock(blockLength, disps, _) => Args(COMBINER_INDEXED_BLOCK, [|disps|, blockLength] + disps, [])
    case Struct(lengths, disps, integer, _) =>
      Args(if integer then COMBINER_STRUCT_INTEGER else COMBINER_STRUCT, [|lengths|] + lengths, disps)
    case Other(combiner, ints, aints, _) => Args(combiner, ints, aints)
  }

  /** `__ompi_ddt_create_from_args`: the constructor call, if there is one for the combiner. */
  function FromArgs(args: Args, types: seq<Type>): Option<Type> {
    var i, a := args.ints, args.aints;
    var n := if |i| > 0 then i[0] else 0;
    if args.combiner == COMBINER_CONTIGUOUS then
      if |i| >= 1 && |types| >= 1 then Some(Contiguous(i[0], types[0])) else None
    else if args.combiner == COMBINER_VECTOR then
      if |i| >= 3 && |types| >= 1 then Some(Vector(i[0], i[1], i[2], types[0])) else None
    else if args.combiner == COMBINER_HVECTOR_INTEGER || args.combiner == COMBINER_HVECTOR then
      if |i| >= 2 && |a| >= 1 && |types| >= 1 then Some(Hvector(i[0], i[1], a[0], false, types[0])) else None
    else if args.combiner == COMBINER_INDEXED then
      if |i| >= 1 && n >= 0 && |i| >= 1 + 2 * n
         && |types| >= 1 then Some(Indexed(i[1..1 + n], i[1 + n..1 + 2 * n], types[0])) else None
    else if args.combiner == COMBINER_HINDEXED_INTEGER || args.combiner == COMBINER_HINDEXED then
      if |i| >= 1 && n >= 0 && |i| >= 1 + n && |a| >= n
         && |types| >= 1 then Some(Hindexed(i[1..1 + n], a[..n], false, types[0])) else None
    else if args.combiner == COMBINER_INDEXED_BLOCK then
      if |i| >= 2 && n >= 0 && |i| >= 2 + n
         && |types| >= 1 then Some(IndexedBlock(i[1], i[2..2 + n], types[0])) else None
    else if args.combiner == COMBINER_STRUCT_INTEGER || args.combiner == COMBINER_STRUCT then
      if |i| >= 1 && n >= 0 && |i| >= 1 + n && |a| >= n
         && |types| >= n then Some(Struct(i[1..1 + n], a[..n], false, types[..n])) else None
    else None
  }

  lemma {:induction false} Slices(head: seq<int>, x: seq<int>, y: seq<int>)
    ensures (head + x + y)[|head|..|head| + |x|] == x
    ensures (head + x + y)[|head| + |x|..|head| + |x| + |y|] == y
    ensures (head + x)[|head|..|head| + |x|] == x && x[..|x|] == x
  {}

  lemma {:induction false} FromIndexed(lengths: seq<int>, disps: seq<int>, base: Type)
    requires |lengths| == |disps|
    ensures FromArgs(Args(COMBINER_INDEXED, [|lengths|] + lengths + disps, []), [base])
              == Some(Indexed(lengths, disps, base))
  {
    Slices([|lengths|], lengths, disps);
  }

  lemma {:induction false} FromHindexed(combiner: nat, lengths: seq<int>, disps: seq<int>, base: Type)
    requires |lengths| == |disps| && (combiner == COMBINER_HINDEXED || combiner == COMBINER_HINDEXED_INTEGER)
    ensures FromArgs(Args(combiner, [|lengths|] + lengths, disps), [base])
              == Some(Hindexed(lengths, disps, false, base))
  {
    Slices([|lengths|], lengths, []);
    Slices([], disps, []);
  }

  lemma {:induction false} FromIndexedBlock(blockLength: int, disps: seq<int>, base: Type)
    ensures FromArgs(Args(COMBINER_INDEXED_BLOCK, [|disps|, blockLength] + disps, []), [base])
              == Some(IndexedBlock(blockLength, disps, base))
  {
    Slices([|disps|, blockLength], disps, []);
  }

  lemma {:induction false} FromStruct(combiner: nat, lengths: seq<int>, disps: seq<int>, types: seq<Type>)
    requires |lengths| == |disps| == |types| && (combiner == COMBINER_STRUCT || combiner == COMBINER_STRUCT_INTEGER)
    ensures FromArgs(Args(combiner, [|lengths|] + lengths, disps), types)
              == Some(Struct(lengths, disps, false, types))
  {
    Slices([|lengths|], lengths, []);
    Slices([], disps, []);
    assert types[..|lengths|] == types;
  }

  lemma {:induction false} OnePart(t: Type)
    requires |Parts(t)| == 1
    ensures Calls(t) == [Calls(t)[0]]
  {}

  /** The constructor call that is made from the kept arguments is the one they were kept from. */
  lemma {:induction false} FromSetArgs(t: Type)
    requires WellFormed(t) && !t.Basic?
    ensures FromArgs(SetArgs(t), Calls(t)) == if t.Other? then None else Some(Call(t))
    ensures SetArgs(t).combiner != COMBINER_DUP
  {
    if |Parts(t)| == 1 { OnePart(t); }
    hide Calls;
    match t
    case Indexed(lengths, disps, base) =>
      FromIndexed(lengths, disps, Calls(t)[0]);
      hide FromArgs;
    case Hindexed(lengths, disps, integer, base) =>
      FromHindexed(SetArgs(t).combiner, lengths, disps, Calls(t)[0]);
      hide FromArgs;
    case IndexedBlock(blockLength, disps, base) =>
      FromIndexedBlock(blockLength, disps, Calls(t)[0]);
      hide FromArgs;
    case Struct(lengths, disps, integer, types) =>
      FromStruct(SetArgs(t).combiner, lengths, disps, Calls(t));
      hide FromArgs;
    case _ =>
  }

  // ----- words -----

  const WORD: nat := 0x1_0000_0000

  /** An address in two words. */
  function AddressWords(a: int): seq<int> {
    [a % WORD, a / WORD]
  }

  function AddressesWords(a: seq<int>): (w: seq<int>)
    ensures |w| == 2 * |a|
  {
    if a == [] then [] else AddressWords(a[0]) + AddressesWords(a[1..])
  }

  function WordsAddresses(w: seq<int>): (a: seq<int>)
    requires |w| % 2 == 0
    ensures |a| == |w| / 2
  {
    if w == [] then [] else [w[0] + w[1] * WORD] + WordsAddresses(w[2..])
  }

  lemma {:induction false} AddressRoundTrip(a: seq<int>)
    ensures WordsAddresses(AddressesWords(a)) == a
  {
    if a != [] {
      AddressRoundTrip(a[1..]);
      var w := AddressesWords(a);
      assert w[2..] == AddressesWords(a[1..]);
      assert w[0] + w[1] * WORD == a[0];
    }
  }

  // ----- the printed form -----

  /** What is printed for a datatype that is not basic: the header, the addresses, one word for
      each part, the integers, and then the parts that are not basic.  `next` numbers those. */
  ghost function Printed(t: Type, next: nat): (r: (seq<int>, nat))
    requires !t.Basic?
    decreases t, |Parts(t)| + 1
  {
    var args := SetArgs(t);
    var kids := PrintedParts(t, 0, next);
    ([args.combiner, |args.ints|, |args.aints|, |Parts(t)|] + AddressesWords(args.aints) + kids.0 + args.ints + kids.1,
     kids.2)
  }

  /** The words for the parts from the k-th on, what is printed for those that are not basic, and
      the next number. */
  ghost function PrintedParts(t: Type, k: nat, next: nat): (r: (seq<int>, seq<int>, nat))
    requires k <= |Parts(t)|
    ensures |r.0| == |Parts(t)| - k && r.2 >= next
    decreases t, |Parts(t)| - k
  {
    if k == |Parts(t)| then ([], [], next)
    else if Parts(t)[k].Basic? then
      var rest := PrintedParts(t, k + 1, next);
      ([Parts(t)[k].id] + rest.0, rest.1, rest.2)
    else
      var one := Printed(Parts(t)[k], next + 1);
      var rest := PrintedParts(t, k + 1, one.1);
      ([next] + rest.0, one.0 + rest.1, rest.2)
  }

  // ----- the words, one by one -----

  /** The two words for an address. */
  ghost predicate AddressIn(words: seq<int>, at: nat, a: int) {
    at + 2 <= |words| && 0 <= words[at] < 0x1_0000_0000 && words[at] + words[at + 1] * 0x1_0000_0000 == a
  }

  ghost predicate AddressesIn(words: seq<int>, at: nat, a: seq<int>) {
    at + 2 * |a| <= |words| && forall k: nat :: k < |a| ==> AddressIn(words, at + 2 * k, a[k])
  }

  ghost predicate IntsIn(words: seq<int>, at: nat, ints: seq<int>) {
    at + |ints| <= |words| && forall k: nat :: k < |ints| ==> words[at + k] == ints[k]
  }

  /** How many integers and how many addresses a datatype has. */
  function IntCount(t: Type): nat
    requires !t.Basic?
  {
    match t
    case Contiguous(_, _) => 1
    case Vector(_, _, _, _) => 3
    case Hvector(_, _, _, _, _) => 2
    case Indexed(lengths, disps, _) => 1 + |lengths| + |disps|
    case Hindexed(lengths, _, _, _) => 1 + |lengths|
    case IndexedBlock(_, disps, _) => 2 + |disps|
    case Struct(lengths, _, _, _) => 1 + |lengths|
    case Other(_, ints, _, _) => |ints|
  }

  function AddressCount(t: Type): nat
    requires !t.Basic?
  {
    match t
    case Hvector(_, _, _, _, _) => 1
    case Hindexed(_, disps, _, _) => |disps|
    case Struct(_, disps, _, _) => |disps|
    case Other(_, _, aints, _) => |aints|
    case _ => 0
  }

  /** Where the words for the parts are, and behind them the integers. */
  function PartsAt(at: nat, t: Type): nat
    requires !t.Basic?
  {
    at + 4 + 2 * AddressCount(t)
  }

  function IntsAt(at: nat, t: Type): nat
    requires !t.Basic?
  {
    PartsAt(at, t) + |Parts(t)|
  }

  /** The words of a datatype, except those for its parts: the combiner by its number in mpi.h, the three counts, the
      addresses, and the integers in the order of the arguments of the call. */
  ghost predicate Heading(words: seq<int>, at: nat, t: Type)
    requires !t.Basic?
  {
    var i := IntsAt(at, t);
    && i + IntCount(t) <= |words|
    && words[at + 1] == IntCount(t) && words[at + 2] == AddressCount(t) && words[at + 3] == |Parts(t)|
    && match t
       case Contiguous(count, _) => words[at] == 2 && words[i] == count
       case Vector(count, blockLength, stride, _) =>
         words[at] == 3 && words[i] == count && words[i + 1] == blockLength && words[i + 2] == stride
       case Hvector(count, blockLength, stride, integer, _) =>
         words[at] == (if integer then 4 else 5) && AddressIn(words, at + 4, stride)
         && words[i] == count && words[i + 1] == blockLength
       case Indexed(lengths, disps, _) =>
         words[at] == 6 && words[i] == |lengths| && IntsIn(words, i + 1, lengths)
         && IntsIn(words, i + 1 + |lengths|, disps)
       case Hindexed(lengths, disps, integer, _) =>
         words[at] == (if integer then 7 else 8) && AddressesIn(words, at + 4, disps)
         && words[i] == |lengths| && IntsIn(words, i + 1, lengths)
       case IndexedBlock(blockLength, disps, _) =>
         words[at] == 9 && words[i] == |disps| && words[i + 1] == blockLength && IntsIn(words, i + 2, disps)
       case Struct(lengths, disps, integer, _) =>
         words[at] == (if integer then 10 else 11) && AddressesIn(words, at + 4, disps)
         && words[i] == |lengths| && IntsIn(words, i + 1, lengths)
       case Other(combiner, ints, aints, _) =>
         words[at] == combiner && AddressesIn(words, at + 4, aints) && IntsIn(words, i, ints)
  }

  /** The words from `at` to `end` are the description of `t`: its heading, and for each part the id of a basic type, or
      the next number and, behind the integers, the description of the part.  Numbers are given
      from `next` on, and `last` comes next in the end. */
  ghost predicate Spelled(words: seq<int>, at: nat, end: nat, t: Type, next: nat, last: nat)
    requires !t.Basic?
    decreases t, |Parts(t)| + 1
  {
    Heading(words, at, t) && PartsSpelled(words, at, t, 0, IntsAt(at, t) + IntCount(t), end, next, last)
  }

  /** The same for the parts from the k-th on, whose descriptions begin at `start`. */
  ghost predicate PartsSpelled(words: seq<int>, at: nat, t: Type, k: nat, start: nat, end: nat, next: nat, last: nat)
    requires !t.Basic? && k <= |Parts(t)|
    decreases t, |Parts(t)| - k
  {
    if k == |Parts(t)| then start == end <= |words| && next == last
    else
      && PartsAt(at, t) + k < |words|
      && var part, word := Parts(t)[k], words[PartsAt(at, t) + k];
         if part.Basic? then word == part.id && PartsSpelled(words, at, t, k + 1, start, end, next, last)
         else
           word == next
           && exists mid, after :: PartSpelled(words, start, mid, part, next, after)
                                   && PartsSpelled(words, at, t, k + 1, mid, end, after, last)
  }

  /** The description of a part that has a number; the numbers inside it follow that one. */
  ghost predicate PartSpelled(words: seq<int>, start: nat, end: nat, part: Type, number: nat, last: nat)
    requires !part.Basic?
    decreases part, |Parts(part)| + 2
  {
    Spelled(words, start, end, part, number + 1, last)
  }

  /** The whole description of a datatype, which begins with number 0x2A. */
  ghost predicate Describes(words: seq<int>, start: nat, end: nat, t: Type) {
    if t.Basic? then end == start + 2 <= |words| && words[start] == 1 && words[start + 1] == t.id
    else exists last :: Spelled(words, start, end, t, 0x2A, last)
  }

  // ----- the size -----

  /** `total_pack_size`, in words, as it is computed when the arguments are kept. */
  function PackSize(t: Type): nat
    decreases t, |Parts(t)| + 1
  {
    if t.Basic? then 2
    else 4 + |SetArgs(t).ints| + 2 * |SetArgs(t).aints| + |Parts(t)| + PartsSize(t, 0)
  }

  function PartsSize(t: Type, k: nat): nat
    requires k <= |Parts(t)|
    decreases t, |Parts(t)| - k
  {
    if k == |Parts(t)| then 0
    else (if Parts(t)[k].Basic? then 0 else PackSize(Parts(t)[k])) + PartsSize(t, k + 1)
  }

  /** The printed form fills exactly the space that was computed for it. */
  lemma {:induction false} PrintedSize(t: Type, next: nat)
    requires !t.Basic?
    ensures |Printed(t, next).0| == PackSize(t)
    decreases t, |Parts(t)| + 1
  {
    PartsPrintedSize(t, 0, next);
  }

  lemma {:induction false} PartsPrintedSize(t: Type, k: nat, next: nat)
    requires k <= |Parts(t)|
    ensures |PrintedParts(t, k, next).1| == PartsSize(t, k)
    decreases t, |Parts(t)| - k
  {
    if k < |Parts(t)| {
      if Parts(t)[k].Basic? {
        PartsPrintedSize(t, k + 1, next);
      } else {
        PrintedSize(Parts(t)[k], next + 1);
        PartsPrintedSize(t, k + 1, Printed(Parts(t)[k], next + 1).1);
      }
    }
  }

  // ----- the printer -----

  class Printer {
    var words: seq<int>
    var nextIndex: nat

    constructor ()
      ensures words == [] && nextIndex == DT_MAX_PREDEFINED
    {
      words, nextIndex := [], DT_MAX_PREDEFINED;
    }

    /** The header, the addresses, room for the parts, and the integers. */
    method Header(t: Type) returns (position: nat, ghost front: seq<int>)
      requires !t.Basic?
      modifies this`words
      ensures position == |front| && Building(words, front, [], |Parts(t)|, SetArgs(t).ints, [])
      ensures var args := SetArgs(t);
              front == old(words)
                 + ([args.combiner, |args.ints|, |args.aints|, |Parts(t)|] + AddressesWords(args.aints))
    {
      var args := SetArgs(t);
      words := words + ([args.combiner, |args.ints|, |args.aints|, |Parts(t)|] + AddressesWords(args.aints));
      position, front := |words|, words;
      words := words + seq(|Parts(t)|, i => 0) + args.ints;
      assert words == front + ([] + seq(|Parts(t)|, i => 0)) + args.ints + [];
    }

    /** One part: its word, and its own description if it is not basic. */
    method PrintPart(part: Type, place: nat, ghost front: seq<int>, ghost ids: seq<int>, ghost n: nat,
                     ghost ints: seq<int>, ghost body: seq<int>)
      requires n > 0 && place == |front| + |ids| && Building(words, front, ids, n, ints, body)
      modifies this
      ensures part.Basic? ==> Building(words, front, ids + [part.id], n - 1, ints, body) && nextIndex == old(nextIndex)
      ensures !part.Basic? ==>
                var one := Printed(part, old(nextIndex) + 1);
                Building(words, front, ids + [old(nextIndex)], n - 1, ints, body + one.0) && nextIndex == one.1
      decreases part, 1
    {
      hide *;
      Zeros(front, ids, n, ints, body, words, place, if part.Basic? then part.id else nextIndex);
      if part.Basic? {
        words := words[place := part.id];
      } else {
        words := words[place := nextIndex];
        ghost var w, v := words, nextIndex;
        nextIndex := nextIndex + 1;
        Print(part);
        LongerBody(w, front, ids + [v], n - 1, ints, body, Printed(part, v + 1).0);
      }
    }

    /** `__ompi_ddt_pack_description` of a datatype that is not basic. */
    method Print(t: Type)
      requires !t.Basic?
      modifies this
      ensures words == old(words) + Printed(t, old(nextIndex)).0 && nextIndex == Printed(t, old(nextIndex)).1
      decreases t, 0
    {
      hide PrintedParts, SetArgs, AddressesWords, Building, Printed, Split;
      ghost var start, first := words, nextIndex;
      SplitStart(t, first);
      var position; ghost var front;
      position, front := Header(t);
      ghost var ids: seq<int>, body: seq<int> := [], [];
      for i := 0 to |Parts(t)|
        invariant |ids| == i && Building(words, front, ids, |Parts(t)| - i, SetArgs(t).ints, body)
        invariant Split(t, i, first, nextIndex, ids, body)
      {
        ghost var v := nextIndex;
        SplitNext(t, i, first, nextIndex, ids, body);
        PrintPart(Parts(t)[i], position + i, front, ids, |Parts(t)| - i, SetArgs(t).ints, body);
        assert |Parts(t)| - i - 1 == |Parts(t)| - (i + 1);
        if Parts(t)[i].Basic? {
          ids := ids + [Parts(t)[i].id];
        } else {
          ids, body := ids + [v], body + Printed(Parts(t)[i], v + 1).0;
        }
      }
      SplitEnd(t, first, nextIndex, ids, body);
      Built(words, front, ids, SetArgs(t).ints, body);
      PrintedIs(t, start, first, front, ids, body, nextIndex);
    }

    /** `ompi_ddt_get_pack_description`. */
    method Describe(t: Type)
      requires words == [] && nextIndex == DT_MAX_PREDEFINED
      modifies this
      ensures words == Form(t, DT_MAX_PREDEFINED) && |words| == PackSize(t)
      ensures Describes(words, 0, |words|, t)
    {
      if t.Basic? {
        words := [COMBINER_DUP, t.id];
      } else {
        PrintedSize(t, DT_MAX_PREDEFINED);
        Print(t);
        hide PrintedParts, Spelled;
        assert words[0..|words|] == words;
        SpelledExact(words, 0, |words|, t, DT_MAX_PREDEFINED, Printed(t, DT_MAX_PREDEFINED).1);
      }
    }
  }

  /** A printed form of which the words for the last `n` parts are not yet written. */
  ghost predicate Building(words: seq<int>, front: seq<int>, ids: seq<int>, n: nat, ints: seq<int>, body: seq<int>) {
    words == front + (ids + seq(n, i => 0)) + ints + body
  }

  lemma {:induction false} Built(words: seq<int>, front: seq<int>, ids: seq<int>, ints: seq<int>, body: seq<int>)
    requires Building(words, front, ids, 0, ints, body)
    ensures words == front + ids + ints + body
  {
    assert ids + seq(0, i => 0) == ids;
  }

  /** The first `k` parts are printed, and `next` is the next number. */
  ghost predicate Split(t: Type, k: nat, first: nat, next: nat, ids: seq<int>, body: seq<int>)
    requires k <= |Parts(t)|
  {
    var all, rest := PrintedParts(t, 0, first), PrintedParts(t, k, next);
    ids + rest.0 == all.0 && body + rest.1 == all.1 && rest.2 == all.2
  }

  lemma {:induction false} SplitStart(t: Type, first: nat)
    ensures Split(t, 0, first, first, [], [])
  {
    hide PrintedParts;
    var all := PrintedParts(t, 0, first);
    assert [] + all.0 == all.0 && [] + all.1 == all.1;
  }

  lemma {:induction false} PrintedIs(t: Type, start: seq<int>, first: nat, front: seq<int>, ids: seq<int>,
                                     body: seq<int>, next: nat)
    requires !t.Basic? && PrintedParts(t, 0, first) == (ids, body, next)
    requires var args := SetArgs(t);
             front == start + ([args.combiner, |args.ints|, |args.aints|, |Parts(t)|] + AddressesWords(args.aints))
    ensures front + ids + SetArgs(t).ints + body == start + Printed(t, first).0 && next == Printed(t, first).1
  {
    hide PrintedParts, SetArgs, AddressesWords;
    var args := SetArgs(t);
    var h := [args.combiner, |args.ints|, |args.aints|, |Parts(t)|] + AddressesWords(args.aints);
    assert Printed(t, first).0 == h + ids + args.ints + body;
    assert start + h + ids + args.ints + body == start + (h + ids + args.ints + body);
  }

  lemma {:induction false} Assoc(a: seq<int>, b: seq<int>, c: seq<int>)
    ensures a + b + c == a + (b + c)
  {}

  lemma {:induction false} SplitNext(t: Type, k: nat, first: nat, next: nat, ids: seq<int>, body: seq<int>)
    requires k < |Parts(t)| && Split(t, k, first, next, ids, body)
    ensures Parts(t)[k].Basic? ==> Split(t, k + 1, first, next, ids + [Parts(t)[k].id], body)
    ensures !Parts(t)[k].Basic? ==>
              var one := Printed(Parts(t)[k], next + 1);
              Split(t, k + 1, first, one.1, ids + [next], body + one.0)
  {
    PartsStep(t, k, next);
    hide PrintedParts, Printed, Parts;
    if Parts(t)[k].Basic? {
      Assoc(ids, [Parts(t)[k].id], PrintedParts(t, k + 1, next).0);
    } else {
      var one := Printed(Parts(t)[k], next + 1);
      var rest := PrintedParts(t, k + 1, one.1);
      Assoc(ids, [next], rest.0);
      Assoc(body, one.0, rest.1);
    }
  }

  lemma {:induction false} SplitEnd(t: Type, first: nat, next: nat, ids: seq<int>, body: seq<int>)
    requires Split(t, |Parts(t)|, first, next, ids, body)
    ensures PrintedParts(t, 0, first) == (ids, body, next)
  {
    PartsEnd(t, next);
    hide PrintedParts;
    assert ids + [] == ids && body + [] == body;
  }

  lemma {:induction false} PartsStep(t: Type, k: nat, next: nat)
    requires k < |Parts(t)|
    ensures Parts(t)[k].Basic? ==>
              PrintedParts(t, k, next)
                == ([Parts(t)[k].id] + PrintedParts(t, k + 1, next).0, PrintedParts(t, k + 1, next).1,
                                           PrintedParts(t, k + 1, next).2)
    ensures !Parts(t)[k].Basic? ==>
              var one := Printed(Parts(t)[k], next + 1);
              PrintedParts(t, k, next)
                == ([next] + PrintedParts(t, k + 1, one.1).0, one.0 + PrintedParts(t, k + 1, one.1).1,
                                           PrintedParts(t, k + 1, one.1).2)
  {
    hide Printed;
  }

  lemma {:induction false} PartsEnd(t: Type, next: nat)
    ensures PrintedParts(t, |Parts(t)|, next) == ([], [], next)
  {}

  /** Writing the first word that is still zero. */
  lemma {:induction false} Zeros(front: seq<int>, ids: seq<int>, n: nat, ints: seq<int>, body: seq<int>,
                                 words: seq<int>, place: nat, v: int)
    requires n > 0 && Building(words, front, ids, n, ints, body) && place == |front| + |ids|
    ensures place < |words| && Building(words[place := v], front, ids + [v], n - 1, ints, body)
  {
    var a, b := ids + seq(n, i => 0), ids + [v] + seq(n - 1, i => 0);
    assert a[|ids| := v] == b;
    assert words[place := v] == front + b + ints + body;
  }

  lemma {:induction false} LongerBody(w: seq<int>, front: seq<int>, ids: seq<int>, n: nat, ints: seq<int>,
                                      body: seq<int>, more: seq<int>)
    requires Building(w, front, ids, n, ints, body)
    ensures Building(w + more, front, ids, n, ints, body + more)
  {
    var a := front + (ids + seq(n, i => 0)) + ints;
    Assoc(a, body, more);
  }

  // ----- the parser -----

  /** `w` stands in `words` at `at`. */
  ghost predicate Stands(words: seq<int>, at: nat, w: seq<int>) {
    at + |w| <= |words| && words[at..at + |w|] == w
  }

  lemma {:induction false} StandsSplit(words: seq<int>, at: nat, a: seq<int>, b: seq<int>)
    requires Stands(words, at, a + b)
    ensures Stands(words, at, a) && Stands(words, at + |a|, b)
  {
    assert words[at..at + |a|] == (a + b)[..|a|];
    assert words[at + |a|..at + |a| + |b|] == (a + b)[|a|..];
  }

  lemma {:induction false} StandsOne(words: seq<int>, at: nat, v: int, b: seq<int>)
    requires Stands(words, at, [v] + b)
    ensures at < |words| && words[at] == v && Stands(words, at + 1, b)
  {
    StandsSplit(words, at, [v], b);
    assert words[at..at + 1][0] == words[at];
  }

  /** Where the fields of a printed datatype are. */
  lemma {:induction false} Fields(words: seq<int>, at: nat, t: Type, next: nat)
    requires !t.Basic? && Stands(words, at, Printed(t, next).0)
    ensures var args, kids := SetArgs(t), PrintedParts(t, 0, next);
            var disps := at + 4;
            var ids := disps + 2 * |args.aints|;
            var ints := ids + |Parts(t)|;
            && ints + |args.ints| <= |words|
            && words[at] == args.combiner && words[at + 1] == |args.ints| && words[at + 2] == |args.aints|
            && words[at + 3] == |Parts(t)|
            && words[disps..ids] == AddressesWords(args.aints)
            && Stands(words, ids, kids.0)
            && words[ints..ints + |args.ints|] == args.ints
            && Stands(words, ints + |args.ints|, kids.1)
            && |Printed(t, next).0| == ints + |args.ints| + |kids.1| - at
  {
    hide PrintedParts, SetArgs, AddressesWords;
    var args, kids := SetArgs(t), PrintedParts(t, 0, next);
    var header := [args.combiner, |args.ints|, |args.aints|, |Parts(t)|];
    var a := AddressesWords(args.aints);
    assert Printed(t, next).0 == header + a + kids.0 + args.ints + kids.1;
    StandsSplit(words, at, header + a + kids.0 + args.ints, kids.1);
    StandsSplit(words, at, header + a + kids.0, args.ints);
    StandsSplit(words, at, header + a, kids.0);
    StandsSplit(words, at, header, a);
    hide Printed;
    assert words[at..at + 4] == header;
    assert words[at] == words[at..at + 4][0] && words[at + 1] == words[at..at + 4][1]
           && words[at + 2] == words[at..at + 4][2]
        && words[at + 3] == words[at..at + 4][3];
  }

  // ----- the words are exactly the printed form -----

  lemma {:induction false} AddressExact(words: seq<int>, at: nat, a: int)
    ensures AddressIn(words, at, a) <==> at + 2 <= |words| && words[at] == a % WORD && words[at + 1] == a / WORD
  {
    if AddressIn(words, at, a) {
      DivExact(words[at], words[at + 1], a);
    }
  }

  lemma {:induction false} DivExact(r: int, q: int, a: int)
    requires 0 <= r < WORD && r + q * WORD == a
    ensures a % WORD == r && a / WORD == q
  {}

  lemma {:induction false} AddressesExact(words: seq<int>, at: nat, a: seq<int>)
    ensures AddressesIn(words, at, a) <==> Stands(words, at, AddressesWords(a))
    decreases |a|
  {
    if a != [] {
      AddressesExact(words, at + 2, a[1..]);
      AddressExact(words, at, a[0]);
      AddressesSplit(words, at, a);
      hide AddressesIn, AddressIn, Stands;
      assert AddressesWords(a) == AddressWords(a[0]) + AddressesWords(a[1..]);
      hide AddressesWords;
      StandsBoth(words, at, AddressWords(a[0]), AddressesWords(a[1..]));
      StandsTwo(words, at, a[0] % WORD, a[0] / WORD);
    }
  }

  lemma {:induction false} StandsTwo(words: seq<int>, at: nat, a: int, b: int)
    ensures Stands(words, at, [a, b]) <==> at + 2 <= |words| && words[at] == a && words[at + 1] == b
  {
    if at + 2 <= |words| { assert words[at..at + 2] == [words[at], words[at + 1]]; }
  }

  lemma {:induction false} AddressesSplit(words: seq<int>, at: nat, a: seq<int>)
    requires a != []
    ensures AddressesIn(words, at, a) <==> AddressIn(words, at, a[0]) && AddressesIn(words, at + 2, a[1..])
  {
    hide AddressIn;
    if AddressIn(words, at, a[0]) && AddressesIn(words, at + 2, a[1..]) {
      assert at + 2 * |a| <= |words| by { AddressFits(words, at, a[0]); }
      forall k: nat | k < |a| ensures AddressIn(words, at + 2 * k, a[k]) {
        if k > 0 { assert a[1..][k - 1] == a[k] && at + 2 + 2 * (k - 1) == at + 2 * k; }
      }
    }
    if AddressesIn(words, at, a) {
      assert AddressIn(words, at + 2 * 0, a[0]);
      forall k: nat | k < |a[1..]| ensures AddressIn(words, at + 2 + 2 * k, a[1..][k]) {
        assert a[1..][k] == a[k + 1] && at + 2 + 2 * k == at + 2 * (k + 1);
      }
    }
  }

  lemma {:induction false} AddressFits(words: seq<int>, at: nat, a: int)
    requires AddressIn(words, at, a)
    ensures at + 2 <= |words|
  {}

  lemma {:induction false} HeadAndTail(a: seq<int>, b: seq<int>, x: seq<int>, y: seq<int>)
    requires |a| == |x|
    ensures a + b == x + y <==> a == x && b == y
  {
    if a + b == x + y {
      assert a == (a + b)[..|a|] && x == (x + y)[..|x|];
      assert b == (a + b)[|a|..] && y == (x + y)[|x|..];
    }
  }

  lemma {:induction false} IntsExact(words: seq<int>, at: nat, ints: seq<int>)
    ensures IntsIn(words, at, ints) <==> Stands(words, at, ints)
  {
    if Stands(words, at, ints) {
      forall k: nat | k < |ints| ensures words[at + k] == ints[k] { assert words[at..at + |ints|][k] == ints[k]; }
    }
  }

  lemma {:induction false} IntsSplit(words: seq<int>, at: nat, a: seq<int>, b: seq<int>)
    ensures IntsIn(words, at, a + b) <==> IntsIn(words, at, a) && IntsIn(words, at + |a|, b)
  {
    if IntsIn(words, at, a + b) {
      forall k: nat | k < |a| ensures words[at + k] == a[k] { assert (a + b)[k] == a[k]; }
      forall k: nat | k < |b| ensures words[at + |a| + k] == b[k] { assert (a + b)[|a| + k] == b[k]; }
    }
  }

  lemma {:induction false} IntsOne(words: seq<int>, at: nat, x: int)
    ensures IntsIn(words, at, [x]) <==> at < |words| && words[at] == x
  {
    if at < |words| && words[at] == x {
      forall k: nat | k < 1 ensures words[at + k] == [x][k] {}
    }
    if IntsIn(words, at, [x]) { assert words[at + 0] == [x][0]; }
  }

  /** The integers and addresses of the kept arguments are those of the heading. */
  lemma {:induction false} ArgsExact(words: seq<int>, at: nat, t: Type)
    requires !t.Basic?
    ensures var args := SetArgs(t); |args.ints| == IntCount(t) && |args.aints| == AddressCount(t)
    ensures var args, i := SetArgs(t), IntsAt(at, t);
            Heading(words, at, t) <==>
              && i + IntCount(t) <= |words|
              && words[at] == args.combiner && words[at + 1] == IntCount(t) && words[at + 2] == AddressCount(t)
              && words[at + 3] == |Parts(t)| && AddressesIn(words, at + 4, args.aints) && IntsIn(words, i, args.ints)
  {
    hide IntsIn, AddressIn;
    var i := IntsAt(at, t);
    match t
    case Contiguous(count, _) => IntsOne(words, i, count);
    case Vector(count, blockLength, stride, _) =>
      ThreeInts(words, i, count, blockLength, stride);
    case Hvector(count, blockLength, stride, _, _) =>
      TwoInts(words, i, count, blockLength);
      OneAddress(words, at + 4, stride);
    case Indexed(lengths, disps, _) =>
      IntsOne(words, i, |lengths|);
      IntsSplit(words, i, [|lengths|], lengths);
      IntsSplit(words, i, [|lengths|] + lengths, disps);
    case Hindexed(lengths, disps, _, _) =>
      IntsOne(words, i, |lengths|);
      IntsSplit(words, i, [|lengths|], lengths);
    case IndexedBlock(blockLength, disps, _) =>
      TwoInts(words, i, |disps|, blockLength);
      IntsSplit(words, i, [|disps|, blockLength], disps);
    case Struct(lengths, disps, _, _) =>
      IntsOne(words, i, |lengths|);
      IntsSplit(words, i, [|lengths|], lengths);
    case Other(_, _, _, _) =>
  }

  lemma {:induction false} TwoInts(words: seq<int>, at: nat, x: int, y: int)
    ensures IntsIn(words, at, [x, y]) <==> at + 1 < |words| && words[at] == x && words[at + 1] == y
  {
    assert [x, y] == [x] + [y];
    IntsSplit(words, at, [x], [y]);
    IntsOne(words, at, x);
    IntsOne(words, at + 1, y);
    hide IntsIn;
  }

  lemma {:induction false} ThreeInts(words: seq<int>, at: nat, x: int, y: int, z: int)
    ensures IntsIn(words, at, [x, y, z])
            <==> at + 2 < |words| && words[at] == x && words[at + 1] == y && words[at + 2] == z
  {
    assert [x, y, z] == [x, y] + [z];
    IntsSplit(words, at, [x, y], [z]);
    TwoInts(words, at, x, y);
    IntsOne(words, at + 2, z);
    hide IntsIn;
  }

  lemma {:induction false} OneAddress(words: seq<int>, at: nat, a: int)
    ensures AddressesIn(words, at, [a]) <==> AddressIn(words, at, a)
  {
    AddressesSplit(words, at, [a]);
    if AddressIn(words, at, a) { AddressFits(words, at, a); }
    hide AddressIn;
  }

  /** A heading and the words for the parts are the first part of the printed form. */
  lemma {:induction false} HeadingExact(words: seq<int>, at: nat, t: Type, ids: seq<int>, body: seq<int>)
    requires !t.Basic? && |ids| == |Parts(t)|
    ensures var args, i := SetArgs(t), IntsAt(at, t);
            var w := [args.combiner, |args.ints|, |args.aints|, |Parts(t)|] + AddressesWords(args.aints) + ids
            + args.ints + body;
            && |w| == i + IntCount(t) - at + |body|
            && (Stands(words, at, w) <==>
                  Heading(words, at, t) && Stands(words, PartsAt(at, t), ids)
                  && Stands(words, i + IntCount(t), body))
  {
    hide *;
    ArgsExact(words, at, t);
    PlacesAre(at, t);
    var args, i := SetArgs(t), IntsAt(at, t);
    FiveParts(words, at, args.combiner, |Parts(t)|, args.ints, args.aints, ids, body);
    AddressesExact(words, at + 4, args.aints);
    IntsExact(words, i, args.ints);
    StandsFits(words, i, args.ints);
  }

  lemma {:induction false} PlacesAre(at: nat, t: Type)
    requires !t.Basic?
    ensures PartsAt(at, t) == at + 4 + 2 * AddressCount(t) && IntsAt(at, t) == PartsAt(at, t) + |Parts(t)|
  {}

  /** The header, the addresses, the words for the parts, the integers, and what follows. */
  lemma {:induction false} FiveParts(words: seq<int>, at: nat, combiner: int, parts: int, ints: seq<int>,
                                     aints: seq<int>, ids: seq<int>, body: seq<int>)
    ensures var w := [combiner, |ints|, |aints|, parts] + AddressesWords(aints) + ids + ints + body;
            var d := at + 4 + 2 * |aints|;
            && |w| == d + |ids| + |ints| + |body| - at
            && (Stands(words, at, w) <==>
                  && at + 4 <= |words| && words[at] == combiner && words[at + 1] == |ints| && words[at + 2] == |aints|
                  && words[at + 3] == parts && Stands(words, at + 4, AddressesWords(aints)) && Stands(words, d, ids)
                  && Stands(words, d + |ids|, ints) && Stands(words, d + |ids| + |ints|, body))
  {
    hide *;
    var head, a := [combiner, |ints|, |aints|, parts], AddressesWords(aints);
    StandsBoth(words, at, head + a + ids + ints, body);
    StandsBoth(words, at, head + a + ids, ints);
    StandsBoth(words, at, head + a, ids);
    StandsBoth(words, at, head, a);
    StandsFour(words, at, combiner, |ints|, |aints|, parts);
  }

  lemma {:induction false} StandsFits(words: seq<int>, at: nat, w: seq<int>)
    ensures Stands(words, at, w) ==> at + |w| <= |words|
  {}

  lemma {:induction false} StandsBoth(words: seq<int>, at: nat, a: seq<int>, b: seq<int>)
    ensures Stands(words, at, a + b) <==> Stands(words, at, a) && Stands(words, at + |a|, b)
  {
    if at + |a| + |b| <= |words| {
      assert words[at..at + |a + b|] == words[at..at + |a|] + words[at + |a|..at + |a| + |b|];
      HeadAndTail(words[at..at + |a|], words[at + |a|..at + |a| + |b|], a, b);
    }
  }

  lemma {:induction false} StandsFour(words: seq<int>, at: nat, a: int, b: int, c: int, d: int)
    ensures Stands(words, at, [a, b, c, d]) <==>
              at + 4 <= |words| && words[at] == a && words[at + 1] == b && words[at + 2] == c && words[at + 3] == d
  {
    if at + 4 <= |words| {
      assert words[at..at + 4] == [words[at], words[at + 1], words[at + 2], words[at + 3]];
    }
  }

  /** The words that describe a datatype are exactly its printed form. */
  lemma {:induction false} SpelledExact(words: seq<int>, at: nat, end: nat, t: Type, next: nat, last: nat)
    requires !t.Basic?
    ensures Spelled(words, at, end, t, next, last) <==>
              var w := Printed(t, next); Stands(words, at, w.0) && end == at + |w.0| && last == w.1
  {
    var w := Printed(t, next);
    if Spelled(words, at, end, t, next, last) { SpelledStands(words, at, end, t, next, last); }
    if Stands(words, at, w.0) && end == at + |w.0| && last == w.1 { StandsSpelled(words, at, t, next); }
    hide Spelled, Printed, Stands;
  }

  lemma {:induction false} SpelledStands(words: seq<int>, at: nat, end: nat, t: Type, next: nat, last: nat)
    requires !t.Basic? && Spelled(words, at, end, t, next, last)
    ensures var w := Printed(t, next); Stands(words, at, w.0) && end == at + |w.0| && last == w.1
    decreases t, |Parts(t)| + 1
  {
    hide *;
    var kids := PrintedParts(t, 0, next);
    SpelledIs(words, at, end, t, next, last);
    PrintedForm(t, next);
    HeadingFits(words, at, t);
    PartsStand(words, at, t, 0, IntsAt(at, t) + IntCount(t), end, next, last);
    HeadingExact(words, at, t, kids.0, kids.1);
  }

  lemma {:induction false} StandsSpelled(words: seq<int>, at: nat, t: Type, next: nat)
    requires !t.Basic? && Stands(words, at, Printed(t, next).0)
    ensures var w := Printed(t, next); Spelled(words, at, at + |w.0|, t, next, w.1)
    decreases t, |Parts(t)| + 1
  {
    hide *;
    var kids, w, start := PrintedParts(t, 0, next), Printed(t, next), IntsAt(at, t) + IntCount(t);
    SpelledIs(words, at, at + |w.0|, t, next, w.1);
    PrintedForm(t, next);
    HeadingExact(words, at, t, kids.0, kids.1);
    HeadingFits(words, at, t);
    StandParts(words, at, t, 0, start, next);
  }

  lemma {:induction false} SpelledIs(words: seq<int>, at: nat, end: nat, t: Type, next: nat, last: nat)
    requires !t.Basic?
    ensures Spelled(words, at, end, t, next, last) <==>
              Heading(words, at, t) && PartsSpelled(words, at, t, 0, IntsAt(at, t) + IntCount(t), end, next, last)
  {
    hide Heading, PartsSpelled;
  }

  lemma {:induction false} PrintedForm(t: Type, next: nat)
    requires !t.Basic?
    ensures var args, kids := SetArgs(t), PrintedParts(t, 0, next);
            Printed(t, next)
            == ([args.combiner, |args.ints|, |args.aints|, |Parts(t)|] + AddressesWords(args.aints) + kids.0 + args.ints
                + kids.1, kids.2)
  {
    hide PrintedParts, SetArgs, AddressesWords;
  }

  lemma {:induction false} HeadingFits(words: seq<int>, at: nat, t: Type)
    requires !t.Basic?
    ensures Heading(words, at, t) ==> IntsAt(at, t) + IntCount(t) <= |words|
    ensures IntsAt(at, t) == PartsAt(at, t) + |Parts(t)| && PartsAt(at, t) + 0 == PartsAt(at, t) > at
  {
    hide IntsIn, AddressesIn, AddressIn;
  }

  lemma {:induction false} StandsHead(words: seq<int>, at: nat, v: int, b: seq<int>)
    ensures Stands(words, at, [v] + b) <==> at < |words| && words[at] == v && Stands(words, at + 1, b)
  {
    StandsBoth(words, at, [v], b);
    if at < |words| { assert words[at..at + 1] == [words[at]]; }
  }

  lemma {:induction false} PartsStand(words: seq<int>, at: nat, t: Type, k: nat, start: nat, end: nat, next: nat,
                                      last: nat)
    requires !t.Basic? && k <= |Parts(t)| && IntsAt(at, t) <= |words|
    requires PartsSpelled(words, at, t, k, start, end, next, last)
    ensures var w := PrintedParts(t, k, next);
            && Stands(words, PartsAt(at, t) + k, w.0) && Stands(words, start, w.1)
            && end == start + |w.1| && last == w.2
    decreases t, |Parts(t)| - k
  {
    hide *;
    if k == |Parts(t)| {
      PartsEnd(t, next);
      NoPartLeft(words, at, t, start, end, next, last);
    } else {
      SmallerPart(t, k);
      var part, place := Parts(t)[k], PartsAt(at, t) + k;
      PartsStep(t, k, next);
      if part.Basic? {
        BasicPart(words, at, t, k, start, end, next, last);
        PartsStand(words, at, t, k + 1, start, end, next, last);
        StandsHead(words, place, part.id, PrintedParts(t, k + 1, next).0);
      } else {
        var mid, after := SomePart(words, at, t, k, start, end, next, last);
        SpelledStands(words, start, mid, part, next + 1, after);
        PartsStand(words, at, t, k + 1, mid, end, after, last);
        Glued(words, place, start, next, PrintedParts(t, k + 1, after).0, Printed(part, next + 1).0,
              PrintedParts(t, k + 1, after).1);
      }
    }
  }

  lemma {:induction false} StandParts(words: seq<int>, at: nat, t: Type, k: nat, start: nat, next: nat)
    requires !t.Basic? && k <= |Parts(t)| && IntsAt(at, t) <= |words|
    requires var w := PrintedParts(t, k, next);
             Stands(words, PartsAt(at, t) + k, w.0) && Stands(words, start, w.1)
    ensures var w := PrintedParts(t, k, next); PartsSpelled(words, at, t, k, start, start + |w.1|, next, w.2)
    decreases t, |Parts(t)| - k
  {
    hide *;
    var w := PrintedParts(t, k, next);
    if k == |Parts(t)| {
      PartsEnd(t, next);
      NoPartLeft(words, at, t, start, start, next, next);
    } else {
      SmallerPart(t, k);
      var part, place := Parts(t)[k], PartsAt(at, t) + k;
      PartsStep(t, k, next);
      if part.Basic? {
        StandsHead(words, place, part.id, PrintedParts(t, k + 1, next).0);
        StandParts(words, at, t, k + 1, start, next);
        BasicPart(words, at, t, k, start, start + |w.1|, next, w.2);
      } else {
        var one := Printed(part, next + 1);
        var rest := PrintedParts(t, k + 1, one.1);
        Glued(words, place, start, next, rest.0, one.0, rest.1);
        StandsSpelled(words, start, part, next + 1);
        StandParts(words, at, t, k + 1, start + |one.0|, one.1);
        ThatPart(words, at, t, k, start, start + |one.0|, start + |w.1|, next, one.1, w.2);
      }
    }
  }

  lemma {:induction false} SmallerPart(t: Type, k: nat)
    requires k < |Parts(t)|
    ensures t decreases to Parts(t)[k]
  {}

  lemma {:induction false} NoPartLeft(words: seq<int>, at: nat, t: Type, start: nat, end: nat, next: nat, last: nat)
    requires !t.Basic? && IntsAt(at, t) <= |words|
    ensures PartsSpelled(words, at, t, |Parts(t)|, start, end, next, last) <==> start == end <= |words| && next == last
    ensures Stands(words, PartsAt(at, t) + |Parts(t)|, [])
    ensures Stands(words, start, []) <==> start <= |words|
  {}

  /** The word and the description of a part, in front of those of the others. */
  lemma {:induction false} Glued(words: seq<int>, place: nat, start: nat, number: int, ids: seq<int>, one: seq<int>,
                                 rest: seq<int>)
    ensures Stands(words, place, [number] + ids)
            <==> place < |words| && words[place] == number && Stands(words, place + 1, ids)
    ensures Stands(words, start, one + rest) <==> Stands(words, start, one) && Stands(words, start + |one|, rest)
  {
    StandsHead(words, place, number, ids);
    StandsBoth(words, start, one, rest);
    hide Stands;
  }

  lemma {:induction false} BasicPart(words: seq<int>, at: nat, t: Type, k: nat, start: nat, end: nat, next: nat,
                                     last: nat)
    requires !t.Basic? && k < |Parts(t)| && Parts(t)[k].Basic? && IntsAt(at, t) <= |words|
    ensures PartsAt(at, t) + k < |words|
    ensures PartsSpelled(words, at, t, k, start, end, next, last) <==>
              words[PartsAt(at, t) + k] == Parts(t)[k].id
              && PartsSpelled(words, at, t, k + 1, start, end, next, last)
  {}

  lemma {:induction false} SomePart(words: seq<int>, at: nat, t: Type, k: nat, start: nat, end: nat, next: nat,
                                    last: nat) returns (mid: nat, after: nat)
    requires !t.Basic? && k < |Parts(t)| && !Parts(t)[k].Basic? && IntsAt(at, t) <= |words|
    requires PartsSpelled(words, at, t, k, start, end, next, last)
    ensures PartsAt(at, t) + k < |words|
    ensures words[PartsAt(at, t) + k] == next && Spelled(words, start, mid, Parts(t)[k], next + 1, after)
    ensures PartsSpelled(words, at, t, k + 1, mid, end, after, last)
  {
    mid, after :| PartSpelled(words, start, mid, Parts(t)[k], next, after)
                  && PartsSpelled(words, at, t, k + 1, mid, end, after, last);
  }

  lemma {:induction false} ThatPart(words: seq<int>, at: nat, t: Type, k: nat, start: nat, mid: nat, end: nat,
                                    next: nat, after: nat, last: nat)
    requires !t.Basic? && k < |Parts(t)| && !Parts(t)[k].Basic? && IntsAt(at, t) <= |words|
    ensures words[PartsAt(at, t) + k] == next && Spelled(words, start, mid, Parts(t)[k], next + 1, after)
            && PartsSpelled(words, at, t, k + 1, mid, end, after, last) ==>
              PartsSpelled(words, at, t, k, start, end, next, last)
  {
    if words[PartsAt(at, t) + k] == next && Spelled(words, start, mid, Parts(t)[k], next + 1, after)
       && PartsSpelled(words, at, t, k + 1, mid, end, after, last) {
      assert PartSpelled(words, start, mid, Parts(t)[k], next, after);
      hide Spelled, PartSpelled;
    }
  }

  /** What is left to parse of the parts of a datatype. */
  ghost predicate ToParse(words: seq<int>, ids: nat, body: nat, t: Type, k: nat, next: nat)
    requires k <= |Parts(t)|
  {
    Stands(words, ids, PrintedParts(t, k, next).0) && Stands(words, body, PrintedParts(t, k, next).1)
    && next >= DT_MAX_PREDEFINED
  }

  lemma {:induction false} ToParseNext(words: seq<int>, ids: nat, body: nat, t: Type, k: nat, next: nat)
    requires k < |Parts(t)| && ToParse(words, ids, body, t, k, next)
    ensures ids < |words|
    ensures Parts(t)[k].Basic? ==> words[ids] == Parts(t)[k].id && ToParse(words, ids + 1, body, t, k + 1, next)
    ensures !Parts(t)[k].Basic? ==>
              var one := Printed(Parts(t)[k], next + 1);
              && words[ids] == next && Stands(words, body, one.0)
              && (one.1 >= next + 1 ==> ToParse(words, ids + 1, body + |one.0|, t, k + 1, one.1))
  {
    PartsStep(t, k, next);
    hide PrintedParts, Printed, Stands, Parts;
    if Parts(t)[k].Basic? {
      StandsOne(words, ids, Parts(t)[k].id, PrintedParts(t, k + 1, next).0);
    } else {
      var one := Printed(Parts(t)[k], next + 1);
      StandsOne(words, ids, next, PrintedParts(t, k + 1, one.1).0);
      StandsSplit(words, body, one.0, PrintedParts(t, k + 1, one.1).1);
    }
  }

  lemma {:induction false} NumbersGrow(t: Type, next: nat)
    requires !t.Basic?
    ensures Printed(t, next).1 >= next
  {
    hide PrintedParts;
  }

  lemma {:induction false} StartParse(words: seq<int>, ids: nat, body: nat, t: Type, next: nat)
    requires Stands(words, ids, PrintedParts(t, 0, next).0) && Stands(words, body, PrintedParts(t, 0, next).1)
    requires next >= DT_MAX_PREDEFINED
    ensures ToParse(words, ids, body, t, 0, next)
  {}

  /** The printed form, with the short form for a basic type. */
  ghost function Form(t: Type, next: nat): seq<int> {
    if t.Basic? then [COMBINER_DUP, t.id] else Printed(t, next).0
  }

  /** `__ompi_ddt_create_from_packed_description`.  From what was printed for a datatype the same
      datatype is rebuilt and exactly the printed words are used up, unless some part was made
      with a combiner that is not supported; then the result is empty. */
  method Parse(words: seq<int>, start: nat, ghost t: Type, ghost next: nat) returns (r: Option<Type>, end: nat)
    requires WellFormed(t) && next >= DT_MAX_PREDEFINED && Stands(words, start, Form(t, next))
    ensures Rebuildable(t) ==> r == Some(Call(t)) && end == start + |Form(t, next)|
    ensures !Rebuildable(t) ==> r == None
    decreases t, 1
  {
    hide PrintedParts, SetArgs, AddressesWords, Printed;
    if t.Basic? {
      assert words[start] == words[start..start + 2][0] && words[start + 1] == words[start..start + 2][1];
    } else {
      Fields(words, start, t, next);
      FromSetArgs(t);
    }
    var combiner := words[start];
    if combiner == COMBINER_DUP {
      r, end := Some(Basic(words[start + 1])), start + 2;
    } else {
      r, end := ParseArgs(words, start, t, next);
    }
  }

  method ParseArgs(words: seq<int>, start: nat, ghost t: Type, ghost next: nat) returns (r: Option<Type>, end: nat)
    requires WellFormed(t) && !t.Basic? && next >= DT_MAX_PREDEFINED && Stands(words, start, Printed(t, next).0)
    ensures Rebuildable(t) ==> r == Some(Call(t)) && end == start + |Printed(t, next).0|
    ensures !Rebuildable(t) ==> r == None
    decreases t, 0
  {
    hide PrintedParts, SetArgs, AddressesWords, WordsAddresses, Printed, FromArgs, ToParse;
    Fields(words, start, t, next);
    FromSetArgs(t);
    var combiner, lengths, disps, count := words[start], words[start + 1], words[start + 2], words[start + 3];
    var position := start + 4 + 2 * disps;
    AddressRoundTrip(SetArgs(t).aints);
    var addresses := WordsAddresses(words[start + 4..position]);
    var ints := words[position + count..position + count + lengths];
    StartParse(words, position, position + count + lengths, t, next);
    var types: Option<seq<Type>>;
    types, end := ParseParts(words, position, count, position + count + lengths, t, next);
    if types == None {
      return None, start;
    }
    r := FromArgs(Args(combiner, ints, addresses), types.value);
  }

  /** The parts: basic ones are named by their word, the others are parsed one after the other. */
  method ParseParts(words: seq<int>, position: nat, count: nat, start: nat, ghost t: Type, ghost next: nat)
    returns (types: Option<seq<Type>>, end: nat)
    requires WellFormed(t) && !t.Basic? && next >= DT_MAX_PREDEFINED && count == |Parts(t)|
    requires ToParse(words, position, start, t, 0, next)
    ensures (forall k :: 0 <= k < |Parts(t)| ==> Rebuildable(Parts(t)[k])) ==>
              types == Some(Calls(t)) && end == start + |PrintedParts(t, 0, next).1|
    ensures types == None <==> exists k :: 0 <= k < |Parts(t)| && !Rebuildable(Parts(t)[k])
    decreases t, 0, 0
  {
    hide PrintedParts, SetArgs, AddressesWords, WordsAddresses, Printed, FromArgs, ToParse;
    var list: seq<Type> := [];
    ghost var v: nat := next;
    end := start;
    for i := 0 to count
      invariant list == Calls(t)[..i] && ToParse(words, position + i, end, t, i, v) && v >= DT_MAX_PREDEFINED
      invariant forall k :: 0 <= k < i ==> Rebuildable(Parts(t)[k])
      invariant end + |PrintedParts(t, i, v).1| == start + |PrintedParts(t, 0, next).1|
    {
      ToParseNext(words, position + i, end, t, i, v);
      PartsStep(t, i, v);
      var id := words[position + i];
      ghost var part := Parts(t)[i];
      assert WellFormed(part);
      if id < DT_MAX_PREDEFINED {
        list := list + [Basic(id)];
      } else {
        NumbersGrow(part, v + 1);
        var one;
        one, end := Parse(words, end, part, v + 1);
        if one == None {
          return None, start;
        }
        list := list + [one.value];
        v := Printed(part, v + 1).1;
      }
    }
    PartsEnd(t, v);
    assert list == Calls(t);
    types := Some(list);
  }

  /** `ompi_ddt_create_from_packed_description`: from the words that describe a datatype the same calls are made. */
  method CreateFromDescription(words: seq<int>, start: nat, ghost t: Type, ghost last: nat)
    returns (r: Option<Type>, end: nat)
    requires WellFormed(t) && Describes(words, start, last, t)
    ensures Rebuildable(t) ==> r == Some(Call(t)) && end == last
    ensures !Rebuildable(t) ==> r == None
  {
    hide Spelled, PrintedParts, SetArgs, AddressesWords, Call;
    if t.Basic? {
      assert words[start..start + 2] == Form(t, DT_MAX_PREDEFINED);
    } else {
      ghost var v :| Spelled(words, start, last, t, 0x2A, v);
      SpelledExact(words, start, last, t, DT_MAX_PREDEFINED, v);
    }
    hide Printed;
    r, end := Parse(words, start, t, DT_MAX_PREDEFINED);
  }

  /** A description sent to another process is rebuilt there, if it can be. */
  method SendDescription(t: Type) returns (r: Option<Type>)
    requires WellFormed(t)
    ensures r == if Rebuildable(t) then Some(Call(t)) else None
  {
    var printer := new Printer();
    printer.Describe(t);
    hide Describes;
    var end;
    r, end := CreateFromDescription(printer.words, 0, t, |printer.words|);
  }
}
