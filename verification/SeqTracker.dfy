/** The tracker of received sequence numbers: a list of ranges and a cursor into it.

    Source: openmpi-1.4.2/ompi/class/ompi_seq_tracker.c. */
module SeqTracker {

  const MAX: nat := 0xFFFF_FFFF

  datatype Range = Range(low: nat, high: nat)

  predicate Covers(r: Range, id: nat) {
    r.low <= id <= r.high
  }

  /** The number is in one of the ranges. */
  ghost predicate In(rs: seq<Range>, id: nat) {
    exists k :: 0 <= k < |rs| && Covers(rs[k], id)
  }

  /** The ranges ascend, do not overlap and do not even touch. */
  ghost predicate Separated(rs: seq<Range>) {
    && (forall k :: 0 <= k < |rs| ==> rs[k].low <= rs[k].high <= MAX)
    && (forall j, k :: 0 <= j < k < |rs| ==> rs[j].high + 1 < rs[k].low)
  }

  /** The list holds what it held before, and one more number. */
  ghost predicate Adds(rs: seq<Range>, us: seq<Range>, id: nat) {
    forall x: nat :: In(us, x) <==> In(rs, x) || x == id
  }

  lemma {:induction false} InConcat(a: seq<Range>, b: seq<Range>, x: nat)
    ensures In(a + b, x) <==> In(a, x) || In(b, x)
  {
    if In(a, x) {
      var k :| 0 <= k < |a| && Covers(a[k], x);
      assert Covers((a + b)[k], x);
    }
    if In(b, x) {
      var k :| 0 <= k < |b| && Covers(b[k], x);
      assert Covers((a + b)[|a| + k], x);
    }
    if In(a + b, x) {
      var k :| 0 <= k < |a + b| && Covers((a + b)[k], x);
      assert if k < |a| then Covers(a[k], x) else Covers(b[k - |a|], x);
    }
  }

  lemma {:induction false} InOne(r: Range, x: nat)
    ensures In([r], x) <==> Covers(r, x)
  {
    assert Covers(r, x) ==> Covers([r][0], x);
  }

  // ----- the list is determined by the set of numbers -----

  lemma {:induction false} Without(rs: seq<Range>, x: nat)
    requires Separated(rs) && rs != []
    ensures Separated(rs[1..])
    ensures In(rs[1..], x) <==> In(rs, x) && x > rs[0].high
  {
    assert rs == [rs[0]] + rs[1..];
    InConcat([rs[0]], rs[1..], x);
    InOne(rs[0], x);
    assert forall k :: 0 <= k < |rs[1..]| ==> rs[1..][k] == rs[k + 1];
  }

  /** The first range starts at the least number and ends before the first gap. */
  lemma {:induction false} FirstRange(rs: seq<Range>)
    requires Separated(rs) && rs != []
    ensures forall x: nat :: In(rs, x) ==> rs[0].low <= x
    ensures forall x: nat :: rs[0].low <= x <= rs[0].high ==> In(rs, x)
    ensures !In(rs, rs[0].high + 1)
  {
    forall x: nat | rs[0].low <= x <= rs[0].high ensures In(rs, x) {
      assert Covers(rs[0], x);
    }
  }

  lemma {:induction false} Inhabited(rs: seq<Range>)
    requires Separated(rs)
    ensures rs == [] <==> forall x: nat :: !In(rs, x)
  {
    if rs != [] {
      FirstRange(rs);
      assert In(rs, rs[0].low);
    }
  }

  lemma {:induction false} Canonical(rs: seq<Range>, us: seq<Range>)
    requires Separated(rs) && Separated(us) && forall x: nat :: In(rs, x) <==> In(us, x)
    ensures rs == us
    decreases |rs|
  {
    Inhabited(rs);
    Inhabited(us);
    if rs != [] {
      SameFirst(rs, us);
      forall x: nat ensures In(rs[1..], x) <==> In(us[1..], x) {
        Without(rs, x);
        Without(us, x);
      }
      Without(rs, 0);
      Without(us, 0);
      Canonical(rs[1..], us[1..]);
      assert rs == [rs[0]] + rs[1..] && us == [us[0]] + us[1..];
    }
  }

  lemma {:induction false} SameFirst(rs: seq<Range>, us: seq<Range>)
    requires Separated(rs) && Separated(us) && rs != [] && us != [] && forall x: nat :: In(rs, x) <==> In(us, x)
    ensures rs[0] == us[0]
  {
    FirstRange(rs);
    FirstRange(us);
    var h, i := rs[0].high + 1, us[0].high + 1;
    assert In(rs, rs[0].low) && In(us, us[0].low);
    assert !In(rs, h) && !In(us, i);
    assert !In(us, h) && !In(rs, i);
  }

  // ----- single changes of the list -----

  lemma {:induction false} Split(rs: seq<Range>, k: nat, x: nat)
    requires k <= |rs|
    ensures In(rs, x) <==> In(rs[..k], x) || In(rs[k..], x)
  {
    assert rs == rs[..k] + rs[k..];
    InConcat(rs[..k], rs[k..], x);
  }

  lemma {:induction false} InReplaced(a: seq<Range>, r: Range, b: seq<Range>, x: nat)
    ensures In(a + [r] + b, x) <==> In(a, x) || Covers(r, x) || In(b, x)
  {
    InConcat(a + [r], b, x);
    InConcat(a, [r], x);
    InOne(r, x);
  }

  /** One range between two parts of a separated list. */
  lemma {:induction false} SeparatedReplaced(rs: seq<Range>, i: nat, j: nat, r: Range)
    requires Separated(rs) && i <= j <= |rs| && r.low <= r.high <= MAX
    requires i > 0 ==> rs[i - 1].high + 1 < r.low
    requires j < |rs| ==> r.high + 1 < rs[j].low
    ensures Separated(rs[..i] + [r] + rs[j..])
  {
    var a, b := rs[..i], rs[j..];
    forall k | 0 <= k < i ensures rs[k].high + 1 < r.low {
      assert k == i - 1 || rs[k].high + 1 < rs[i - 1].low;
    }
    forall k | j <= k < |rs| ensures r.high + 1 < rs[k].low {
      assert k == j || rs[j].high + 1 < rs[k].low;
    }
    ThreeParts(rs[..i], r, rs[j..]);
  }

  lemma {:induction false} ThreeParts(a: seq<Range>, r: Range, b: seq<Range>)
    requires Separated(a) && Separated(b) && r.low <= r.high <= MAX
    requires forall k :: 0 <= k < |a| ==> a[k].high + 1 < r.low
    requires forall k :: 0 <= k < |b| ==> r.high + 1 < b[k].low
    ensures Separated(a + [r] + b)
  {
    var us := a + [r] + b;
    forall k | 0 <= k < |us| ensures us[k] == if k < |a| then a[k] else if k == |a| then r else b[k - |a| - 1] {}
    forall k, l | 0 <= k < l < |us| ensures us[k].high + 1 < us[l].low {
      if k < |a| && l > |a| {
        assert a[k].high + 1 < r.low <= r.high;
      }
    }
  }

  /** A number that touches no range becomes a range of its own. */
  lemma {:induction false} InsertedOK(rs: seq<Range>, k: nat, id: nat)
    requires Separated(rs) && k <= |rs| && id <= MAX
    requires k > 0 ==> rs[k - 1].high + 1 < id
    requires k < |rs| ==> id + 1 < rs[k].low
    ensures Separated(rs[..k] + [Range(id, id)] + rs[k..]) && Adds(rs, rs[..k] + [Range(id, id)] + rs[k..], id)
  {
    SeparatedReplaced(rs, k, k, Range(id, id));
    forall x: nat ensures In(rs[..k] + [Range(id, id)] + rs[k..], x) <==> In(rs, x) || x == id {
      Split(rs, k, x);
      InReplaced(rs[..k], Range(id, id), rs[k..], x);
    }
  }

  /** A range grows by one number and still does not touch its neighbours. */
  lemma {:induction false} GrownOK(rs: seq<Range>, k: nat, r: Range, id: nat)
    requires Separated(rs) && k < |rs| && id <= MAX
    requires (r == Range(rs[k].low, id) && id == rs[k].high + 1) || (r == Range(id, rs[k].high) && id + 1 == rs[k].low)
    requires k > 0 ==> rs[k - 1].high + 1 < r.low
    requires k + 1 < |rs| ==> r.high + 1 < rs[k + 1].low
    ensures Separated(rs[k := r]) && Adds(rs, rs[k := r], id)
  {
    var us := rs[k := r];
    assert rs[k].low <= rs[k].high;
    SeparatedReplaced(rs, k, k + 1, r);
    hide Separated, In;
    assert us == rs[..k] + [r] + rs[k + 1..] && rs == rs[..k] + [rs[k]] + rs[k + 1..];
    forall x: nat ensures In(us, x) <==> In(rs, x) || x == id {
      InReplaced(rs[..k], r, rs[k + 1..], x);
      InReplaced(rs[..k], rs[k], rs[k + 1..], x);
      assert Covers(r, x) <==> Covers(rs[k], x) || x == id;
    }
  }

  /** Two ranges are joined by the one number between them. */
  lemma {:induction false} JoinedOK(rs: seq<Range>, k: nat, id: nat)
    requires Separated(rs) && k + 1 < |rs| && rs[k].high + 1 == id && id + 1 == rs[k + 1].low
    ensures var us := rs[..k] + [Range(rs[k].low, rs[k + 1].high)] + rs[k + 2..]; Separated(us) && Adds(rs, us, id)
  {
    var r := Range(rs[k].low, rs[k + 1].high);
    SeparatedReplaced(rs, k, k + 2, r);
    forall x: nat ensures In(rs[..k] + [r] + rs[k + 2..], x) <==> In(rs, x) || x == id {
      InReplaced(rs[..k], r, rs[k + 2..], x);
      assert rs == rs[..k] + [rs[k]] + rs[k + 1..] && rs[k + 1..] == [rs[k + 1]] + rs[k + 2..];
      InReplaced(rs[..k], rs[k], rs[k + 1..], x);
      InConcat([rs[k + 1]], rs[k + 2..], x);
      InOne(rs[k + 1], x);
    }
  }

  /** Nothing is added by a number that is there. */
  lemma {:induction false} PresentOK(rs: seq<Range>, k: nat, id: nat)
    requires k < |rs| && Covers(rs[k], id)
    ensures In(rs, id) && Adds(rs, rs, id)
  {}

  /** A range and its neighbours. */
  lemma {:induction false} Ordered(rs: seq<Range>, k: nat)
    requires Separated(rs) && k < |rs|
    ensures rs[k].low <= rs[k].high <= MAX
    ensures k + 1 < |rs| ==> rs[k].high + 1 < rs[k + 1].low
    ensures k > 0 ==> rs[k - 1].high + 1 < rs[k].low
  {}

  // ----- the tracker -----

  /** Adding one to 2^32 - 1 gives 0, and taking one from 0 gives 2^32 - 1. */
  function Succ(x: nat): nat {
    (x + 1) % (MAX + 1)
  }

  function Pred(x: nat): nat {
    (x + MAX) % (MAX + 1)
  }

  /** The number at one end of the number space, looked for from a range at the other end. */
  predicate Wraps(r: Range, id: nat) {
    (id == MAX && r.low == 0 && r.high + 1 < MAX) || (id == 0 && r.high == MAX && r.low > 0)
  }

  class Tracker {
    var ranges: seq<Range>
    var current: nat       // the sentinel of the list is at |ranges|

    ghost predicate Valid()
      reads this
    {
      Separated(ranges) && current <= |ranges| && (current == |ranges| ==> ranges == [])
    }

    constructor ()
      ensures Valid() && ranges == []
    {
      ranges, current := [], 0;
    }

    /** `ompi_seq_tracker_check_duplicate`. */
    method CheckDuplicate(id: nat) returns (found: bool)
      requires Valid()
      modifies this`current
      ensures Valid() && found == In(ranges, id)
    {
      var item, direction: int := current, 0;
      while 0 <= item < |ranges|
        invariant -1 <= item <= |ranges| && (direction == 0 ==> item == current) && -1 <= direction <= 1
        invariant current == old(current)
        invariant direction == 1 ==> item > 0 && id > ranges[item - 1].high
        invariant direction == -1 ==> item < |ranges| - 1 && id < ranges[item + 1].low
        decreases if direction == -1 then item + 1 else if direction == 1 then |ranges| - item else |ranges| + 1
      {
        if ranges[item].high >= id && ranges[item].low <= id {
          current := item;
          assert Covers(ranges[item], id);
          return true;
        } else if id > ranges[item].high && direction != -1 {
          direction, item := 1, item + 1;
        } else if id < ranges[item].low && direction != 1 {
          direction, item := -1, item - 1;
        } else {
          return false;
        }
      }
      found := false;
    }

    /** A new range is put into the list, and the cursor on it. */
    method Place(place: nat, id: nat)
      requires Separated(ranges) && place <= |ranges| && id <= MAX
      requires place > 0 ==> ranges[place - 1].high + 1 < id
      requires place < |ranges| ==> id + 1 < ranges[place].low
      modifies this
      ensures Valid() && Adds(old(ranges), ranges, id)
    {
      InsertedOK(ranges, place, id);
      ranges := ranges[..place] + [Range(id, id)] + ranges[place..];
      current := place;
    }

    /** The number follows the range at the cursor. */
    method ExtendUp(item: nat, id: nat)
      requires Separated(ranges) && item < |ranges| && id <= MAX && Succ(ranges[item].high) == id
      requires !Covers(ranges[item], id)
      modifies this
      ensures Valid() && Adds(old(ranges), ranges, id) <==> old(!Wraps(ranges[item], id))
    {
      ghost var rs := ranges;
      var r := ranges[item];
      if item + 1 < |ranges| && ranges[item + 1].low == Succ(id) {
        JoinedOK(rs, item, id);
        ranges := ranges[..item] + [Range(r.low, ranges[item + 1].high)] + ranges[item + 2..];
      } else {
        if r.high < MAX { GrownOK(rs, item, Range(r.low, id), id); } else { Lost(rs, item, Range(r.low, id)); }
        ranges := ranges[item := Range(r.low, id)];
      }
      current := item;
    }

    /** The number precedes the range at the cursor. */
    method ExtendDown(item: nat, id: nat)
      requires Separated(ranges) && item < |ranges| && id <= MAX && Pred(ranges[item].low) == id
      requires !Covers(ranges[item], id)
      requires Succ(ranges[item].high) != id
      modifies this
      ensures Valid() && Adds(old(ranges), ranges, id) <==> old(!Wraps(ranges[item], id))
    {
      ghost var rs := ranges;
      var r := ranges[item];
      if item > 0 && ranges[item - 1].high == Pred(id) {
        JoinedOK(rs, item - 1, id);
        ranges := ranges[..item - 1] + [Range(ranges[item - 1].low, r.high)] + ranges[item + 1..];
        current := item - 1;
      } else {
        if r.low > 0 { GrownOK(rs, item, Range(id, r.high), id); } else { Lost(rs, item, Range(id, r.high)); }
        ranges := ranges[item := Range(id, r.high)];
        current := item;
      }
    }

    /** `ompi_seq_tracker_insert`.  Exactly one number is added, and the ranges stay separated; it
        fails exactly if the arithmetic of the comparison wraps around at the cursor. */
    method Insert(id: nat)
      requires Valid() && id <= MAX
      modifies this
      ensures Valid() && Adds(old(ranges), ranges, id) <==> old(current == |ranges| || !Wraps(ranges[current], id))
    {
      hide Adds, In, Separated;
      var item, direction: int := current, 0;
      while 0 <= item < |ranges|
        invariant -1 <= item <= |ranges| && (direction == 0 ==> item == current) && -1 <= direction <= 1
        invariant ranges == old(ranges) && current == old(current)
        invariant direction != 0 ==> current < |ranges| && !Wraps(ranges[current], id)
        invariant direction == 1 ==> item > current && id > ranges[item - 1].high + 1
        invariant direction == -1 ==> item < current && id + 1 < ranges[item + 1].low
        decreases if direction == -1 then item + 1 else if direction == 1 then |ranges| - item else |ranges| + 1
      {
        Ordered(ranges, item);
        if direction == -1 { Ordered(ranges, item + 1); }
        var r := ranges[item];
        if r.high >= id && r.low <= id {
          PresentOK(ranges, item, id);
          current := item;
          return;
        } else if Succ(r.high) == id {
          ExtendUp(item, id);
          return;
        } else if Pred(r.low) == id {
          ExtendDown(item, id);
          return;
        } else if id > r.high {
          if direction == -1 {
            Place(item + 1, id);
            return;
          }
          direction, item := 1, item + 1;
        } else {
          if direction == 1 {
            Place(item, id);
            return;
          }
          direction, item := -1, item - 1;
        }
      }
      Place(if direction == -1 then 0 else |ranges|, id);
    }

    /** `ompi_seq_tracker_copy` into an empty tracker: an equal list, at the same position. */
    method CopyFrom(src: Tracker)
      requires Valid() && src.Valid() && src != this && ranges == []
      modifies this
      ensures Valid() && ranges == src.ranges && current == src.current
    {
      for i := 0 to |src.ranges|
        invariant ranges == src.ranges[..i]
        invariant current == if src.current < i then src.current else 0
      {
        ranges := ranges + [src.ranges[i]];
        if src.current == i {
          current := i;
        }
      }
    }
  }

  /** If a range is overwritten so that it ends before it starts, the list is broken. */
  lemma {:induction false} Lost(rs: seq<Range>, k: nat, r: Range)
    requires Separated(rs) && k < |rs| && r.low > r.high
    ensures !Separated(rs[k := r])
  {
    assert rs[k := r][k] == r;
  }

  /** The last number of the space is lost, or the list broken, when the cursor stands on the first. */
  method WrapExample() returns (t: Tracker)
    ensures !(t.Valid() && Adds([Range(0, 0)], t.ranges, MAX))
  {
    t := new Tracker();
    t.Insert(0);
    OnlyZero(t.ranges);
    assert t.ranges == [Range(0, 0)] && t.current == 0;
    t.Insert(MAX);
  }

  lemma {:induction false} OnlyZero(rs: seq<Range>)
    requires Separated(rs) && Adds([], rs, 0)
    ensures rs == [Range(0, 0)]
  {
    InOne(Range(0, 0), 0);
    forall x: nat ensures In(rs, x) <==> In([Range(0, 0)], x) {
      InOne(Range(0, 0), x);
    }
    Canonical(rs, [Range(0, 0)]);
  }
}
