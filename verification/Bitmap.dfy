/** The bitmap that hands out attribute keys.

    Source: openmpi-1.4.2/ompi/class/ompi_bitmap.c. */
module Bitmap {

  type byte = bv8

  function Mask(i: nat): byte
    requires i < 8
  {
    match i
    case 0 => 1
    case 1 => 2
    case 2 => 4
    case 3 => 8
    case 4 => 16
    case 5 => 32
    case 6 => 64
    case _ => 128
  }

  predicate BitOf(b: byte, i: nat)
    requires i < 8
  {
    b & Mask(i) != 0
  }

  // ----- bits of one byte -----

  lemma {:induction false} ShiftBits(b: byte, i: nat)
    requires i < 8
    ensures BitOf(b >> 1, i) == (i < 7 && BitOf(b, i + 1))
  {
    assert i == 0 || i == 1 || i == 2 || i == 3 || i == 4 || i == 5 || i == 6 || i == 7;
  }

  lemma {:induction false} LowBit(b: byte)
    ensures (b & 1 != 0) == BitOf(b, 0)
  {}

  lemma {:induction false} AllOnes(b: byte)
    ensures b == 0xff <==> forall i :: 0 <= i < 8 ==> BitOf(b, i)
  {
    if forall i :: 0 <= i < 8 ==> BitOf(b, i) {
      assert BitOf(b, 0) && BitOf(b, 1) && BitOf(b, 2) && BitOf(b, 3) && BitOf(b, 4) && BitOf(b, 5) && BitOf(b, 6)
             && BitOf(b, 7);
    }
  }

  /** Or-ing a byte with its successor sets the lowest bit that is not set. */
  lemma {:induction false} LowestUnset(b: byte, p: nat, i: nat)
    requires p < 8 && i < 8 && !BitOf(b, p) && forall j :: 0 <= j < p ==> BitOf(b, j)
    ensures BitOf(b | (b + 1), i) == (i == p || BitOf(b, i))
  {
    assert p > 0 ==> BitOf(b, 0);
    assert p > 1 ==> BitOf(b, 1);
    assert p > 2 ==> BitOf(b, 2);
    assert p > 3 ==> BitOf(b, 3);
    assert p > 4 ==> BitOf(b, 4);
    assert p > 5 ==> BitOf(b, 5);
    assert p > 6 ==> BitOf(b, 6);
  }

  lemma {:induction false} MasksApart(k: nat, i: nat)
    requires k < 8 && i < 8
    ensures Mask(k) & Mask(i) == if k == i then Mask(k) else 0
    ensures Mask(k) != 0
  {}

  lemma {:induction false} OrAnd(b: byte, m: byte, n: byte)
    ensures m & n == 0 ==> (b | m) & n == b & n && (b & !m) & n == b & n
    ensures (b | m) & m == m && (b & !m) & m == 0
  {}

  lemma {:induction false} SetMask(b: byte, k: nat, i: nat)
    requires k < 8 && i < 8
    ensures BitOf(b | Mask(k), i) == (i == k || BitOf(b, i))
  {
    MasksApart(k, i);
    hide Mask;
    OrAnd(b, Mask(k), Mask(i));
  }

  lemma {:induction false} ClearMask(b: byte, k: nat, i: nat)
    requires k < 8 && i < 8
    ensures BitOf(b & !Mask(k), i) == (i != k && BitOf(b, i))
  {
    MasksApart(k, i);
    hide Mask;
    OrAnd(b, Mask(k), Mask(i));
  }

  // ----- the bits of a sequence of bytes -----

  predicate IsSet(s: seq<byte>, k: nat) {
    k / 8 < |s| && BitOf(s[k / 8], k % 8)
  }

  /** One bit is changed, all others are kept, also when bytes are added. */
  ghost predicate Changed(s: seq<byte>, t: seq<byte>, bit: nat, value: bool) {
    forall k: nat :: IsSet(t, k) == if k == bit then value else IsSet(s, k)
  }

  lemma {:induction false} SameByte(j: nat, k: nat)
    ensures j == k <==> j / 8 == k / 8 && j % 8 == k % 8
  {}

  lemma {:induction false} ByteSet(s: seq<byte>, t: seq<byte>, bit: nat)
    requires |s| <= |t| && bit / 8 < |t| && (forall i :: |s| <= i < |t| ==> t[i] == 0) && s <= t
    ensures Changed(s, t[bit / 8 := t[bit / 8] | Mask(bit % 8)], bit, true)
  {
    var u := t[bit / 8 := t[bit / 8] | Mask(bit % 8)];
    forall k: nat ensures IsSet(u, k) == (k == bit || IsSet(s, k)) {
      SameByte(k, bit);
      if k / 8 < |t| {
        SetMask(t[bit / 8], bit % 8, k % 8);
        ZeroByte(k % 8);
      }
    }
  }

  lemma {:induction false} ZeroByte(i: nat)
    requires i < 8
    ensures !BitOf(0, i)
  {}

  lemma {:induction false} ByteCleared(s: seq<byte>, bit: nat)
    requires bit / 8 < |s|
    ensures Changed(s, s[bit / 8 := s[bit / 8] & !Mask(bit % 8)], bit, false)
  {
    var u := s[bit / 8 := s[bit / 8] & !Mask(bit % 8)];
    forall k: nat ensures IsSet(u, k) == (k != bit && IsSet(s, k)) {
      SameByte(k, bit);
      if k / 8 < |s| {
        ClearMask(s[bit / 8], bit % 8, k % 8);
      }
    }
  }

  /** The lowest unset bit of a byte that is not full, below full bytes. */
  lemma {:induction false} FirstUnset(s: seq<byte>, i: nat, p: nat)
    requires i < |s| && p < 8 && !BitOf(s[i], p) && forall j :: 0 <= j < p ==> BitOf(s[i], j)
    requires forall j :: 0 <= j < i ==> s[j] == 0xff
    ensures !IsSet(s, 8 * i + p) && forall k: nat :: k < 8 * i + p ==> IsSet(s, k)
    ensures Changed(s, s[i := s[i] | (s[i] + 1)], 8 * i + p, true)
  {
    assert (8 * i + p) / 8 == i && (8 * i + p) % 8 == p;
    forall k: nat | k < 8 * i + p ensures IsSet(s, k) {
      if k / 8 < i { AllOnes(s[k / 8]); }
    }
    var u := s[i := s[i] | (s[i] + 1)];
    forall k: nat ensures IsSet(u, k) == (k == 8 * i + p || IsSet(s, k)) {
      SameByte(k, 8 * i + p);
      LowestUnset(s[i], p, k % 8);
    }
  }

  lemma {:induction false} AllSet(s: seq<byte>)
    requires forall j :: 0 <= j < |s| ==> s[j] == 0xff
    ensures forall k: nat :: IsSet(s, k) <==> k < 8 * |s|
  {
    forall k: nat ensures IsSet(s, k) <==> k < 8 * |s| {
      if k / 8 < |s| { AllOnes(s[k / 8]); }
    }
  }

  lemma {:induction false} ShiftAll(b: byte)
    ensures var c := b >> 1; forall i :: 0 <= i < 8 ==> BitOf(c, i) == (i < 7 && BitOf(b, i + 1))
  {
    var c := b >> 1;
    forall i | 0 <= i < 8 ensures BitOf(c, i) == (i < 7 && BitOf(b, i + 1)) { ShiftBits(b, i); }
  }

  /** The lowest unset bit of a byte. */
  method FirstUnsetOf(b: byte) returns (p: nat)
    requires b != 0xff
    ensures p < 8 && !BitOf(b, p) && forall j :: 0 <= j < p ==> BitOf(b, j)
  {
    hide BitOf;
    var temp := b;
    p := 0;
    AllOnes(b);
    while temp & 1 != 0
      invariant 0 <= p < 8 && forall j :: 0 <= j < p ==> BitOf(b, j)
      invariant forall j :: 0 <= j < 8 ==> BitOf(temp, j) == (j + p < 8 && BitOf(b, j + p))
      decreases 8 - p
    {
      LowBit(temp);
      ShiftAll(temp);
      assert BitOf(b, p);
      p := p + 1;
      temp := temp >> 1;
    }
    LowBit(temp);
  }

  // ----- the bitmap -----

  const OMPI_FORTRAN_HANDLE_MAX: nat := 2147483647

  datatype Status = Success | BadParam | OutOfResource

  class Map {
    var bytes: seq<byte>

    ghost predicate Valid()
      reads this
    {
      1 <= |bytes| <= OMPI_FORTRAN_HANDLE_MAX
    }

    /** `ompi_bitmap_init`. */
    constructor (size: nat)
      requires 1 <= size <= OMPI_FORTRAN_HANDLE_MAX
      ensures Valid() && forall k: nat :: !IsSet(bytes, k)
    {
      bytes := seq((size + 7) / 8, i => 0);
      new;
      forall k: nat ensures !IsSet(bytes, k) { ZeroByte(k % 8); }
    }

    /** `ompi_bitmap_set_bit`: the bitmap grows to a multiple of its size if need be. */
    method SetBit(bit: int) returns (status: Status)
      requires Valid()
      modifies this
      ensures Valid()
      ensures status == if bit < 0 || bit > OMPI_FORTRAN_HANDLE_MAX then BadParam
                        else if bit / 8 >= old(|bytes|)
                                && old(|bytes|) >= OMPI_FORTRAN_HANDLE_MAX then OutOfResource else Success
      ensures status.Success? ==> Changed(old(bytes), bytes, bit, true)
      ensures !status.Success? ==> bytes == old(bytes)
    {
      if bit < 0 || bit > OMPI_FORTRAN_HANDLE_MAX {
        return BadParam;
      }
      var index, offset := bit / 8, bit % 8;
      ghost var s := bytes;
      if index >= |bytes| {
        if |bytes| >= OMPI_FORTRAN_HANDLE_MAX {
          return OutOfResource;
        }
        var newSize := (index / |bytes| + 1) * |bytes|;
        Multiple(index, |bytes|);
        if newSize > OMPI_FORTRAN_HANDLE_MAX {
          newSize := OMPI_FORTRAN_HANDLE_MAX;
        }
        bytes := bytes + seq(newSize - |bytes|, i => 0);
      }
      ByteSet(s, bytes, bit);
      bytes := bytes[index := bytes[index] | Mask(offset)];
      status := Success;
    }

    /** `ompi_bitmap_clear_bit`. */
    method ClearBit(bit: int) returns (status: Status)
      requires Valid()
      modifies this
      ensures Valid()
      ensures status == if bit < 0 || bit >= 8 * |old(bytes)| then BadParam else Success
      ensures status.Success? ==> Changed(old(bytes), bytes, bit, false)
      ensures !status.Success? ==> bytes == old(bytes)
    {
      if bit < 0 || bit >= 8 * |bytes| {
        return BadParam;
      }
      ByteCleared(bytes, bit);
      bytes := bytes[bit / 8 := bytes[bit / 8] & !Mask(bit % 8)];
      status := Success;
    }

    /** `ompi_bitmap_find_and_set_first_unset_bit`. */
    method FindAndSet() returns (status: Status, position: int)
      requires Valid()
      modifies this
      ensures Valid()
      ensures status.Success? ==> position >= 0 && !IsSet(old(bytes), position) && forall k: nat :: k < position ==>
                IsSet(old(bytes), k)
      ensures status.Success? ==> Changed(old(bytes), bytes, position, true)
      ensures !status.Success? ==> bytes == old(bytes)
      ensures !status.Success? ==> forall k: nat :: k <= OMPI_FORTRAN_HANDLE_MAX ==> IsSet(old(bytes), k)
    {
      var i := 0;
      while i < |bytes| && bytes[i] == 0xff
        invariant i <= |bytes| && bytes == old(bytes) && forall j :: 0 <= j < i ==> bytes[j] == 0xff
      {
        i := i + 1;
      }
      if i == |bytes| {
        AllSet(bytes);
        position := |bytes| * 8;
        status := SetBit(position);
        return;
      }
      position := FirstUnsetOf(bytes[i]);
      FirstUnset(bytes, i, position);
      bytes := bytes[i := bytes[i] | (bytes[i] + 1)];
      position := position + i * 8;
      status := Success;
    }
  }

  lemma {:induction false} Multiple(index: nat, size: nat)
    requires size >= 1
    ensures (index / size + 1) * size > index && (index / size + 1) * size >= size
  {
    assert index == (index / size) * size + index % size;
  }
}
