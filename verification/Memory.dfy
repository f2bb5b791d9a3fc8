/** User memory as the interpreters see it: bytes at displacements from a base address.

    `Gather` reads the bytes of a typemap, `Scatter` writes them in typemap order. */
module Memory {
  import opened Typemap

  newtype byte = x: int | 0 <= x < 256

  ghost predicate InBounds(size: int, base: int, addrs: seq<int>) {
    forall k :: 0 <= k < |addrs| ==> 0 <= base + addrs[k] < size
  }

  ghost function Gather(m: seq<byte>, base: int, addrs: seq<int>): (r: seq<byte>)
    requires InBounds(|m|, base, addrs)
    ensures |r| == |addrs|
  {
    seq(|addrs|, k requires 0 <= k < |addrs| => m[base + addrs[k]])
  }

  ghost function Scatter(m: seq<byte>, base: int, addrs: seq<int>, data: seq<byte>): (r: seq<byte>)
    requires |addrs| == |data| && InBounds(|m|, base, addrs)
    ensures |r| == |m|
    decreases |addrs|
  {
    if addrs == [] then m
    else
      var n := |addrs| - 1;
      Scatter(m, base, addrs[..n], data[..n])[base + addrs[n] := data[n]]
  }

  lemma {:induction false} ScatterAppend(m: seq<byte>, base: int, a: seq<int>, b: seq<int>, x: seq<byte>, y: seq<byte>)
    requires |a| == |x| && |b| == |y| && InBounds(|m|, base, a) && InBounds(|m|, base, b)
    ensures InBounds(|m|, base, a + b)
    ensures Scatter(m, base, a + b, x + y) == Scatter(Scatter(m, base, a, x), base, b, y)
    decreases |b|
  {
    if b == [] {
      assert a + b == a && x + y == x;
    } else {
      var n := |b| - 1;
      ScatterAppend(m, base, a, b[..n], x, y[..n]);
      assert (a + b)[..|a + b| - 1] == a + b[..n];
      assert (x + y)[..|a + b| - 1] == x + y[..n];
    }
  }

  /** Writing one run of bytes. */
  lemma {:induction false} ScatterRun(m: seq<byte>, base: int, start: int, data: seq<byte>)
    requires InBounds(|m|, base, Run(start, |data|)) && 0 <= base + start && base + start + |data| <= |m|
    ensures Scatter(m, base, Run(start, |data|), data)
         == m[..base + start] + data + m[base + start + |data|..]
    decreases |data|
  {
    if data == [] {
      assert m == m[..base + start] + m[base + start..];
    } else {
      var n := |data| - 1;
      var r := Run(start, |data|);
      assert r[..n] == Run(start, n);
      assert InBounds(|m|, base, Run(start, n)) by {
        forall k | 0 <= k < n ensures 0 <= base + Run(start, n)[k] < |m| { assert r[k] == Run(start, n)[k]; }
      }
      ScatterRun(m, base, start, data[..n]);
    }
  }

  /** Bytes outside the typemap keep their value. */
  lemma {:induction false} ScatterFrame(m: seq<byte>, base: int, addrs: seq<int>, data: seq<byte>, i: int)
    requires |addrs| == |data| && InBounds(|m|, base, addrs) && 0 <= i < |m|
    requires i - base !in addrs
    ensures Scatter(m, base, addrs, data)[i] == m[i]
    decreases |addrs|
  {
    if addrs != [] {
      var n := |addrs| - 1;
      assert addrs[n] in addrs;
      ScatterFrame(m, base, addrs[..n], data[..n], i);
    }
  }

  ghost predicate NoOverlap(addrs: seq<int>) {
    forall i, j :: 0 <= i < j < |addrs| ==> addrs[i] != addrs[j]
  }

  /** In a typemap that does not overlap itself every byte ends up where it belongs. */
  lemma {:induction false} ScatterHit(m: seq<byte>, base: int, addrs: seq<int>, data: seq<byte>, k: int)
    requires |addrs| == |data| && InBounds(|m|, base, addrs) && NoOverlap(addrs) && 0 <= k < |addrs|
    ensures Scatter(m, base, addrs, data)[base + addrs[k]] == data[k]
    decreases |addrs|
  {
    var n := |addrs| - 1;
    if k < n {
      ScatterHit(m, base, addrs[..n], data[..n], k);
      assert addrs[k] != addrs[n];
    }
  }

  /** Unpacking what was packed restores the typemap bytes and nothing else. */
  lemma {:induction false} RoundTrip(src: seq<byte>, sbase: int, dst: seq<byte>, dbase: int, addrs: seq<int>)
    requires InBounds(|src|, sbase, addrs) && InBounds(|dst|, dbase, addrs) && NoOverlap(addrs)
    ensures var r := Scatter(dst, dbase, addrs, Gather(src, sbase, addrs));
            && (forall k :: 0 <= k < |addrs| ==> r[dbase + addrs[k]] == src[sbase + addrs[k]])
            && (forall i :: 0 <= i < |dst| && i - dbase !in addrs ==> r[i] == dst[i])
  {
    var data := Gather(src, sbase, addrs);
    forall k | 0 <= k < |addrs| ensures Scatter(dst, dbase, addrs, data)[dbase + addrs[k]] == src[sbase + addrs[k]] {
      ScatterHit(dst, dbase, addrs, data, k);
    }
    forall i | 0 <= i < |dst| && i - dbase !in addrs ensures Scatter(dst, dbase, addrs, data)[i] == dst[i] {
      ScatterFrame(dst, dbase, addrs, data, i);
    }
  }

  lemma {:induction false} GatherAppend(m: seq<byte>, base: int, a: seq<int>, b: seq<int>)
    requires InBounds(|m|, base, a) && InBounds(|m|, base, b)
    ensures InBounds(|m|, base, a + b)
    ensures Gather(m, base, a + b) == Gather(m, base, a) + Gather(m, base, b)
  {}

  lemma {:induction false} BoundsSlice(size: int, base: int, addrs: seq<int>, i: int, j: int)
    requires InBounds(size, base, addrs) && 0 <= i <= j <= |addrs|
    ensures InBounds(size, base, addrs[i..j])
  {}

  lemma {:induction false} RunBounds(size: int, base: int, start: int, n: nat)
    requires InBounds(size, base, Run(start, n)) && n > 0
    ensures 0 <= base + start && base + start + n <= size
  {
    assert Run(start, n)[0] == start && Run(start, n)[n - 1] == start + n - 1;
  }
}
