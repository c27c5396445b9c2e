/** Column-major buffers: the local matrix `(height, width, ldim, data)`,
    the flat `MemCopy`, and the strided block copy `InterleaveMatrix` with
    unit column stride, as the copy and exchange code use them.  Entry
    `(i, j)` of a block with leading dimension `ld` lives at `i + j*ld`. */
module Buffers {
  import GridMath

  /** A block of `h` rows and `w` columns with leading dimension `ld`
      fits in a buffer of `len` entries. */
  predicate BlockFits(h: nat, w: nat, len: nat, ld: nat)
  {
    h <= ld && ld * w <= len
  }

  /** Position `k` of a buffer with leading dimension `ld` is inside the
      leading `h` by `w` block. */
  predicate InBlock(k: nat, h: nat, w: nat, ld: nat)
  {
    ld > 0 && k % ld < h && k / ld < w
  }

  /** `(i, j)` of the block is at `i + j*ld`, and that position is in it. */
  lemma {:induction false} BlockPosition(i: nat, j: nat, h: nat, w: nat, ld: nat)
    requires i < h <= ld && j < w
    ensures (i + j * ld) % ld == i && (i + j * ld) / ld == j
    ensures InBlock(i + j * ld, h, w, ld)
  {
    GridMath.DivModUnique(i + j * ld, j, i, ld);
  }

  /** An entry of a fitting block lies inside the buffer. */
  lemma {:induction false} BlockEntryInBounds(i: nat, j: nat, h: nat, w: nat, len: nat, ld: nat)
    requires BlockFits(h, w, len, ld) && i < h && j < w
    ensures i + j * ld < len
  {
    GridMath.MulMono(j + 1, w, ld);
  }

  /** Overwrite `b[off .. off + |s|]` with `s`. */
  function Overwrite<V>(b: seq<V>, off: nat, s: seq<V>): (r: seq<V>)
    requires off + |s| <= |b|
    ensures |r| == |b|
    ensures forall k :: 0 <= k < |b| ==> r[k] == if off <= k < off + |s| then s[k - off] else b[k]
  {
    b[..off] + s + b[off + |s|..]
  }

  function Id<V>(x: V): V
  {
    x
  }

  /** `f` applied to every entry of `s`. */
  function MapSeq<S, T>(s: seq<S>, f: S -> T): (r: seq<T>)
    ensures |r| == |s|
  {
    seq(|s|, k requires 0 <= k < |s| => f(s[k]))
  }

  lemma MapSeqAt<S, T>(s: seq<S>, f: S -> T, k: nat)
    requires k < |s|
    ensures MapSeq(s, f)[k] == f(s[k])
  {
  }

  lemma MapSeqId<V>(s: seq<V>)
    ensures MapSeq(s, Id) == s
  {
    forall k | 0 <= k < |s|
      ensures MapSeq(s, Id)[k] == s[k]
    {
      MapSeqAt(s, Id, k);
    }
  }

  /** The position in a block with leading dimension `ldA` of the entry
      at position `k` of one with leading dimension `ldB`. */
  function SourceIndex(k: nat, ldA: nat, ldB: nat): nat
    requires ldB > 0
  {
    k % ldB + (k / ldB) * ldA
  }

  /** The entry of `a` that block position `k` of the target takes. */
  function SourceEntry<V>(h: nat, w: nat, a: seq<V>, ldA: nat, k: nat, ldB: nat): V
    requires BlockFits(h, w, |a|, ldA) && InBlock(k, h, w, ldB)
  {
    BlockEntryInBounds(k % ldB, k / ldB, h, w, |a|, ldA);
    a[SourceIndex(k, ldA, ldB)]
  }

  /** `b` with its leading `h` by `w` block (leading dimension `ldB`)
      replaced by `f` of the entries of that of `a` (leading dimension
      `ldA`); every other position of `b` is kept. */
  function MapBlock<S, T>(h: nat, w: nat, a: seq<S>, ldA: nat, b: seq<T>, ldB: nat, f: S -> T): (r: seq<T>)
    requires BlockFits(h, w, |a|, ldA) && BlockFits(h, w, |b|, ldB)
    ensures |r| == |b|
  {
    seq(|b|, k requires 0 <= k < |b| =>
      if InBlock(k, h, w, ldB) then f(SourceEntry(h, w, a, ldA, k, ldB)) else b[k])
  }

  /** The block copy: what `InterleaveMatrix` with unit column strides
      computes, and what a column-by-column copy leaves. */
  function Interleave<V>(h: nat, w: nat, a: seq<V>, ldA: nat, b: seq<V>, ldB: nat): (r: seq<V>)
    requires BlockFits(h, w, |a|, ldA) && BlockFits(h, w, |b|, ldB)
    ensures |r| == |b|
  {
    MapBlock(h, w, a, ldA, b, ldB, Id)
  }

  /** Positions outside the block keep the target's entries. */
  lemma MapBlockOutside<S, T>(h: nat, w: nat, a: seq<S>, ldA: nat, b: seq<T>, ldB: nat, f: S -> T, k: nat)
    requires BlockFits(h, w, |a|, ldA) && BlockFits(h, w, |b|, ldB)
    requires k < |b| && !InBlock(k, h, w, ldB)
    ensures MapBlock(h, w, a, ldA, b, ldB, f)[k] == b[k]
  {
  }

  /** Entry `(i, j)` of the target block is `f` of entry `(i, j)` of the
      source. */
  lemma {:induction false} MapBlockAt<S, T>(h: nat, w: nat, a: seq<S>, ldA: nat, b: seq<T>, ldB: nat, f: S -> T, i: nat, j: nat)
    requires BlockFits(h, w, |a|, ldA) && BlockFits(h, w, |b|, ldB)
    requires i < h && j < w
    ensures i + j * ldB < |b| && i + j * ldA < |a|
    ensures MapBlock(h, w, a, ldA, b, ldB, f)[i + j * ldB] == f(a[i + j * ldA])
  {
    BlockEntryInBounds(i, j, h, w, |b|, ldB);
    BlockEntryInBounds(i, j, h, w, |a|, ldA);
    BlockPosition(i, j, h, w, ldB);
    assert SourceEntry(h, w, a, ldA, i + j * ldB, ldB) == a[i + j * ldA];
  }

  /** A block of no columns changes nothing. */
  lemma MapBlockNoColumns<S, T>(h: nat, a: seq<S>, ldA: nat, b: seq<T>, ldB: nat, f: S -> T)
    requires h <= ldA && h <= ldB
    ensures MapBlock(h, 0, a, ldA, b, ldB, f) == b
  {
    forall k | 0 <= k < |b|
      ensures MapBlock(h, 0, a, ldA, b, ldB, f)[k] == b[k]
    {
      if ldB > 0 {
        assert k / ldB >= 0;
      }
      MapBlockOutside(h, 0, a, ldA, b, ldB, f, k);
    }
  }

  lemma {:induction false} InterleaveAt<V>(h: nat, w: nat, a: seq<V>, ldA: nat, b: seq<V>, ldB: nat, i: nat, j: nat)
    requires BlockFits(h, w, |a|, ldA) && BlockFits(h, w, |b|, ldB)
    requires i < h && j < w
    ensures i + j * ldB < |b| && i + j * ldA < |a|
    ensures Interleave(h, w, a, ldA, b, ldB)[i + j * ldB] == a[i + j * ldA]
  {
    MapBlockAt(h, w, a, ldA, b, ldB, Id, i, j);
  }

  /** Column `j` of the block occupies positions `j*ld .. j*ld + h - 1`. */
  lemma {:induction false} ColumnRange(k: nat, j: nat, h: nat, ld: nat)
    requires h <= ld && ld > 0
    ensures (j * ld <= k < j * ld + h) <==> (k / ld == j && k % ld < h)
  {
    if j * ld <= k < j * ld + h {
      GridMath.DivModUnique(k, j, k - j * ld, ld);
    }
  }

  /** Bounds for the columns before `w`. */
  lemma {:induction false} ColumnFits(h: nat, j: nat, w: nat, len: nat, ld: nat)
    requires BlockFits(h, w, len, ld) && j < w
    ensures BlockFits(h, j, len, ld) && BlockFits(h, j + 1, len, ld)
    ensures j * ld + h <= len
  {
    GridMath.MulMono(j, w, ld);
    GridMath.MulMono(j + 1, w, ld);
  }

  /** Position `k` of a block map, unfolded. */
  lemma {:induction false} MapBlockIndex<S, T>(h: nat, w: nat, a: seq<S>, ldA: nat, b: seq<T>, ldB: nat, f: S -> T, k: nat)
    requires BlockFits(h, w, |a|, ldA) && BlockFits(h, w, |b|, ldB) && k < |b|
    ensures InBlock(k, h, w, ldB) ==> SourceIndex(k, ldA, ldB) < |a|
    ensures MapBlock(h, w, a, ldA, b, ldB, f)[k]
         == if InBlock(k, h, w, ldB) then f(a[SourceIndex(k, ldA, ldB)]) else b[k]
  {
    if InBlock(k, h, w, ldB) {
      BlockEntryInBounds(k % ldB, k / ldB, h, w, |a|, ldA);
      assert SourceEntry(h, w, a, ldA, k, ldB) == a[SourceIndex(k, ldA, ldB)];
    }
  }

  /** One position of `MapBlockExtend`. */
  lemma {:induction false} MapBlockExtendAt<S, T>(h: nat, j: nat, w: nat, a: seq<S>, ldA: nat, b: seq<T>, ldB: nat, f: S -> T, k: nat)
    requires BlockFits(h, j + 1, |a|, ldA) && BlockFits(h, j + 1, |b|, ldB)
    requires BlockFits(h, j, |a|, ldA) && BlockFits(h, j, |b|, ldB)
    requires j * ldA + h <= |a| && j * ldB + h <= |b| && k < |b|
    ensures MapBlock(h, j + 1, a, ldA, b, ldB, f)[k]
         == Overwrite(MapBlock(h, j, a, ldA, b, ldB, f), j * ldB, MapSeq(a[j * ldA .. j * ldA + h], f))[k]
  {
    var col := a[j * ldA .. j * ldA + h];
    MapBlockIndex(h, j + 1, a, ldA, b, ldB, f, k);
    MapBlockIndex(h, j, a, ldA, b, ldB, f, k);
    if ldB > 0 {
      ColumnRange(k, j, h, ldB);
      if j * ldB <= k < j * ldB + h {
        MapSeqAt(col, f, k - j * ldB);
        assert SourceIndex(k, ldA, ldB) == j * ldA + (k - j * ldB);
      }
    }
  }

  /** Mapping column `j` extends a `j`-column block map to `j + 1`
      columns. */
  lemma {:induction false} MapBlockExtend<S, T>(h: nat, j: nat, w: nat, a: seq<S>, ldA: nat, b: seq<T>, ldB: nat, f: S -> T)
    requires BlockFits(h, w, |a|, ldA) && BlockFits(h, w, |b|, ldB) && j < w
    ensures BlockFits(h, j + 1, |a|, ldA) && BlockFits(h, j + 1, |b|, ldB)
    ensures j * ldA + h <= |a| && j * ldB + h <= |b|
    ensures MapBlock(h, j + 1, a, ldA, b, ldB, f)
         == Overwrite(MapBlock(h, j, a, ldA, b, ldB, f), j * ldB, MapSeq(a[j * ldA .. j * ldA + h], f))
  {
    ColumnFits(h, j, w, |a|, ldA);
    ColumnFits(h, j, w, |b|, ldB);
    var lhs := MapBlock(h, j + 1, a, ldA, b, ldB, f);
    var rhs := Overwrite(MapBlock(h, j, a, ldA, b, ldB, f), j * ldB, MapSeq(a[j * ldA .. j * ldA + h], f));
    forall k | 0 <= k < |b|
      ensures lhs[k] == rhs[k]
    {
      MapBlockExtendAt(h, j, w, a, ldA, b, ldB, f, k);
    }
  }

  lemma {:induction false} InterleaveExtend<V>(h: nat, j: nat, w: nat, a: seq<V>, ldA: nat, b: seq<V>, ldB: nat)
    requires BlockFits(h, w, |a|, ldA) && BlockFits(h, w, |b|, ldB) && j < w
    ensures BlockFits(h, j + 1, |a|, ldA) && BlockFits(h, j + 1, |b|, ldB)
    ensures j * ldA + h <= |a| && j * ldB + h <= |b|
    ensures Interleave(h, j + 1, a, ldA, b, ldB)
         == Overwrite(Interleave(h, j, a, ldA, b, ldB), j * ldB, a[j * ldA .. j * ldA + h])
  {
    MapBlockExtend(h, j, w, a, ldA, b, ldB, Id);
    MapSeqId(a[j * ldA .. j * ldA + h]);
  }

  /** With both leading dimensions equal to the height, the block is the
      leading `h*w` entries, so a block copy is a flat copy of them. */
  lemma {:induction false} ContiguousInterleave<V>(h: nat, w: nat, a: seq<V>, b: seq<V>)
    requires BlockFits(h, w, |a|, h) && BlockFits(h, w, |b|, h)
    ensures h * w <= |a| && h * w <= |b|
    ensures Interleave(h, w, a, h, b, h) == Overwrite(b, 0, a[..h * w])
  {
    var lhs := Interleave(h, w, a, h, b, h);
    var rhs := Overwrite(b, 0, a[..h * w]);
    forall k | 0 <= k < |b|
      ensures lhs[k] == rhs[k]
    {
      MapBlockIndex(h, w, a, h, b, h, Id, k);
      assert rhs[k] == if k < h * w then a[k] else b[k];
      if h > 0 {
        DenseIndex(k, h, w);
      }
    }
  }

  /** In a dense block (`ld == h`) position `k` is row `k % h` of column
      `k / h`, and it lies in the block exactly when `k < h * w`. */
  lemma {:induction false} DenseIndex(k: nat, h: nat, w: nat)
    requires h > 0
    ensures k % h + (k / h) * h == k
    ensures InBlock(k, h, w, h) <==> k < h * w
  {
    var q := k / h;
    assert k == q * h + k % h;
    if q < w {
      GridMath.MulMono(q + 1, w, h);
    } else {
      GridMath.MulMono(w, q, h);
    }
  }

  /** Packing a block densely and unpacking it with the original leading
      dimension restores the block and leaves the padding of the target. */
  lemma {:induction false} PackUnpack<V>(h: nat, w: nat, a: seq<V>, ldA: nat, buf: seq<V>, b: seq<V>, ldB: nat, i: nat, j: nat)
    requires BlockFits(h, w, |a|, ldA) && BlockFits(h, w, |buf|, h) && BlockFits(h, w, |b|, ldB)
    requires i < h && j < w
    ensures i + j * ldB < |b| && i + j * ldA < |a|
    ensures Interleave(h, w, Interleave(h, w, a, ldA, buf, h), h, b, ldB)[i + j * ldB] == a[i + j * ldA]
  {
    var packed := Interleave(h, w, a, ldA, buf, h);
    InterleaveAt(h, w, packed, h, b, ldB, i, j);
    InterleaveAt(h, w, a, ldA, buf, h, i, j);
  }

  /** Packing then unpacking into the same matrix is the identity. */
  lemma {:induction false} PackUnpackRoundTrip<V>(h: nat, w: nat, a: seq<V>, ld: nat, buf: seq<V>)
    requires BlockFits(h, w, |a|, ld) && BlockFits(h, w, |buf|, h)
    ensures Interleave(h, w, Interleave(h, w, a, ld, buf, h), h, a, ld) == a
  {
    var r := Interleave(h, w, Interleave(h, w, a, ld, buf, h), h, a, ld);
    forall k | 0 <= k < |a|
      ensures r[k] == a[k]
    {
      if InBlock(k, h, w, ld) {
        var i, j := k % ld, k / ld;
        assert k == i + j * ld;
        PackUnpack(h, w, a, ld, buf, a, ld, i, j);
      }
    }
  }

  /** A fitting block has at most `ld*w` and so at most `h*w` entries. */
  lemma {:induction false} DenseFits(h: nat, w: nat, len: nat, ld: nat)
    requires BlockFits(h, w, len, ld)
    ensures h * w <= len && BlockFits(h, w, h * w, h)
  {
    GridMath.MulMono(h, ld, w);
  }

  /** Every position of a dense `h` by `w` block is in the block. */
  lemma DenseInBlock(k: nat, h: nat, w: nat)
    requires k < h * w
    ensures InBlock(k, h, w, h)
  {
  }

  /** The block of `a` (leading dimension `ld`) packed densely, column by
      column: what `InterleaveMatrix(h, w, a, 1, ld, buf, 1, h)` leaves in a
      buffer of `h*w` entries. */
  function Packed<V>(h: nat, w: nat, a: seq<V>, ld: nat): (r: seq<V>)
    requires BlockFits(h, w, |a|, ld)
    ensures |r| == h * w
  {
    DenseFits(h, w, |a|, ld);
    Interleave(h, w, a, ld, a[..h * w], h)
  }

  /** Entry `(i, j)` of the block is at `i + j*h` of the packing. */
  lemma {:induction false} PackedAt<V>(h: nat, w: nat, a: seq<V>, ld: nat, i: nat, j: nat)
    requires BlockFits(h, w, |a|, ld) && i < h && j < w
    ensures i + j * h < h * w && i + j * ld < |a|
    ensures Packed(h, w, a, ld)[i + j * h] == a[i + j * ld]
  {
    DenseFits(h, w, |a|, ld);
    InterleaveAt(h, w, a, ld, a[..h * w], h, i, j);
  }

  /** Packing into any buffer of exactly `h*w` entries gives the packing:
      the old contents of the buffer do not show. */
  lemma {:induction false} PackedIndependent<V>(h: nat, w: nat, a: seq<V>, ld: nat, buf: seq<V>)
    requires BlockFits(h, w, |a|, ld) && |buf| == h * w
    ensures BlockFits(h, w, |buf|, h)
    ensures Interleave(h, w, a, ld, buf, h) == Packed(h, w, a, ld)
  {
    DenseFits(h, w, |a|, ld);
    var p := Interleave(h, w, a, ld, buf, h);
    forall k | 0 <= k < h * w
      ensures p[k] == Packed(h, w, a, ld)[k]
    {
      DenseInBlock(k, h, w);
      MapBlockIndex(h, w, a, ld, buf, h, Id, k);
      MapBlockIndex(h, w, a, ld, a[..h * w], h, Id, k);
    }
  }

  /** A contiguous block packs to its leading `h*w` entries. */
  lemma {:induction false} PackedContiguous<V>(h: nat, w: nat, a: seq<V>)
    requires BlockFits(h, w, |a|, h)
    ensures h * w <= |a| && Packed(h, w, a, h) == a[..h * w]
  {
    DenseFits(h, w, |a|, h);
    ContiguousInterleave(h, w, a, a[..h * w]);
  }

  /** A block copy packs to the packing of its source. */
  lemma {:induction false} PackedOfInterleave<V>(h: nat, w: nat, a: seq<V>, ldA: nat, b: seq<V>, ldB: nat)
    requires BlockFits(h, w, |a|, ldA) && BlockFits(h, w, |b|, ldB)
    ensures Packed(h, w, Interleave(h, w, a, ldA, b, ldB), ldB) == Packed(h, w, a, ldA)
  {
    var x := Interleave(h, w, a, ldA, b, ldB);
    forall k | 0 <= k < h * w
      ensures Packed(h, w, x, ldB)[k] == Packed(h, w, a, ldA)[k]
    {
      DenseInBlock(k, h, w);
      var i, j := k % h, k / h;
      assert k == i + j * h;
      PackedAt(h, w, x, ldB, i, j);
      PackedAt(h, w, a, ldA, i, j);
      InterleaveAt(h, w, a, ldA, b, ldB, i, j);
    }
  }

  /** Unpacking a dense message into a block and packing the block again
      gives back the message. */
  lemma {:induction false} UnpackThenPack<V>(h: nat, w: nat, msg: seq<V>, b: seq<V>, ld: nat)
    requires |msg| == h * w && BlockFits(h, w, |b|, ld)
    ensures BlockFits(h, w, |msg|, h)
    ensures Packed(h, w, Interleave(h, w, msg, h, b, ld), ld) == msg
  {
    PackedOfInterleave(h, w, msg, h, b, ld);
    PackedContiguous(h, w, msg);
  }

  /** `MemCopy(dst + dOff, src + sOff, n)`; the buffers do not alias. */
  method MemCopy<V>(dst: array<V>, dOff: nat, src: array<V>, sOff: nat, n: nat)
    requires dst != src
    requires dOff + n <= dst.Length && sOff + n <= src.Length
    modifies dst
    ensures dst[..] == Overwrite(old(dst[..]), dOff, src[..][sOff .. sOff + n])
  {
    var k := 0;
    while k < n
      invariant 0 <= k <= n
      invariant dst[..] == Overwrite(old(dst[..]), dOff, src[sOff .. sOff + k])
    {
      dst[dOff + k] := src[sOff + k];
      k := k + 1;
    }
  }

  /** `InterleaveMatrix(h, w, src, 1, ldSrc, dst, 1, ldDst)`: the strided
      block copy, one column at a time. */
  method InterleaveMatrix<V>(h: nat, w: nat, src: array<V>, ldSrc: nat, dst: array<V>, ldDst: nat)
    requires dst != src
    requires BlockFits(h, w, src.Length, ldSrc) && BlockFits(h, w, dst.Length, ldDst)
    modifies dst
    ensures dst[..] == Interleave(h, w, src[..], ldSrc, old(dst[..]), ldDst)
  {
    ghost var s, d0 := src[..], dst[..];
    MapBlockNoColumns(h, s, ldSrc, d0, ldDst, Id);
    var j: nat, offSrc: nat, offDst: nat := 0, 0, 0;
    while j < w
      invariant 0 <= j <= w && offSrc == j * ldSrc && offDst == j * ldDst
      invariant src[..] == s
      invariant BlockFits(h, j, |s|, ldSrc) && BlockFits(h, j, |d0|, ldDst)
      invariant dst[..] == Interleave(h, j, s, ldSrc, d0, ldDst)
    {
      InterleaveExtend(h, j, w, s, ldSrc, d0, ldDst);
      MemCopy(dst, offDst, src, offSrc, h);
      j, offSrc, offDst := j + 1, offSrc + ldSrc, offDst + ldDst;
    }
  }

  /** A local matrix: a column-major buffer with leading dimension `ldim`. */
  class LocalMatrix<V(0)> {
    var height: nat
    var width: nat
    var ldim: nat
    var data: array<V>

    ghost predicate Valid()
      reads this
    {
      ldim >= 1 && BlockFits(height, width, data.Length, ldim)
    }

    /** Entry `(i, j)`. */
    function Get(i: nat, j: nat): V
      reads this, data
      requires Valid() && i < height && j < width
    {
      BlockEntryInBounds(i, j, height, width, data.Length, ldim);
      data[i + j * ldim]
    }

    /** The stored entries are contiguous. */
    predicate Contiguous()
      reads this
    {
      ldim == height
    }

    constructor (h: nat, w: nat)
      ensures Valid() && height == h && width == w && ldim == if h == 0 then 1 else h
      ensures fresh(data)
    {
      height, width := h, w;
      ldim := if h == 0 then 1 else h;
      data := new V[(if h == 0 then 1 else h) * w];
    }

    /** `Resize(h, w)`: the buffer is kept when the new block fits in it
        with the current leading dimension; otherwise a fresh buffer with
        leading dimension `max(h, 1)` is allocated. */
    method Resize(h: nat, w: nat)
      requires Valid()
      modifies this
      ensures Valid() && height == h && width == w
      ensures (data == old(data) && ldim == old(ldim))
           || (fresh(data) && ldim == if h == 0 then 1 else h)
    {
      if !(h <= ldim && ldim * w <= data.Length) {
        ldim := if h == 0 then 1 else h;
        data := new V[ldim * w];
      }
      height, width := h, w;
    }
  }
}
