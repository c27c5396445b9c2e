/** The inertia of a symmetric matrix from its LDL factorisation with
    Bunch-Kaufman pivoting (LDL/Inertia.hpp): the numbers of positive,
    negative and zero eigenvalues, read off the block-diagonal factor `D`.
    `d` is the diagonal of `D` and `dSub` its subdiagonal; a nonzero
    subdiagonal entry starts a 2x2 pivot block, which always has one
    positive and one negative eigenvalue.

    Only sign tests and comparisons with zero are made, so the diagonal is
    modelled by `real` values and the subdiagonal (real or complex in the
    source) by values of any type with a distinguished `zero`. */
module Inertia {
  import opened Types
  import opened GridMath

  /** `El::Inertia`. */
  datatype Counts = Counts(numPositive: nat, numNegative: nat, numZero: nat)
  {
    function Plus(o: Counts): Counts
    {
      Counts(numPositive + o.numPositive, numNegative + o.numNegative, numZero + o.numZero)
    }

    function Total(): nat
    {
      numPositive + numNegative + numZero
    }
  }

  /** The debug length check: the subdiagonal of a nonempty `d` has one
      entry fewer. */
  predicate SubdiagonalFits(n: nat, subLength: nat)
  {
    n == 0 || subLength == n - 1
  }

  /** `nb`: a pivot at `k` is 2x2 when it is not the last row and the
      subdiagonal entry below it is nonzero. */
  function BlockSize<F(==)>(n: nat, dSub: seq<F>, zero: F, k: nat): (nb: nat)
    requires k < n && SubdiagonalFits(n, |dSub|)
    ensures nb == 1 || nb == 2
    ensures nb == 2 <==> k < n - 1 && dSub[k] != zero
    ensures k + nb <= n
  {
    if k < n - 1 && dSub[k] != zero then 2 else 1
  }

  /** The three kinds of eigenvalue the inertia counts. */
  datatype Sign = Positive | Negative | Zero

  /** Whether `delta` has the sign `s`. */
  predicate HasSign(delta: real, s: Sign)
  {
    match s
    case Positive => delta > 0.0
    case Negative => delta < 0.0
    case Zero => delta == 0.0
  }

  /** How many eigenvalues of sign `s` the pivot at row `k` contributes. */
  function PivotCount<F(==)>(d: seq<real>, dSub: seq<F>, zero: F, k: nat, s: Sign): nat
    requires k < |d| && SubdiagonalFits(|d|, |dSub|)
  {
    if BlockSize(|d|, dSub, zero, k) == 2 then (if s == Zero then 0 else 1)
    else if HasSign(d[k], s) then 1 else 0
  }

  /** How many eigenvalues of sign `s` the pivots from row `k` on have. */
  function CountFrom<F(==)>(d: seq<real>, dSub: seq<F>, zero: F, k: nat, s: Sign): nat
    requires k <= |d| && SubdiagonalFits(|d|, |dSub|)
    decreases |d| - k
  {
    if k == |d| then 0
    else PivotCount(d, dSub, zero, k, s) + CountFrom(d, dSub, zero, k + BlockSize(|d|, dSub, zero, k), s)
  }

  /** The inertia of the pivots from row `k` on. */
  function InertiaFrom<F(==)>(d: seq<real>, dSub: seq<F>, zero: F, k: nat): Counts
    requires k <= |d| && SubdiagonalFits(|d|, |dSub|)
  {
    Counts(CountFrom(d, dSub, zero, k, Positive), CountFrom(d, dSub, zero, k, Negative),
           CountFrom(d, dSub, zero, k, Zero))
  }

  /** The sequential `Inertia(d, dSub)`: after the length check, the loop
      steps through the pivots, counting a 1x1 pivot by its sign and a 2x2
      pivot as one positive and one negative eigenvalue. */
  method SequentialInertia<F(==)>(d: seq<real>, dSub: seq<F>, zero: F) returns (r: Result<Counts>)
    ensures !SubdiagonalFits(|d|, |dSub|) <==> r == Err(LogicError("dSub was the wrong length"))
    ensures SubdiagonalFits(|d|, |dSub|) ==> r == Ok(InertiaFrom(d, dSub, zero, 0))
  {
    var n := |d|;
    if n != 0 && |dSub| != n - 1 {
      return Err(LogicError("dSub was the wrong length"));
    }
    var numPositive, numNegative, numZero := 0, 0, 0;
    var k := 0;
    while k < n
      invariant k <= n
      invariant numPositive + CountFrom(d, dSub, zero, k, Positive) == CountFrom(d, dSub, zero, 0, Positive)
      invariant numNegative + CountFrom(d, dSub, zero, k, Negative) == CountFrom(d, dSub, zero, 0, Negative)
      invariant numZero + CountFrom(d, dSub, zero, k, Zero) == CountFrom(d, dSub, zero, 0, Zero)
      decreases n - k
    {
      var nb := if k < n - 1 && dSub[k] != zero then 2 else 1;
      if nb == 1 {
        var delta := d[k];
        if delta > 0.0 {
          numPositive := numPositive + 1;
        } else if delta < 0.0 {
          numNegative := numNegative + 1;
        } else {
          numZero := numZero + 1;
        }
      } else {
        numPositive := numPositive + 1;
        numNegative := numNegative + 1;
      }
      k := k + nb;
    }
    return Ok(Counts(numPositive, numNegative, numZero));
  }

  /** How many entries of `s` are positive, negative, zero. */
  function NumPositive(s: seq<real>): nat
  {
    if s == [] then 0 else (if s[0] > 0.0 then 1 else 0) + NumPositive(s[1..])
  }

  function NumNegative(s: seq<real>): nat
  {
    if s == [] then 0 else (if s[0] < 0.0 then 1 else 0) + NumNegative(s[1..])
  }

  function NumZero(s: seq<real>): nat
  {
    if s == [] then 0 else (if s[0] == 0.0 then 1 else 0) + NumZero(s[1..])
  }

  /** Every entry is positive, negative or zero. */
  lemma {:induction false} SignsPartition(s: seq<real>)
    ensures NumPositive(s) + NumNegative(s) + NumZero(s) == |s|
  {
    if s != [] {
      SignsPartition(s[1..]);
    }
  }

  /** The sign counts of `s` as an inertia. */
  function SignCounts(s: seq<real>): Counts
  {
    Counts(NumPositive(s), NumNegative(s), NumZero(s))
  }

  /** The diagonal entries of the 1x1 pivots from row `k` on, and the
      number of 2x2 pivots. */
  function OneByOnePivots<F(==)>(d: seq<real>, dSub: seq<F>, zero: F, k: nat): seq<real>
    requires k <= |d| && SubdiagonalFits(|d|, |dSub|)
    decreases |d| - k
  {
    if k == |d| then []
    else if BlockSize(|d|, dSub, zero, k) == 1 then [d[k]] + OneByOnePivots(d, dSub, zero, k + 1)
    else OneByOnePivots(d, dSub, zero, k + 2)
  }

  function TwoByTwoPivots<F(==)>(d: seq<real>, dSub: seq<F>, zero: F, k: nat): nat
    requires k <= |d| && SubdiagonalFits(|d|, |dSub|)
    decreases |d| - k
  {
    if k == |d| then 0
    else if BlockSize(|d|, dSub, zero, k) == 1 then TwoByTwoPivots(d, dSub, zero, k + 1)
    else 1 + TwoByTwoPivots(d, dSub, zero, k + 2)
  }

  /** The inertia of Bunch and Kaufman: if the 1x1 pivots have `a`
      positive, `b` negative and `c` zero entries and there are `q` 2x2
      pivots, the inertia is `(a+q, b+q, c)`; the pivots cover every row. */
  lemma {:induction false} BunchKaufmanInertia<F>(d: seq<real>, dSub: seq<F>, zero: F, k: nat)
    requires k <= |d| && SubdiagonalFits(|d|, |dSub|)
    ensures var ones, q := OneByOnePivots(d, dSub, zero, k), TwoByTwoPivots(d, dSub, zero, k);
      && InertiaFrom(d, dSub, zero, k) == Counts(NumPositive(ones) + q, NumNegative(ones) + q, NumZero(ones))
      && |ones| + 2 * q == |d| - k
    decreases |d| - k
  {
    if k < |d| {
      var nb := BlockSize(|d|, dSub, zero, k);
      BunchKaufmanInertia(d, dSub, zero, k + nb);
      if nb == 1 {
        var rest := OneByOnePivots(d, dSub, zero, k + 1);
        assert ([d[k]] + rest)[1..] == rest;
      }
    }
  }

  /** The counts cover every row from `k` on; at least as many positive and as many
      negative eigenvalues as 2x2 pivots; zero ones only from 1x1 pivots. */
  lemma {:induction false} InertiaCountsRows<F>(d: seq<real>, dSub: seq<F>, zero: F, k: nat)
    requires k <= |d| && SubdiagonalFits(|d|, |dSub|)
    ensures InertiaFrom(d, dSub, zero, k).Total() == |d| - k
    ensures InertiaFrom(d, dSub, zero, k).numPositive >= TwoByTwoPivots(d, dSub, zero, k)
    ensures InertiaFrom(d, dSub, zero, k).numNegative >= TwoByTwoPivots(d, dSub, zero, k)
    ensures InertiaFrom(d, dSub, zero, k).numZero == NumZero(OneByOnePivots(d, dSub, zero, k))
    ensures InertiaFrom(d, dSub, zero, k).numZero <= |d| - k - 2 * TwoByTwoPivots(d, dSub, zero, k)
  {
    var ones := OneByOnePivots(d, dSub, zero, k);
    BunchKaufmanInertia(d, dSub, zero, k);
    SignsPartition(ones);
  }

  /** With a zero subdiagonal every pivot is 1x1 and the inertia is the
      sign count of the diagonal. */
  lemma {:induction false} ZeroSubdiagonalInertia<F>(d: seq<real>, dSub: seq<F>, zero: F, k: nat)
    requires k <= |d| && SubdiagonalFits(|d|, |dSub|)
    requires forall i :: 0 <= i < |dSub| ==> dSub[i] == zero
    ensures InertiaFrom(d, dSub, zero, k) == SignCounts(d[k..])
    decreases |d| - k
  {
    if k < |d| {
      ZeroSubdiagonalInertia(d, dSub, zero, k + 1);
      assert d[k..][1..] == d[k + 1..];
    }
  }

  /** `colAlignPrev`: the alignment one row up, `(colAlign + colStride - 1)
      % colStride`. */
  function ColAlignPrev(colAlign: int, colStride: nat): int
    requires colStride > 0
  {
    CppRem(colAlign + colStride - 1, colStride)
  }

  /** For an alignment of the grid column it is the cyclic predecessor. */
  lemma ColAlignPrevIsPredecessor(colAlign: int, colStride: nat)
    requires colStride > 0 && 0 <= colAlign < colStride
    ensures 0 <= ColAlignPrev(colAlign, colStride) < colStride
    ensures ColAlignPrev(colAlign, colStride) == if colAlign == 0 then colStride - 1 else colAlign - 1
    ensures (ColAlignPrev(colAlign, colStride) + 1) % colStride == colAlign
  {
    CppRemNonNegative(colAlign + colStride - 1, colStride);
    if colAlign == 0 {
      DivModUnique(colStride - 1, 0, colStride - 1, colStride);
      DivModUnique(colStride, 1, 0, colStride);
    } else {
      DivModUnique(colAlign + colStride - 1, 1, colAlign - 1, colStride);
      DivModUnique(colAlign, 0, colAlign, colStride);
    }
  }

  /** The previous-row alignment the local loop needs: with the owner of
      global row `i` being `(i + align) % colStride`, the process that owns
      row `i` of `d` owns row `i - 1` of a vector aligned at
      `(colAlign + 1) % colStride`. */
  function ColAlignPrevCorrected(colAlign: int, colStride: nat): int
    requires colStride > 0
  {
    CppRem(colAlign + 1, colStride)
  }

  /** `prevOff`: the local offset at which the loop looks for row `i - 1`,
      taken from whether the previous shift is one below this one. */
  function PrevOffset(colShift: int, colShiftPrev: int): int
  {
    if colShiftPrev == colShift - 1 then 0 else -1
  }

  /** On an alignment of the column, `colAlignPrev` is the residue of
      `colAlign - 1`. */
  lemma ColAlignPrevIsMod(colAlign: int, colStride: nat)
    requires colStride > 0 && 0 <= colAlign < colStride
    ensures ColAlignPrev(colAlign, colStride) == Mod(colAlign - 1, colStride)
  {
    ColAlignPrevIsPredecessor(colAlign, colStride);
    if colAlign == 0 {
      DivModUnique(colAlign - 1, -1, colStride - 1, colStride);
    } else {
      DivModUnique(colAlign - 1, 0, colAlign - 1, colStride);
    }
  }

  /** The shift under the alignment `Mod(b, p)` is the residue of
      `rank - b`. */
  lemma {:induction false} ShiftOfResidue(rank: int, b: int, p: nat)
    requires p > 0
    ensures Shift(rank, Mod(b, p), p) == Mod(rank - b, p)
  {
    assert b == (b / p) * p + Mod(b, p);
    assert rank - Mod(b, p) == (rank - b) + (b / p) * p;
    ModAddMultiple(rank - b, b / p, p);
  }

  /** Under the corrected alignment the previous shift of every process is
      the cyclic predecessor of its shift. */
  lemma {:induction false} CorrectedPrevShift(rank: int, colAlign: int, colStride: nat)
    requires colStride > 0 && 0 <= colAlign < colStride
    ensures 0 <= ColAlignPrevCorrected(colAlign, colStride) < colStride
    ensures Shift(rank, ColAlignPrevCorrected(colAlign, colStride), colStride)
            == ColAlignPrev(Shift(rank, colAlign, colStride), colStride)
  {
    var p := colStride;
    CppRemNonNegative(colAlign + 1, p);
    assert ColAlignPrevCorrected(colAlign, p) == Mod(colAlign + 1, p);
    ShiftOfResidue(rank, colAlign + 1, p);
    var s := Shift(rank, colAlign, p);
    ColAlignPrevIsMod(s, p);
    ModAddSub(rank - colAlign - 1, 1, p);
  }

  /** With the previous shift the cyclic predecessor of the shift, the local
      index `iLoc + prevOff` of the previous-row vectors holds global row
      `i - 1` for every local row `i > 0`. */
  lemma {:induction false} CorrectedPrevHoldsPreviousRow(colShift: nat, colStride: nat, iLoc: nat)
    requires colShift < colStride
    requires colShift + iLoc * colStride > 0
    ensures var j := iLoc + PrevOffset(colShift, ColAlignPrev(colShift, colStride));
      j >= 0 && ColAlignPrev(colShift, colStride) + j * colStride == colShift + iLoc * colStride - 1
  {
    ColAlignPrevIsPredecessor(colShift, colStride);
    if colShift == 0 {
      assert iLoc >= 1;
      assert (iLoc - 1) * colStride == iLoc * colStride - colStride;
    }
  }

  /** As written, the previous-row vectors are aligned at `colAlign - 1`,
      which gives every process the shift one above its own.  On a column
      of three or more processes the entry the loop reads for row `i > 0`
      (at local index `iLoc + prevOff`) is then never row `i - 1`: either
      the index is negative or it holds another row. */
  lemma {:induction false} AsWrittenPrevMisread(rank: int, colAlign: int, colStride: nat, iLoc: nat)
    requires colStride >= 3 && 0 <= colAlign < colStride
    requires Shift(rank, colAlign, colStride) + iLoc * colStride > 0
    ensures var colShift := Shift(rank, colAlign, colStride);
      var colShiftPrev := Shift(rank, ColAlignPrev(colAlign, colStride), colStride);
      var j := iLoc + PrevOffset(colShift, colShiftPrev);
      j < 0 || colShiftPrev + j * colStride != colShift + iLoc * colStride - 1
  {
    var p := colStride;
    var s := Shift(rank, colAlign, p);
    ColAlignPrevIsMod(colAlign, p);
    ShiftOfResidue(rank, colAlign - 1, p);
    ModAddSub(rank - colAlign + 1, -1, p);
    var sp := Shift(rank, ColAlignPrev(colAlign, p), p);
    assert sp == Mod(s + 1, p);
    if s == p - 1 {
      DivModUnique(s + 1, 1, 0, p);
    } else {
      DivModUnique(s + 1, 0, s + 1, p);
    }
    assert PrevOffset(s, sp) == -1;
    if iLoc >= 1 {
      MulSucc(iLoc - 1, p);
    }
  }

  /** A column vector distributed [MC,STAR] as this process sees it: its
      global height, alignment, shift and local entries. */
  datatype ColVector<T> = ColVector(height: nat, colAlign: int, colShift: int, local: seq<T>)

  /** `v` is placed on the process of rank `rank` in a column of
      `colStride` processes: its alignment is a rank and its shift is that
      process's. */
  predicate Placed<T>(v: ColVector<T>, rank: int, colStride: nat)
  {
    colStride > 0 && 0 <= v.colAlign < colStride && v.colShift == Shift(rank, v.colAlign, colStride)
  }

  /** `v` stores, on that process, the rows of the global vector `g` it
      owns: local entry `j` is global row `colShift + j * colStride`. */
  predicate Holds<T(==)>(v: ColVector<T>, g: seq<T>, rank: int, colStride: nat)
  {
    && Placed(v, rank, colStride)
    && v.height == |g|
    && |v.local| == Length(|g|, v.colShift, colStride)
    && forall j :: 0 <= j < |v.local| ==> v.colShift + j * colStride < |g| && v.local[j] == g[v.colShift + j * colStride]
  }

  /** The debug checks of the distributed `Inertia`, in their order, with
      the previous-row vectors `dPrev` and `dSubPrev` expected at the
      alignment `colAlignPrev`. */
  function ChecksAt<F>(d: ColVector<real>, dPrev: ColVector<real>, dSub: ColVector<F>,
                       dSubPrev: ColVector<F>, colAlignPrev: int): (r: Outcome)
    ensures r.Pass? <==>
      && dPrev.height == d.height
      && SubdiagonalFits(d.height, dSub.height) && SubdiagonalFits(d.height, dSubPrev.height)
      && dSub.colAlign == d.colAlign
      && dPrev.colAlign == colAlignPrev && dSubPrev.colAlign == colAlignPrev
    ensures dPrev.height != d.height ==> r == Fail(LogicError("dPrev was the wrong length"))
  {
    var n := d.height;
    if dPrev.height != n then Fail(LogicError("dPrev was the wrong length"))
    else if n != 0 && (dSub.height != n - 1 || dSubPrev.height != n - 1) then
      Fail(LogicError("dSub or dSubPrev was wrong length"))
    else if dSub.colAlign != d.colAlign then Fail(LogicError("dSub was improperly aligned"))
    else if dPrev.colAlign != colAlignPrev then Fail(LogicError("dPrev was improperly aligned"))
    else if dSubPrev.colAlign != colAlignPrev then Fail(LogicError("dSubPrev was improperly aligned"))
    else Pass
  }

  /** The checks as the source states them: the previous-row vectors are
      expected at `ColAlignPrev`, the cyclic predecessor of `colAlign`. */
  function DistributedChecks<F>(d: ColVector<real>, dPrev: ColVector<real>, dSub: ColVector<F>,
                                dSubPrev: ColVector<F>, colStride: nat): (r: Outcome)
    requires colStride > 0
    ensures r.Pass? <==>
      && dPrev.height == d.height
      && SubdiagonalFits(d.height, dSub.height) && SubdiagonalFits(d.height, dSubPrev.height)
      && dSub.colAlign == d.colAlign
      && dPrev.colAlign == ColAlignPrev(d.colAlign, colStride)
      && dSubPrev.colAlign == ColAlignPrev(d.colAlign, colStride)
  {
    ChecksAt(d, dPrev, dSub, dSubPrev, ColAlignPrev(d.colAlign, colStride))
  }

  /** The checks with the previous-row vectors expected at the cyclic
      successor of `colAlign`, whose owner holds row `i - 1` of each row
      `i` this process holds. */
  function DistributedChecksCorrected<F>(d: ColVector<real>, dPrev: ColVector<real>, dSub: ColVector<F>,
                                         dSubPrev: ColVector<F>, colStride: nat): (r: Outcome)
    requires colStride > 0
    ensures r.Pass? <==>
      && dPrev.height == d.height
      && SubdiagonalFits(d.height, dSub.height) && SubdiagonalFits(d.height, dSubPrev.height)
      && dSub.colAlign == d.colAlign
      && dPrev.colAlign == ColAlignPrevCorrected(d.colAlign, colStride)
      && dSubPrev.colAlign == ColAlignPrevCorrected(d.colAlign, colStride)
  {
    ChecksAt(d, dPrev, dSub, dSubPrev, ColAlignPrevCorrected(d.colAlign, colStride))
  }

  /** On a column of two processes the predecessor and the successor of
      an alignment coincide, so the two checks agree. */
  lemma {:induction false} ChecksAgreeOnTwo<F>(d: ColVector<real>, dPrev: ColVector<real>, dSub: ColVector<F>,
                                               dSubPrev: ColVector<F>)
    requires 0 <= d.colAlign < 2
    ensures ColAlignPrev(d.colAlign, 2) == ColAlignPrevCorrected(d.colAlign, 2)
    ensures DistributedChecks(d, dPrev, dSub, dSubPrev, 2) == DistributedChecksCorrected(d, dPrev, dSub, dSubPrev, 2)
  {
    if d.colAlign == 0 {
      assert ColAlignPrev(0, 2) == CppRem(1, 2) == 1;
      assert ColAlignPrevCorrected(0, 2) == CppRem(1, 2);
    } else {
      assert ColAlignPrev(1, 2) == CppRem(2, 2) == 0;
      assert ColAlignPrevCorrected(1, 2) == CppRem(2, 2);
    }
  }


  /** How many eigenvalues of sign `s` the distributed loop assigns to row
      `i`: those of a 2x2 pivot starting there, none for the second row of
      a 2x2 pivot, else those of the 1x1 pivot `d[i]`. */
  function RowCount<F(==)>(d: seq<real>, dSub: seq<F>, zero: F, i: nat, s: Sign): nat
    requires i < |d| && SubdiagonalFits(|d|, |dSub|)
  {
    if i < |d| - 1 && dSub[i] != zero then (if s == Zero then 0 else 1)
    else if i > 0 && dSub[i - 1] != zero then 0
    else if HasSign(d[i], s) then 1 else 0
  }

  /** The row counts of rows `i`, `i + stride`, `i + 2 * stride`, ... */
  function StridedFrom<F(==)>(d: seq<real>, dSub: seq<F>, zero: F, i: nat, stride: nat, s: Sign): nat
    requires stride > 0 && SubdiagonalFits(|d|, |dSub|)
    decreases |d| - i
  {
    if i >= |d| then 0 else RowCount(d, dSub, zero, i, s) + StridedFrom(d, dSub, zero, i + stride, stride, s)
  }

  /** The entries the loop reads for local row `iLoc` (global row `i`):
      the diagonal entry of row `i`, the subdiagonal entry below it when
      there is one, and the one above it through `dSubPrev`. */
  lemma {:induction false} LocalRowEntries<F>(d: ColVector<real>, dSub: ColVector<F>, dSubPrev: ColVector<F>,
                                             colStride: nat, rank: int, dG: seq<real>, dSubG: seq<F>, iLoc: nat)
    requires SubdiagonalFits(|dG|, |dSubG|)
    requires Holds(d, dG, rank, colStride) && Holds(dSub, dSubG, rank, colStride)
      && Holds(dSubPrev, dSubG, rank, colStride)
    requires dSub.colShift == d.colShift && dSubPrev.colShift == ColAlignPrev(d.colShift, colStride)
    requires iLoc < |d.local|
    ensures var i := d.colShift + iLoc * colStride;
      && i < |dG| && d.local[iLoc] == dG[i]
      && (i < |dG| - 1 ==> iLoc < |dSub.local| && dSub.local[iLoc] == dSubG[i])
      && (i > 0 ==> var j := iLoc + PrevOffset(d.colShift, dSubPrev.colShift);
                    0 <= j < |dSubPrev.local| && dSubPrev.local[j] == dSubG[i - 1])
  {
    var i := d.colShift + iLoc * colStride;
    LengthCountsLocalIndices(|dSubG|, d.colShift, colStride, iLoc);
    if i > 0 {
      CorrectedPrevHoldsPreviousRow(d.colShift, colStride, iLoc);
      var j := iLoc + PrevOffset(d.colShift, dSubPrev.colShift);
      LengthCountsLocalIndices(|dSubG|, dSubPrev.colShift, colStride, j);
    }
  }

  /** Whether the local entries the loop reads for local row `iLoc` exist:
      the subdiagonal entry when the row is not the last, and the entry of
      `dSubPrev` at offset `prevOff` when no 2x2 pivot starts at the row. */
  predicate RowReadsOk<F(==)>(d: ColVector<real>, dSub: ColVector<F>, dSubPrev: ColVector<F>,
                              prevOff: int, colStride: nat, zero: F, iLoc: nat)
  {
    var i := d.colShift + iLoc * colStride;
    && (i < d.height - 1 ==> iLoc < |dSub.local|)
    && (i > 0 && !(i < d.height - 1 && dSub.local[iLoc] != zero) ==> 0 <= iLoc + prevOff < |dSubPrev.local|)
  }

  /** Whether the reads of every local row exist. */
  predicate ReadsOk<F(==)>(d: ColVector<real>, dSub: ColVector<F>, dSubPrev: ColVector<F>,
                           prevOff: int, colStride: nat, zero: F)
  {
    forall k :: 0 <= k < |d.local| ==> RowReadsOk(d, dSub, dSubPrev, prevOff, colStride, zero, k)
  }

  /** How many eigenvalues of sign `s` the loop counts at local row `iLoc`,
      judged by the local entries alone: those of a 2x2 pivot when the
      local subdiagonal entry is nonzero, none when the entry of `dSubPrev`
      at offset `prevOff` is, else the sign of the local diagonal entry. */
  function RowCountLocal<F(==)>(d: ColVector<real>, dSub: ColVector<F>, dSubPrev: ColVector<F>,
                                prevOff: int, colStride: nat, zero: F, iLoc: nat, s: Sign): nat
    requires iLoc < |d.local| && RowReadsOk(d, dSub, dSubPrev, prevOff, colStride, zero, iLoc)
  {
    var i := d.colShift + iLoc * colStride;
    if i < d.height - 1 && dSub.local[iLoc] != zero then (if s == Zero then 0 else 1)
    else if i > 0 && dSubPrev.local[iLoc + prevOff] != zero then 0
    else if HasSign(d.local[iLoc], s) then 1 else 0
  }

  /** The local counts of local rows `iLoc .. |d.local| - 1`. */
  function LocalCountFrom<F(==)>(d: ColVector<real>, dSub: ColVector<F>, dSubPrev: ColVector<F>,
                                 prevOff: int, colStride: nat, zero: F, iLoc: nat, s: Sign): nat
    requires forall k :: iLoc <= k < |d.local| ==> RowReadsOk(d, dSub, dSubPrev, prevOff, colStride, zero, k)
    decreases |d.local| - iLoc
  {
    if iLoc >= |d.local| then 0
    else RowCountLocal(d, dSub, dSubPrev, prevOff, colStride, zero, iLoc, s)
         + LocalCountFrom(d, dSub, dSubPrev, prevOff, colStride, zero, iLoc + 1, s)
  }

  /** The counts of the local loop over all local rows. */
  function LocalCounts<F(==)>(d: ColVector<real>, dSub: ColVector<F>, dSubPrev: ColVector<F>,
                              prevOff: int, colStride: nat, zero: F): Counts
    requires ReadsOk(d, dSub, dSubPrev, prevOff, colStride, zero)
  {
    Counts(LocalCountFrom(d, dSub, dSubPrev, prevOff, colStride, zero, 0, Positive),
           LocalCountFrom(d, dSub, dSubPrev, prevOff, colStride, zero, 0, Negative),
           LocalCountFrom(d, dSub, dSubPrev, prevOff, colStride, zero, 0, Zero))
  }

  /** The loop over the local rows of the process with shift `d.colShift`,
      with `prevOff` taken from the shift `colShiftPrev` of `dPrev`: it
      counts, for each local row, what its local entries select. */
  method LocalInertia<F(==)>(d: ColVector<real>, dSub: ColVector<F>, dSubPrev: ColVector<F>, colShiftPrev: int,
                             colStride: nat, zero: F)
    returns (loc: Counts)
    requires ReadsOk(d, dSub, dSubPrev, PrevOffset(d.colShift, colShiftPrev), colStride, zero)
    ensures loc == LocalCounts(d, dSub, dSubPrev, PrevOffset(d.colShift, colShiftPrev), colStride, zero)
  {
    var n: int := d.height;
    var colShift := d.colShift;
    var mLocal := |d.local|;
    var prevOff := PrevOffset(colShift, colShiftPrev);
    var numPositive, numNegative, numZero := 0, 0, 0;
    var iLoc := 0;
    while iLoc < mLocal
      invariant iLoc <= mLocal
      invariant numPositive + LocalCountFrom(d, dSub, dSubPrev, prevOff, colStride, zero, iLoc, Positive)
                == LocalCountFrom(d, dSub, dSubPrev, prevOff, colStride, zero, 0, Positive)
      invariant numNegative + LocalCountFrom(d, dSub, dSubPrev, prevOff, colStride, zero, iLoc, Negative)
                == LocalCountFrom(d, dSub, dSubPrev, prevOff, colStride, zero, 0, Negative)
      invariant numZero + LocalCountFrom(d, dSub, dSubPrev, prevOff, colStride, zero, iLoc, Zero)
                == LocalCountFrom(d, dSub, dSubPrev, prevOff, colStride, zero, 0, Zero)
    {
      var i := colShift + iLoc * colStride;
      var iLocPrev := iLoc + prevOff;
      assert RowReadsOk(d, dSub, dSubPrev, prevOff, colStride, zero, iLoc);
      if i < n - 1 && dSub.local[iLoc] != zero {
        numPositive := numPositive + 1;
        numNegative := numNegative + 1;
      } else if i > 0 && dSubPrev.local[iLocPrev] != zero {
      } else {
        var delta := d.local[iLoc];
        if delta > 0.0 {
          numPositive := numPositive + 1;
        } else if delta < 0.0 {
          numNegative := numNegative + 1;
        } else {
          numZero := numZero + 1;
        }
      }
      iLoc := iLoc + 1;
    }
    return Counts(numPositive, numNegative, numZero);
  }

  /** When `dSubPrev` holds the global subdiagonal at the predecessor
      shift, every read of the loop exists. */
  lemma {:induction false} PrevReadsInRange<F>(d: ColVector<real>, dSub: ColVector<F>, dSubPrev: ColVector<F>,
                                              colStride: nat, zero: F, rank: int, dG: seq<real>, dSubG: seq<F>)
    requires SubdiagonalFits(|dG|, |dSubG|)
    requires Holds(d, dG, rank, colStride) && Holds(dSub, dSubG, rank, colStride)
      && Holds(dSubPrev, dSubG, rank, colStride)
    requires dSub.colShift == d.colShift && dSubPrev.colShift == ColAlignPrev(d.colShift, colStride)
    ensures ReadsOk(d, dSub, dSubPrev, PrevOffset(d.colShift, dSubPrev.colShift), colStride, zero)
  {
    forall k | 0 <= k < |d.local|
      ensures RowReadsOk(d, dSub, dSubPrev, PrevOffset(d.colShift, dSubPrev.colShift), colStride, zero, k)
    {
      LocalRowEntries(d, dSub, dSubPrev, colStride, rank, dG, dSubG, k);
    }
  }

  /** Under the same placement the local count of local row `iLoc` is the
      row count of the global row it stands for. */
  lemma {:induction false} RowCountLocalIsRowCount<F>(d: ColVector<real>, dSub: ColVector<F>, dSubPrev: ColVector<F>,
                                                     colStride: nat, zero: F, rank: int, dG: seq<real>,
                                                     dSubG: seq<F>, iLoc: nat, s: Sign)
    requires SubdiagonalFits(|dG|, |dSubG|)
    requires Holds(d, dG, rank, colStride) && Holds(dSub, dSubG, rank, colStride)
      && Holds(dSubPrev, dSubG, rank, colStride)
    requires dSub.colShift == d.colShift && dSubPrev.colShift == ColAlignPrev(d.colShift, colStride)
    requires iLoc < |d.local|
    ensures RowReadsOk(d, dSub, dSubPrev, PrevOffset(d.colShift, dSubPrev.colShift), colStride, zero, iLoc)
    ensures 0 <= d.colShift + iLoc * colStride < |dG|
    ensures RowCountLocal(d, dSub, dSubPrev, PrevOffset(d.colShift, dSubPrev.colShift), colStride, zero, iLoc, s)
            == RowCount(dG, dSubG, zero, d.colShift + iLoc * colStride, s)
  {
    LocalRowEntries(d, dSub, dSubPrev, colStride, rank, dG, dSubG, iLoc);
  }

  /** Under the same placement the local counts from local row `iLoc` are
      the row counts of the global rows it stands for. */
  lemma {:induction false} LocalCountIsStrided<F>(d: ColVector<real>, dSub: ColVector<F>, dSubPrev: ColVector<F>,
                                                 colStride: nat, zero: F, rank: int, dG: seq<real>,
                                                 dSubG: seq<F>, iLoc: nat, s: Sign)
    requires SubdiagonalFits(|dG|, |dSubG|)
    requires Holds(d, dG, rank, colStride) && Holds(dSub, dSubG, rank, colStride)
      && Holds(dSubPrev, dSubG, rank, colStride)
    requires dSub.colShift == d.colShift && dSubPrev.colShift == ColAlignPrev(d.colShift, colStride)
    requires ReadsOk(d, dSub, dSubPrev, PrevOffset(d.colShift, dSubPrev.colShift), colStride, zero)
    requires iLoc <= |d.local|
    ensures LocalCountFrom(d, dSub, dSubPrev, PrevOffset(d.colShift, dSubPrev.colShift), colStride, zero, iLoc, s)
            == StridedFrom(dG, dSubG, zero, d.colShift + iLoc * colStride, colStride, s)
    decreases |d.local| - iLoc
  {
    var prevOff := PrevOffset(d.colShift, dSubPrev.colShift);
    var i := d.colShift + iLoc * colStride;
    if iLoc == |d.local| {
      LengthCountsLocalIndices(|dG|, d.colShift, colStride, iLoc);
    } else {
      RowCountLocalIsRowCount(d, dSub, dSubPrev, colStride, zero, rank, dG, dSubG, iLoc, s);
      LocalCountIsStrided(d, dSub, dSubPrev, colStride, zero, rank, dG, dSubG, iLoc + 1, s);
      MulSucc(iLoc, colStride);
    }
  }

  /** The local counts of the process are the row counts of the global
      rows it holds, once `dSubPrev` sits at the predecessor shift. */
  lemma {:induction false} LocalCountsAreRowCounts<F>(d: ColVector<real>, dSub: ColVector<F>, dSubPrev: ColVector<F>,
                                                     colStride: nat, zero: F, rank: int, dG: seq<real>, dSubG: seq<F>)
    requires SubdiagonalFits(|dG|, |dSubG|)
    requires Holds(d, dG, rank, colStride) && Holds(dSub, dSubG, rank, colStride)
      && Holds(dSubPrev, dSubG, rank, colStride)
    requires dSub.colShift == d.colShift && dSubPrev.colShift == ColAlignPrev(d.colShift, colStride)
    ensures ReadsOk(d, dSub, dSubPrev, PrevOffset(d.colShift, dSubPrev.colShift), colStride, zero)
    ensures LocalCounts(d, dSub, dSubPrev, PrevOffset(d.colShift, dSubPrev.colShift), colStride, zero)
            == Counts(StridedFrom(dG, dSubG, zero, d.colShift, colStride, Positive),
                      StridedFrom(dG, dSubG, zero, d.colShift, colStride, Negative),
                      StridedFrom(dG, dSubG, zero, d.colShift, colStride, Zero))
  {
    PrevReadsInRange(d, dSub, dSubPrev, colStride, zero, rank, dG, dSubG);
    assert d.colShift + 0 * colStride == d.colShift;
    LocalCountIsStrided(d, dSub, dSubPrev, colStride, zero, rank, dG, dSubG, 0, Positive);
    LocalCountIsStrided(d, dSub, dSubPrev, colStride, zero, rank, dG, dSubG, 0, Negative);
    LocalCountIsStrided(d, dSub, dSubPrev, colStride, zero, rank, dG, dSubG, 0, Zero);
  }

  /** With a column of one process the local vectors are the global ones. */
  lemma {:induction false} SingleProcessHoldsAll<T>(v: ColVector<T>, g: seq<T>, rank: int)
    requires Holds(v, g, rank, 1)
    ensures v.local == g
  {
    assert v.colShift == 0;
    assert |v.local| == |g| by {
      if |g| > 0 {
        assert (|g| - 0 - 1) / 1 == |g| - 1;
      }
    }
    forall j | 0 <= j < |g|
      ensures v.local[j] == g[j]
    {
      assert 0 + j * 1 == j;
    }
  }

  /** The distributed `Inertia(d, dPrev, dSub, dSubPrev)` on the process of
      rank `rank` in its column, as the source states it: after the checks,
      a column of one process takes the sequential inertia of its local
      vectors; otherwise each process runs the local loop and `allReduce`
      stands for the sum over the column that the collective delivers.
      `dSubPrev` is only placed: the loop reads whatever it holds, and the
      caller must supply the entries it reads. */
  method DistributedInertia<F(==)>(d: ColVector<real>, dPrev: ColVector<real>, dSub: ColVector<F>,
                                   dSubPrev: ColVector<F>, colStride: nat, zero: F, allReduce: Counts -> Counts,
                                   ghost rank: int, ghost dG: seq<real>, ghost dSubG: seq<F>)
    returns (r: Result<Counts>)
    requires Holds(d, dG, rank, colStride) && Placed(dPrev, rank, colStride)
      && Holds(dSub, dSubG, rank, colStride) && Placed(dSubPrev, rank, colStride)
    requires DistributedChecks(d, dPrev, dSub, dSubPrev, colStride).Pass? && colStride != 1 ==>
               ReadsOk(d, dSub, dSubPrev, PrevOffset(d.colShift, dPrev.colShift), colStride, zero)
    ensures DistributedChecks(d, dPrev, dSub, dSubPrev, colStride).Fail? ==>
              r == Err(DistributedChecks(d, dPrev, dSub, dSubPrev, colStride).error)
    ensures DistributedChecks(d, dPrev, dSub, dSubPrev, colStride).Pass? && colStride == 1 ==>
              r == Ok(InertiaFrom(dG, dSubG, zero, 0))
    ensures DistributedChecks(d, dPrev, dSub, dSubPrev, colStride).Pass? && colStride != 1 ==>
              r == Ok(allReduce(LocalCounts(d, dSub, dSubPrev, PrevOffset(d.colShift, dPrev.colShift), colStride, zero)))
  {
    var checks := DistributedChecks(d, dPrev, dSub, dSubPrev, colStride);
    if checks.Fail? {
      return Err(checks.error);
    }
    if colStride == 1 {
      SingleProcessHoldsAll(d, dG, rank);
      SingleProcessHoldsAll(dSub, dSubG, rank);
      r := SequentialInertia(d.local, dSub.local, zero);
      return;
    }
    var loc := LocalInertia(d, dSub, dSubPrev, dPrev.colShift, colStride, zero);
    return Ok(allReduce(loc));
  }

  /** The distributed `Inertia` with the corrected checks, where `dSubPrev`
      holds the global subdiagonal like `dSub`: each process then counts
      exactly the row counts of its global rows. */
  method DistributedInertiaCorrected<F(==)>(d: ColVector<real>, dPrev: ColVector<real>, dSub: ColVector<F>,
                                            dSubPrev: ColVector<F>, colStride: nat, zero: F,
                                            allReduce: Counts -> Counts,
                                            ghost rank: int, ghost dG: seq<real>, ghost dSubG: seq<F>)
    returns (r: Result<Counts>)
    requires Holds(d, dG, rank, colStride) && Placed(dPrev, rank, colStride)
      && Holds(dSub, dSubG, rank, colStride) && Holds(dSubPrev, dSubG, rank, colStride)
    ensures DistributedChecksCorrected(d, dPrev, dSub, dSubPrev, colStride).Fail? ==>
              r == Err(DistributedChecksCorrected(d, dPrev, dSub, dSubPrev, colStride).error)
    ensures DistributedChecksCorrected(d, dPrev, dSub, dSubPrev, colStride).Pass? && colStride == 1 ==>
              r == Ok(InertiaFrom(dG, dSubG, zero, 0))
    ensures DistributedChecksCorrected(d, dPrev, dSub, dSubPrev, colStride).Pass? && colStride != 1 ==>
              r == Ok(allReduce(Counts(StridedFrom(dG, dSubG, zero, d.colShift, colStride, Positive),
                                       StridedFrom(dG, dSubG, zero, d.colShift, colStride, Negative),
                                       StridedFrom(dG, dSubG, zero, d.colShift, colStride, Zero))))
  {
    var checks := DistributedChecksCorrected(d, dPrev, dSub, dSubPrev, colStride);
    if checks.Fail? {
      return Err(checks.error);
    }
    if colStride == 1 {
      SingleProcessHoldsAll(d, dG, rank);
      SingleProcessHoldsAll(dSub, dSubG, rank);
      r := SequentialInertia(d.local, dSub.local, zero);
      return;
    }
    CorrectedPrevShift(rank, d.colAlign, colStride);
    LocalCountsAreRowCounts(d, dSub, dSubPrev, colStride, zero, rank, dG, dSubG);
    var loc := LocalInertia(d, dSub, dSubPrev, dPrev.colShift, colStride, zero);
    return Ok(allReduce(loc));
  }

  /** The row counts of the processes with shifts `k .. k + m - 1`. */
  function Window<F(==)>(d: seq<real>, dSub: seq<F>, zero: F, k: nat, m: nat, stride: nat, s: Sign): nat
    requires stride > 0 && SubdiagonalFits(|d|, |dSub|)
    decreases m
  {
    if m == 0 then 0 else StridedFrom(d, dSub, zero, k, stride, s) + Window(d, dSub, zero, k + 1, m - 1, stride, s)
  }

  lemma {:induction false} WindowSplitLast<F>(d: seq<real>, dSub: seq<F>, zero: F, k: nat, m: nat, stride: nat, s: Sign)
    requires stride > 0 && SubdiagonalFits(|d|, |dSub|)
    ensures Window(d, dSub, zero, k, m + 1, stride, s)
            == Window(d, dSub, zero, k, m, stride, s) + StridedFrom(d, dSub, zero, k + m, stride, s)
    decreases m
  {
    if m > 0 {
      WindowSplitLast(d, dSub, zero, k + 1, m - 1, stride, s);
    }
  }

  lemma {:induction false} WindowBeyond<F>(d: seq<real>, dSub: seq<F>, zero: F, k: nat, m: nat, stride: nat, s: Sign)
    requires stride > 0 && SubdiagonalFits(|d|, |dSub|) && k >= |d|
    ensures Window(d, dSub, zero, k, m, stride, s) == 0
    decreases m
  {
    if m > 0 {
      WindowBeyond(d, dSub, zero, k + 1, m - 1, stride, s);
    }
  }

  /** The processes of a column together count every row from `k` on
      exactly once: the shifts `k .. k + stride - 1` cover all residues. */
  lemma {:induction false} WindowCoversRows<F>(d: seq<real>, dSub: seq<F>, zero: F, k: nat, stride: nat, s: Sign)
    requires stride > 0 && SubdiagonalFits(|d|, |dSub|)
    ensures Window(d, dSub, zero, k, stride, stride, s) == StridedFrom(d, dSub, zero, k, 1, s)
    decreases |d| - k
  {
    if k >= |d| {
      WindowBeyond(d, dSub, zero, k, stride, stride, s);
    } else {
      WindowSplitLast(d, dSub, zero, k + 1, stride - 1, stride, s);
      WindowCoversRows(d, dSub, zero, k + 1, stride, s);
    }
  }

  /** No two consecutive subdiagonal entries are nonzero, as in every `D`
      that Bunch-Kaufman pivoting produces. */
  predicate Separated<F(==)>(dSub: seq<F>, zero: F)
  {
    forall i :: 0 <= i < |dSub| - 1 ==> dSub[i] == zero || dSub[i + 1] == zero
  }

  /** Row `k` does not end a 2x2 pivot. */
  predicate PivotStart<F(==)>(dSub: seq<F>, zero: F, k: nat)
  {
    k == 0 || k > |dSub| || dSub[k - 1] == zero
  }

  /** With separated 2x2 pivots, counting row by row gives the sequential
      count from every row that starts a pivot. */
  lemma {:induction false} SeparatedRowsAgree<F>(d: seq<real>, dSub: seq<F>, zero: F, k: nat, s: Sign)
    requires k <= |d| && SubdiagonalFits(|d|, |dSub|)
    requires Separated(dSub, zero) && PivotStart(dSub, zero, k)
    ensures StridedFrom(d, dSub, zero, k, 1, s) == CountFrom(d, dSub, zero, k, s)
    decreases |d| - k
  {
    if k < |d| {
      if BlockSize(|d|, dSub, zero, k) == 1 {
        SeparatedRowsAgree(d, dSub, zero, k + 1, s);
      } else {
        assert RowCount(d, dSub, zero, k + 1, s) == 0;
        SeparatedRowsAgree(d, dSub, zero, k + 2, s);
        assert StridedFrom(d, dSub, zero, k + 1, 1, s) == StridedFrom(d, dSub, zero, k + 2, 1, s);
      }
    }
  }

  /** What justifies the reduction: summed over the `colStride` processes
      of a column (whose shifts are `0 .. colStride - 1`), the local counts
      are the sequential inertia whenever no two 2x2 pivots touch. */
  lemma {:induction false} ColumnSumIsSequential<F>(d: seq<real>, dSub: seq<F>, zero: F, colStride: nat, s: Sign)
    requires colStride > 0 && SubdiagonalFits(|d|, |dSub|) && Separated(dSub, zero)
    ensures Window(d, dSub, zero, 0, colStride, colStride, s) == CountFrom(d, dSub, zero, 0, s)
  {
    WindowCoversRows(d, dSub, zero, 0, colStride, s);
    SeparatedRowsAgree(d, dSub, zero, 0, s);
  }

  /** Without separation the two disagree: with `n = 3` and both
      subdiagonal entries nonzero, the sequential loop takes one 2x2 and
      one 1x1 pivot but the row counts take two 2x2 pivots. */
  lemma {:induction false} AdjacentPivotsOvercount<F>(d: seq<real>, dSub: seq<F>, zero: F)
    requires |d| == 3 && |dSub| == 2 && dSub[0] != zero && dSub[1] != zero
    ensures StridedFrom(d, dSub, zero, 0, 1, Negative) == 2
    ensures CountFrom(d, dSub, zero, 0, Positive) + CountFrom(d, dSub, zero, 0, Negative)
            + CountFrom(d, dSub, zero, 0, Zero) == 3
    ensures StridedFrom(d, dSub, zero, 0, 1, Positive) + StridedFrom(d, dSub, zero, 0, 1, Negative)
            + StridedFrom(d, dSub, zero, 0, 1, Zero) == 4
  {
    forall s: Sign
      ensures StridedFrom(d, dSub, zero, 0, 1, s) == (if s == Zero then 0 else 1) + RowCount(d, dSub, zero, 1, s)
      ensures RowCount(d, dSub, zero, 1, s) == (if s == Zero then 0 else 1)
      ensures CountFrom(d, dSub, zero, 0, s) == (if s == Zero then 0 else 1) + (if HasSign(d[2], s) then 1 else 0)
    {
      assert StridedFrom(d, dSub, zero, 3, 1, s) == 0;
      assert RowCount(d, dSub, zero, 2, s) == 0;
      assert StridedFrom(d, dSub, zero, 2, 1, s) == 0;
      assert StridedFrom(d, dSub, zero, 1, 1, s) == RowCount(d, dSub, zero, 1, s);
      assert CountFrom(d, dSub, zero, 3, s) == 0;
      assert CountFrom(d, dSub, zero, 2, s) == (if HasSign(d[2], s) then 1 else 0);
    }
  }
}
