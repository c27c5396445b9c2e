/** The distribution metadata of an element-wise distributed matrix
    (Elemental.cpp): alignments, constraint flags, view kind, global size
    and root, together with the local size and shifts they determine on
    this process.  The local buffer itself is modelled by `Buffers`; here
    only its dimensions are kept.

    `SetShifts`, `Empty`, `EmptyData` and `Participating` belong to the
    base class, which is not part of this model; they are given the
    definitions below and nothing more is assumed about them. */
module Elemental {
  import opened Types
  import opened GridMath

  datatype ViewType = Owner | View | LockedView

  /** `Viewing()`: the matrix aliases storage it does not own. */
  predicate IsView(v: ViewType)
  {
    v != Owner
  }

  /** A global or local index, or `END` (the last one). */
  datatype Index = At(i: nat) | End

  /** What this process knows of its grid for the matrix's distribution:
      the grid size, whether it is in the grid, the strides of the two
      axes, its ranks along them, and its rank in the cross communicator. */
  datatype GridView = GridView(size: nat, inGrid: bool, colStride: nat, rowStride: nat,
                               colRank: nat, rowRank: nat, crossRank: int)
  {
    predicate Wf()
    {
      colStride > 0 && rowStride > 0 && colRank < colStride && rowRank < rowStride
    }
  }

  /** The record `MakeConsistent` broadcasts. */
  datatype Header = Header(viewType: ViewType, height: nat, width: nat,
                           colConstrained: bool, rowConstrained: bool, rootConstrained: bool,
                           colAlign: int, rowAlign: int, root: int)

  /** Every field of the matrix, for the operations that move whole
      states. */
  datatype State = State(grid: GridView, header: Header, colShift: int, rowShift: int,
                         localHeight: nat, localWidth: nat)

  /** The integer code of a view kind in the message (the enumerator values
      live in a header that is not part of this model; only their
      distinctness matters). */
  function ViewCode(v: ViewType): int
  {
    match v
    case Owner => 0
    case View => 1
    case LockedView => 2
  }

  function BoolCode(b: bool): int
  {
    if b then 1 else 0
  }

  /** The 9-word message of `MakeConsistent`. */
  function Encode(h: Header): (msg: seq<int>)
    ensures |msg| == 9
  {
    [ViewCode(h.viewType), h.height, h.width,
     BoolCode(h.colConstrained), BoolCode(h.rowConstrained), BoolCode(h.rootConstrained),
     h.colAlign, h.rowAlign, h.root]
  }

  /** A message that names a view kind and non-negative sizes. */
  predicate WellFormedMessage(msg: seq<int>)
  {
    |msg| == 9 && 0 <= msg[0] <= 2 && msg[1] >= 0 && msg[2] >= 0
  }

  /** Reading the message back: the integer words converted to a view kind
      and to `bool` (non-zero is true), as the `static_cast`s do. */
  function Decode(msg: seq<int>): Header
    requires WellFormedMessage(msg)
  {
    Header(if msg[0] == 0 then Owner else if msg[0] == 1 then View else LockedView,
           msg[1], msg[2], msg[3] != 0, msg[4] != 0, msg[5] != 0, msg[6], msg[7], msg[8])
  }

  /** Decoding an encoded header restores every field. */
  lemma DecodeEncode(h: Header)
    ensures WellFormedMessage(Encode(h)) && Decode(Encode(h)) == h
  {
  }

  /** A well-formed message whose flag words are 0 or 1 is the encoding of
      its decoding. */
  lemma EncodeDecode(msg: seq<int>)
    requires WellFormedMessage(msg)
    requires forall k :: 3 <= k < 6 ==> msg[k] == 0 || msg[k] == 1
    ensures Encode(Decode(msg)) == msg
  {
    assert msg[3] == 0 || msg[3] == 1;
    assert msg[4] == 0 || msg[4] == 1;
    assert msg[5] == 0 || msg[5] == 1;
  }

  /** The shift of an axis (`SetShifts`): `Shift(rank, align, stride)` on a
      participating process, 0 elsewhere. */
  function AxisShift(participating: bool, rank: nat, align: int, stride: nat): (r: nat)
    requires stride > 0
    ensures r < stride
  {
    if participating then Shift(rank, align, stride) else 0
  }

  /** The debug checks of `Resize`, on the state before it: a locked view
      cannot be resized at all (`AssertNotLocked`), a view cannot grow. */
  function ResizeCheck(v: ViewType, oldHeight: nat, oldWidth: nat, height: nat, width: nat): (r: Outcome)
    ensures r.Pass? <==> v != LockedView && !(v == View && (height > oldHeight || width > oldWidth))
  {
    if v == LockedView then Fail(LogicError("Assertion that matrix not be a locked view failed"))
    else if IsView(v) && (height > oldHeight || width > oldWidth) then
      Fail(LogicError("Tried to increase the size of a view"))
    else Pass
  }

  /** `(i + align) % stride` with C++'s remainder. */
  function OwnerOf(i: int, align: int, stride: nat): int
    requires stride > 0
  {
    CppRem(i + align, stride)
  }

  /** `shift + iLoc*stride`. */
  function GlobalIndex(shift: int, iLoc: int, stride: nat): int
  {
    shift + iLoc * stride
  }

  /** `END` resolves to `n - 1`, which is -1 when `n` is 0. */
  function Resolve(i: Index, n: nat): int
  {
    match i
    case At(k) => k
    case End => n - 1
  }

  /** An owner of an index in range is a rank along the axis. */
  lemma OwnerInRange(i: int, align: int, stride: nat)
    requires stride > 0 && i >= 0 && align >= 0
    ensures 0 <= OwnerOf(i, align, stride) < stride
    ensures OwnerOf(i, align, stride) == (i + align) % stride
  {
    CppRemNonNegative(i + align, stride);
  }

  /** `END` of an empty axis with alignment 0 is -1, and its owner is then
      -1 on any stride above 1: C++'s remainder of a negative number. */
  lemma OwnerOfEndOfEmptyAxis(stride: nat)
    requires stride > 1
    ensures Resolve(End, 0) == -1 && OwnerOf(Resolve(End, 0), 0, stride) == -1
  {
  }

  /** Every global index a process stores is owned by that process: the
      owner of `GlobalIndex(shift, iLoc, stride)` is the rank the shift was
      computed for. */
  lemma {:induction false} OwnerOfGlobalIndex(rank: nat, align: int, stride: nat, iLoc: nat)
    requires stride > 0 && rank < stride && align >= 0
    ensures OwnerOf(GlobalIndex(Shift(rank, align, stride), iLoc, stride), align, stride) == rank
  {
    var s := Shift(rank, align, stride);
    ShiftIsOwnedByRank(rank, align, stride);
    var q := (s + align) / stride;
    assert s + align == q * stride + rank;
    assert s + iLoc * stride + align == (q + iLoc) * stride + rank;
    DivModUnique(s + iLoc * stride + align, q + iLoc, rank, stride);
    CppRemNonNegative(s + iLoc * stride + align, stride);
  }

  /** The shift of a rank owns that rank: `OwnerOf` undoes `Shift`. */
  lemma OwnerOfShift(rank: nat, align: int, stride: nat)
    requires rank < stride && align >= 0
    ensures OwnerOf(Shift(rank, align, stride), align, stride) == rank
  {
    ShiftIsOwnedByRank(rank, align, stride);
    CppRemNonNegative(Shift(rank, align, stride) + align, stride);
  }

  /** And `Shift` undoes `OwnerOf`: the owner of an index below the stride
      has that index as its shift. */
  lemma ShiftOfOwner(i: nat, align: int, stride: nat)
    requires i < stride && align >= 0
    ensures Shift(OwnerOf(i, align, stride), align, stride) == i
  {
    CppRemNonNegative(i + align, stride);
    var q := (i + align) / stride;
    var o := (i + align) % stride;
    assert i + align == q * stride + o;
    assert o - align == -q * stride + i;
    DivModUnique(o - align, -q, i, stride);
  }

  /** The global indices of the locally stored entries are exactly the
      indices below `n` that the shift and stride select. */
  lemma GlobalIndexInRange(n: nat, shift: nat, stride: nat, iLoc: nat)
    requires shift < stride
    ensures iLoc < Length(n, shift, stride) <==> GlobalIndex(shift, iLoc, stride) < n
  {
    LengthCountsLocalIndices(n, shift, stride, iLoc);
  }

  /** The distributed matrix's metadata on one process. */
  class DistMeta {
    var grid: GridView
    var viewType: ViewType
    var height: nat
    var width: nat
    var colConstrained: bool
    var rowConstrained: bool
    var rootConstrained: bool
    var colAlign: int
    var rowAlign: int
    var colShift: int
    var rowShift: int
    var root: int
    var localHeight: nat
    var localWidth: nat

    /** `Participating()`: in the grid and in the root's cross group. */
    predicate Participating()
      reads this
    {
      grid.inGrid && grid.crossRank == root
    }

    /** The shifts agree with the alignments, and on a participating
        process the local size is the one the distribution gives. */
    ghost predicate Valid()
      reads this
    {
      && grid.Wf()
      && colShift == AxisShift(Participating(), grid.colRank, colAlign, grid.colStride)
      && rowShift == AxisShift(Participating(), grid.rowRank, rowAlign, grid.rowStride)
      && (Participating() ==>
            && localHeight == Length(height, colShift, grid.colStride)
            && localWidth == Length(width, rowShift, grid.rowStride))
    }

    function GetHeader(): Header
      reads this
    {
      Header(viewType, height, width, colConstrained, rowConstrained, rootConstrained,
             colAlign, rowAlign, root)
    }

    function GetState(): State
      reads this
    {
      State(grid, GetHeader(), colShift, rowShift, localHeight, localWidth)
    }

    constructor (g: GridView, r: int)
      requires g.Wf()
      ensures Valid() && grid == g && root == r
      ensures viewType == Owner && height == 0 && width == 0
      ensures !colConstrained && !rowConstrained && !rootConstrained
      ensures colAlign == 0 && rowAlign == 0
    {
      grid, root := g, r;
      viewType, height, width := Owner, 0, 0;
      colConstrained, rowConstrained, rootConstrained := false, false, false;
      colAlign, rowAlign := 0, 0;
      localHeight, localWidth := 0, 0;
      colShift := AxisShift(g.inGrid && g.crossRank == r, g.colRank, 0, g.colStride);
      rowShift := AxisShift(g.inGrid && g.crossRank == r, g.rowRank, 0, g.rowStride);
    }

    /** `SetShifts`. */
    method SetShifts()
      requires grid.Wf()
      modifies this
      ensures GetHeader() == old(GetHeader()) && grid == old(grid)
      ensures localHeight == old(localHeight) && localWidth == old(localWidth)
      ensures colShift == AxisShift(Participating(), grid.colRank, colAlign, grid.colStride)
      ensures rowShift == AxisShift(Participating(), grid.rowRank, rowAlign, grid.rowStride)
    {
      colShift := AxisShift(Participating(), grid.colRank, colAlign, grid.colStride);
      rowShift := AxisShift(Participating(), grid.rowRank, rowAlign, grid.rowStride);
    }

    /** `Empty`: no entries, an owner again, alignments and constraints
        reset. */
    method Empty()
      requires grid.Wf()
      modifies this
      ensures Valid() && grid == old(grid) && root == old(root)
      ensures viewType == Owner && height == 0 && width == 0 && localHeight == 0 && localWidth == 0
      ensures colAlign == 0 && rowAlign == 0
      ensures !colConstrained && !rowConstrained && !rootConstrained
    {
      localHeight, localWidth := 0, 0;
      viewType, height, width := Owner, 0, 0;
      colAlign, rowAlign := 0, 0;
      colConstrained, rowConstrained, rootConstrained := false, false, false;
      SetShifts();
    }

    /** `EmptyData`: no entries and an owner again; the alignments and
        constraints are kept. */
    method EmptyData()
      requires Valid()
      modifies this
      ensures Valid() && grid == old(grid) && root == old(root)
      ensures viewType == Owner && height == 0 && width == 0 && localHeight == 0 && localWidth == 0
      ensures colAlign == old(colAlign) && rowAlign == old(rowAlign)
      ensures colConstrained == old(colConstrained) && rowConstrained == old(rowConstrained)
      ensures rootConstrained == old(rootConstrained)
      ensures colShift == old(colShift) && rowShift == old(rowShift)
    {
      localHeight, localWidth := 0, 0;
      viewType, height, width := Owner, 0, 0;
    }

    /** `Resize(height, width)`: after the debug checks, the global size is
        set and a participating process resizes its local matrix to the
        size its shifts select. */
    method Resize(h: nat, w: nat) returns (out: Outcome)
      requires grid.Wf()
      requires colShift == AxisShift(Participating(), grid.colRank, colAlign, grid.colStride)
      requires rowShift == AxisShift(Participating(), grid.rowRank, rowAlign, grid.rowStride)
      modifies this
      ensures out == ResizeCheck(old(viewType), old(height), old(width), h, w)
      ensures out.Fail? ==> GetState() == old(GetState())
      ensures out.Pass? ==> Valid() && height == h && width == w
      ensures out.Pass? ==> grid == old(grid) && viewType == old(viewType) && root == old(root)
      ensures out.Pass? ==> colAlign == old(colAlign) && rowAlign == old(rowAlign)
      ensures out.Pass? ==> colConstrained == old(colConstrained) && rowConstrained == old(rowConstrained)
      ensures out.Pass? ==> rootConstrained == old(rootConstrained)
      ensures out.Pass? ==> colShift == old(colShift) && rowShift == old(rowShift)
      ensures out.Pass? && !Participating() ==> localHeight == old(localHeight) && localWidth == old(localWidth)
    {
      out := ResizeCheck(viewType, height, width, h, w);
      if out.Fail? {
        return;
      }
      height, width := h, w;
      if Participating() {
        localHeight := Length(h, colShift, grid.colStride);
        localWidth := Length(w, rowShift, grid.rowStride);
      }
    }

    /** `MakeConsistent(includingViewers)`: the root's header travels in
        the 9-word message; every process adopts the delivered one.  The
        broadcasts are not part of this model: `delivered` is what they
        leave in the buffer, and `sent` is what this process put there
        (its own header at the root of the cross communicator). */
    method MakeConsistent(includingViewers: bool, delivered: seq<int>) returns (out: Outcome, sent: seq<int>)
      requires Valid() && WellFormedMessage(delivered)
      modifies this
      ensures sent == if old(grid.crossRank == root) then Encode(old(GetHeader())) else []
      ensures !grid.inGrid && !includingViewers ==>
                out == Fail(LogicError("Non-participating process called MakeConsistent"))
                && GetState() == old(GetState())
      ensures (grid.inGrid || includingViewers) ==>
                out == ResizeCheck(Decode(delivered).viewType, old(height), old(width),
                                   Decode(delivered).height, Decode(delivered).width)
      ensures out.Pass? ==> Valid() && GetHeader() == Decode(delivered) && grid == old(grid)
    {
      sent := if grid.crossRank == root then Encode(GetHeader()) else [];
      if !grid.inGrid && !includingViewers {
        out := Fail(LogicError("Non-participating process called MakeConsistent"));
        return;
      }
      var hd := Decode(delivered);
      root := hd.root;
      viewType := hd.viewType;
      colConstrained, rowConstrained, rootConstrained := hd.colConstrained, hd.rowConstrained, hd.rootConstrained;
      colAlign, rowAlign := hd.colAlign, hd.rowAlign;
      SetShifts();
      assert GetHeader() == hd.(height := old(height), width := old(width));
      out := Resize(hd.height, hd.width);
      assert out.Pass? ==> GetHeader() == hd;
    }

    /** `Align(colAlign, rowAlign, constrain)`: a change of either
        alignment empties the matrix first; a view cannot be realigned. */
    method Align(ca: int, ra: int, constrain: bool) returns (out: Outcome)
      requires Valid()
      modifies this
      ensures var change := old(colAlign) != ca || old(rowAlign) != ra;
        && (out.Fail? <==> IsView(old(viewType)) && change)
        && (out.Fail? ==> out.error == LogicError("Tried to realign a view") && GetState() == old(GetState()))
        && (out.Pass? ==> Valid() && colAlign == ca && rowAlign == ra && grid == old(grid) && root == old(root))
        && (out.Pass? && change ==> viewType == Owner && height == 0 && width == 0
                                    && localHeight == 0 && localWidth == 0)
        && (out.Pass? && !change ==> viewType == old(viewType) && height == old(height) && width == old(width)
                                     && localHeight == old(localHeight) && localWidth == old(localWidth))
        && (out.Pass? && constrain ==> colConstrained && rowConstrained)
        && (out.Pass? && !constrain && !change ==>
              colConstrained == old(colConstrained) && rowConstrained == old(rowConstrained))
        && (out.Pass? && !constrain && change ==> !colConstrained && !rowConstrained)
        && (out.Pass? ==> rootConstrained == (old(rootConstrained) && !change))
    {
      var requireChange := colAlign != ca || rowAlign != ra;
      if IsView(viewType) && requireChange {
        return Fail(LogicError("Tried to realign a view"));
      }
      if requireChange {
        Empty();
      }
      if constrain {
        colConstrained, rowConstrained := true, true;
      }
      colAlign, rowAlign := ca, ra;
      SetShifts();
      out := Pass;
    }

    /** `AlignCols(colAlign, constrain)`: only the column axis moves; a
        change empties the data but keeps the other alignment. */
    method AlignCols(ca: int, constrain: bool) returns (out: Outcome)
      requires Valid()
      modifies this
      ensures var change := old(colAlign) != ca;
        && (out.Fail? <==> IsView(old(viewType)) && change)
        && (out.Fail? ==> out.error == LogicError("Tried to realign a view") && GetState() == old(GetState()))
        && (out.Pass? ==> Valid() && colAlign == ca && rowAlign == old(rowAlign) && grid == old(grid))
        && (out.Pass? ==> root == old(root) && rowConstrained == old(rowConstrained)
                          && rootConstrained == old(rootConstrained))
        && (out.Pass? ==> colConstrained == (constrain || old(colConstrained)))
        && (out.Pass? && change ==> viewType == Owner && height == 0 && width == 0
                                    && localHeight == 0 && localWidth == 0)
        && (out.Pass? && !change ==> GetState() == old(GetState()).(header := old(GetHeader()).(colConstrained := colConstrained)))
    {
      if IsView(viewType) && colAlign != ca {
        return Fail(LogicError("Tried to realign a view"));
      }
      if colAlign != ca {
        EmptyData();
      }
      if constrain {
        colConstrained := true;
      }
      colAlign := ca;
      SetShifts();
      out := Pass;
    }

    /** `AlignRows(rowAlign, constrain)`, the row counterpart. */
    method AlignRows(ra: int, constrain: bool) returns (out: Outcome)
      requires Valid()
      modifies this
      ensures var change := old(rowAlign) != ra;
        && (out.Fail? <==> IsView(old(viewType)) && change)
        && (out.Fail? ==> out.error == LogicError("Tried to realign a view") && GetState() == old(GetState()))
        && (out.Pass? ==> Valid() && rowAlign == ra && colAlign == old(colAlign) && grid == old(grid))
        && (out.Pass? ==> root == old(root) && colConstrained == old(colConstrained)
                          && rootConstrained == old(rootConstrained))
        && (out.Pass? ==> rowConstrained == (constrain || old(rowConstrained)))
        && (out.Pass? && change ==> viewType == Owner && height == 0 && width == 0
                                    && localHeight == 0 && localWidth == 0)
        && (out.Pass? && !change ==> GetState() == old(GetState()).(header := old(GetHeader()).(rowConstrained := rowConstrained)))
    {
      if IsView(viewType) && rowAlign != ra {
        return Fail(LogicError("Tried to realign a view"));
      }
      if rowAlign != ra {
        EmptyData();
      }
      if constrain {
        rowConstrained := true;
      }
      rowAlign := ra;
      SetShifts();
      out := Pass;
    }

    /** `FreeAlignments`: clears the three constraints of an owner. */
    method FreeAlignments() returns (out: Outcome)
      modifies this
      ensures out.Fail? <==> IsView(viewType)
      ensures out.Fail? ==> out == Fail(LogicError("Cannot free alignments of views")) && GetState() == old(GetState())
      ensures out.Pass? ==> GetState() == old(GetState()).(header := old(GetHeader()).(
                colConstrained := false, rowConstrained := false, rootConstrained := false))
    {
      if !IsView(viewType) {
        colConstrained, rowConstrained, rootConstrained := false, false, false;
        out := Pass;
      } else {
        out := Fail(LogicError("Cannot free alignments of views"));
      }
    }

    /** The alignment an axis ends up with: an owner adopts the requested
        one when it is forced or the axis is not constrained. */
    static function AdoptedAlign(v: ViewType, force: bool, constrained: bool, requested: int, current: int): int
    {
      if !IsView(v) && (force || !constrained) then requested else current
    }

    /** `AlignAndResize(colAlign, rowAlign, height, width, force,
        constrain)`: an owner adopts each alignment that is forced or not
        constrained; constraining happens either way; a forced alignment
        that did not take is an error, raised before the resize.  The
        source recomputes each adopted axis's shift right after setting its
        alignment; recomputing both shifts once gives the same state. */
    method AlignAndResize(ca: int, ra: int, h: nat, w: nat, force: bool, constrain: bool) returns (out: Outcome)
      requires Valid()
      modifies this
      ensures colAlign == AdoptedAlign(old(viewType), force, old(colConstrained), ca, old(colAlign))
      ensures rowAlign == AdoptedAlign(old(viewType), force, old(rowConstrained), ra, old(rowAlign))
      ensures colConstrained == (constrain || old(colConstrained))
      ensures rowConstrained == (constrain || old(rowConstrained))
      ensures grid == old(grid) && root == old(root) && viewType == old(viewType)
      ensures force && (colAlign != ca || rowAlign != ra) ==>
                out == Fail(LogicError("Could not set alignments")) && IsView(old(viewType)) && Valid()
      ensures !(force && (colAlign != ca || rowAlign != ra)) ==>
                out == ResizeCheck(old(viewType), old(height), old(width), h, w)
      ensures out.Pass? ==> Valid() && height == h && width == w
      ensures out.Fail? ==> height == old(height) && width == old(width)
                            && localHeight == old(localHeight) && localWidth == old(localWidth)
    {
      if !IsView(viewType) {
        colAlign := AdoptedAlign(viewType, force, colConstrained, ca, colAlign);
        rowAlign := AdoptedAlign(viewType, force, rowConstrained, ra, rowAlign);
        SetShifts();
      }
      if constrain {
        colConstrained, rowConstrained := true, true;
      }
      if force && (colAlign != ca || rowAlign != ra) {
        return Fail(LogicError("Could not set alignments"));
      }
      out := Resize(h, w);
    }

    /** `AlignColsAndResize`. */
    method AlignColsAndResize(ca: int, h: nat, w: nat, force: bool, constrain: bool) returns (out: Outcome)
      requires Valid()
      modifies this
      ensures var newCol := if !IsView(old(viewType)) && (force || !old(colConstrained)) then ca else old(colAlign);
        && colAlign == newCol && rowAlign == old(rowAlign)
        && colConstrained == (constrain || old(colConstrained)) && rowConstrained == old(rowConstrained)
        && grid == old(grid) && root == old(root) && viewType == old(viewType)
        && (force && newCol != ca ==>
              out == Fail(LogicError("Could not set col alignment")) && IsView(old(viewType)) && Valid())
        && (!(force && newCol != ca) ==> out == ResizeCheck(old(viewType), old(height), old(width), h, w))
        && (out.Pass? ==> Valid() && height == h && width == w)
        && (out.Fail? ==> height == old(height) && width == old(width)
                          && localHeight == old(localHeight) && localWidth == old(localWidth))
    {
      if !IsView(viewType) && (force || !colConstrained) {
        colAlign := ca;
        SetShifts();
      }
      if constrain {
        colConstrained := true;
      }
      if force && colAlign != ca {
        return Fail(LogicError("Could not set col alignment"));
      }
      out := Resize(h, w);
    }

    /** `AlignRowsAndResize`. */
    method AlignRowsAndResize(ra: int, h: nat, w: nat, force: bool, constrain: bool) returns (out: Outcome)
      requires Valid()
      modifies this
      ensures var newRow := if !IsView(old(viewType)) && (force || !old(rowConstrained)) then ra else old(rowAlign);
        && rowAlign == newRow && colAlign == old(colAlign)
        && rowConstrained == (constrain || old(rowConstrained)) && colConstrained == old(colConstrained)
        && grid == old(grid) && root == old(root) && viewType == old(viewType)
        && (force && newRow != ra ==>
              out == Fail(LogicError("Could not set row alignment")) && IsView(old(viewType)) && Valid())
        && (!(force && newRow != ra) ==> out == ResizeCheck(old(viewType), old(height), old(width), h, w))
        && (out.Pass? ==> Valid() && height == h && width == w)
        && (out.Fail? ==> height == old(height) && width == old(width)
                          && localHeight == old(localHeight) && localWidth == old(localWidth))
    {
      if !IsView(viewType) && (force || !rowConstrained) {
        rowAlign := ra;
        SetShifts();
      }
      if constrain {
        rowConstrained := true;
      }
      if force && rowAlign != ra {
        return Fail(LogicError("Could not set row alignment"));
      }
      out := Resize(h, w);
    }

    /** The body shared by `Attach` and `LockedAttach`: the matrix becomes
        a view of kind `v` of an `h` by `w` matrix on grid `g`, with every
        constraint set.  The attached buffer is not modelled. */
    method AttachAs(v: ViewType, h: nat, w: nat, g: GridView, ca: int, ra: int, r: int)
      requires grid.Wf() && g.Wf()
      modifies this
      ensures Valid() && grid == g
      ensures GetHeader() == Header(v, h, w, true, true, true, ca, ra, r)
    {
      Empty();
      grid, root := g, r;
      height, width := h, w;
      colAlign, rowAlign := ca, ra;
      colConstrained, rowConstrained, rootConstrained := true, true, true;
      viewType := v;
      SetShifts();
      if Participating() {
        localHeight := Length(h, colShift, grid.colStride);
        localWidth := Length(w, rowShift, grid.rowStride);
      }
    }

    /** `Attach(height, width, grid, colAlign, rowAlign, buffer, ldim,
        root)`. */
    method Attach(h: nat, w: nat, g: GridView, ca: int, ra: int, r: int)
      requires grid.Wf() && g.Wf()
      modifies this
      ensures Valid() && grid == g
      ensures GetHeader() == Header(View, h, w, true, true, true, ca, ra, r)
    {
      AttachAs(View, h, w, g, ca, ra, r);
    }

    /** `LockedAttach(height, width, grid, colAlign, rowAlign, buffer,
        ldim, root)`. */
    method LockedAttach(h: nat, w: nat, g: GridView, ca: int, ra: int, r: int)
      requires grid.Wf() && g.Wf()
      modifies this
      ensures Valid() && grid == g
      ensures GetHeader() == Header(LockedView, h, w, true, true, true, ca, ra, r)
    {
      AttachAs(LockedView, h, w, g, ca, ra, r);
    }

    /** `Attach(grid, A)` and `LockedAttach(grid, A)`: a whole local matrix
        of size `h` by `w`, aligned at 0 with root 0, on a grid of one
        process only. */
    method AttachLocal(locked: bool, g: GridView, h: nat, w: nat) returns (out: Outcome)
      requires grid.Wf() && g.Wf()
      modifies this
      ensures out.Fail? <==> g.size != 1
      ensures out.Fail? ==> out == Fail(LogicError("Assumed a grid size of one")) && GetState() == old(GetState())
      ensures out.Pass? ==> Valid() && grid == g
      ensures out.Pass? ==> GetHeader() == Header(if locked then LockedView else View, h, w, true, true, true, 0, 0, 0)
    {
      if g.size != 1 {
        return Fail(LogicError("Assumed a grid size of one"));
      }
      AttachAs(if locked then LockedView else View, h, w, g, 0, 0, 0);
      out := Pass;
    }

    /** Move assignment `*this = std::move(A)`: when either side is a view
        the entries are copied (`Copy(A, *this)`, whose effect on the
        metadata is not part of this model); otherwise the local matrices
        are swapped and every other field of `A` is taken over. */
    method MoveAssign(A: DistMeta) returns (copied: bool)
      requires A != this
      modifies this, A
      ensures copied <==> IsView(old(viewType)) || IsView(old(A.viewType))
      ensures copied ==> A.GetState() == old(A.GetState())
      ensures !copied ==> GetState() == old(A.GetState())
      ensures !copied ==> A.GetState() == old(A.GetState()).(localHeight := old(localHeight), localWidth := old(localWidth))
    {
      if IsView(viewType) || IsView(A.viewType) {
        return true;
      }
      localHeight, A.localHeight := A.localHeight, localHeight;
      localWidth, A.localWidth := A.localWidth, localWidth;
      viewType, height, width := A.viewType, A.height, A.width;
      colConstrained, rowConstrained, rootConstrained := A.colConstrained, A.rowConstrained, A.rootConstrained;
      colAlign, rowAlign, colShift, rowShift := A.colAlign, A.rowAlign, A.colShift, A.rowShift;
      root, grid := A.root, A.grid;
      copied := false;
    }

    /** `ShallowSwap(A)`: every field, the local matrix included, trades
        places; doing it twice restores both matrices. */
    method ShallowSwap(A: DistMeta)
      requires A != this
      modifies this, A
      ensures GetState() == old(A.GetState()) && A.GetState() == old(GetState())
    {
      var mine, theirs := GetState(), A.GetState();
      SetState(theirs);
      A.SetState(mine);
    }

    /** Every field at once, from a snapshot. */
    method SetState(s: State)
      modifies this
      ensures GetState() == s
    {
      grid, colShift, rowShift, localHeight, localWidth := s.grid, s.colShift, s.rowShift, s.localHeight, s.localWidth;
      viewType, height, width := s.header.viewType, s.header.height, s.header.width;
      colConstrained, rowConstrained, rootConstrained :=
        s.header.colConstrained, s.header.rowConstrained, s.header.rootConstrained;
      colAlign, rowAlign, root := s.header.colAlign, s.header.rowAlign, s.header.root;
    }

    /** `RowOwner(i)`. */
    function RowOwner(i: Index): int
      reads this
      requires grid.colStride > 0
    {
      OwnerOf(Resolve(i, height), colAlign, grid.colStride)
    }

    /** `ColOwner(j)`. */
    function ColOwner(j: Index): int
      reads this
      requires grid.rowStride > 0
    {
      OwnerOf(Resolve(j, width), rowAlign, grid.rowStride)
    }

    /** `GlobalRow(iLoc)`. */
    function GlobalRow(iLoc: Index): int
      reads this
    {
      GlobalIndex(colShift, Resolve(iLoc, localHeight), grid.colStride)
    }

    /** `GlobalCol(jLoc)`. */
    function GlobalCol(jLoc: Index): int
      reads this
    {
      GlobalIndex(rowShift, Resolve(jLoc, localWidth), grid.rowStride)
    }
    /** `LocalRowOffset(i)`: how many of this process's rows lie above
        global row `i`. */
    function LocalRowOffset(i: Index): nat
      reads this
      requires 0 <= colShift < grid.colStride
    {
      Length(Resolve(i, height), colShift, grid.colStride)
    }

    /** `LocalColOffset(j)`. */
    function LocalColOffset(j: Index): nat
      reads this
      requires 0 <= rowShift < grid.rowStride
    {
      Length(Resolve(j, width), rowShift, grid.rowStride)
    }
  }

  /** The local offset of a global index is the position among the local
      indices: it undoes `GlobalIndex`. */
  lemma {:induction false} LocalOffsetOfGlobalIndex(shift: nat, stride: nat, iLoc: nat)
    requires shift < stride
    ensures Length(GlobalIndex(shift, iLoc, stride), shift, stride) == iLoc
  {
    var n := GlobalIndex(shift, iLoc, stride);
    var l := Length(n, shift, stride);
    LengthCountsLocalIndices(n, shift, stride, iLoc);
    if l < iLoc {
      LengthCountsLocalIndices(n, shift, stride, l);
      assert iLoc * stride == l * stride + (iLoc - l) * stride;
      MulMono(1, iLoc - l, stride);
      assert false;
    }
  }

  /** The same for a matrix: the local row offset of the global row of
      local row `iLoc` is `iLoc`. */
  lemma LocalRowOffsetOfGlobalRow(A: DistMeta, iLoc: nat)
    requires A.Valid()
    ensures A.GlobalRow(At(iLoc)) >= 0 && A.LocalRowOffset(At(A.GlobalRow(At(iLoc)))) == iLoc
  {
    LocalOffsetOfGlobalIndex(A.colShift, A.grid.colStride, iLoc);
  }

  /** On a participating process every locally stored row is a row of the
      matrix, owned by this process's column rank; likewise for columns. */
  lemma LocalEntriesAreOwned(A: DistMeta, iLoc: nat, jLoc: nat)
    requires A.Valid() && A.Participating() && A.colAlign >= 0 && A.rowAlign >= 0
    requires iLoc < A.localHeight && jLoc < A.localWidth
    ensures 0 <= A.GlobalRow(At(iLoc)) < A.height && 0 <= A.GlobalCol(At(jLoc)) < A.width
    ensures A.RowOwner(At(A.GlobalRow(At(iLoc)))) == A.grid.colRank
    ensures A.ColOwner(At(A.GlobalCol(At(jLoc)))) == A.grid.rowRank
  {
    GlobalIndexInRange(A.height, A.colShift, A.grid.colStride, iLoc);
    GlobalIndexInRange(A.width, A.rowShift, A.grid.rowStride, jLoc);
    OwnerOfGlobalIndex(A.grid.colRank, A.colAlign, A.grid.colStride, iLoc);
    OwnerOfGlobalIndex(A.grid.rowRank, A.rowAlign, A.grid.rowStride, jLoc);
  }

  /** The size record `AssertConforming*` look at. */
  datatype Dims = Dims(height: nat, width: nat, colAlign: int, rowAlign: int)

  /** `AssertConforming1x2(AL, AR)`: side by side, equal heights and
      column alignments. */
  function AssertConforming1x2(l: Dims, r: Dims): (out: Outcome)
    ensures out.Pass? <==> l.height == r.height && l.colAlign == r.colAlign
  {
    if l.height != r.height then Fail(LogicError("1x2 not conformant"))
    else if l.colAlign != r.colAlign then Fail(LogicError("1x2 is misaligned"))
    else Pass
  }

  /** `AssertConforming2x1(AT, AB)`: stacked, equal widths and row
      alignments. */
  function AssertConforming2x1(t: Dims, b: Dims): (out: Outcome)
    ensures out.Pass? <==> t.width == b.width && t.rowAlign == b.rowAlign
  {
    if t.width != b.width then Fail(LogicError("2x1 is not conformant"))
    else if t.rowAlign != b.rowAlign then Fail(LogicError("2x1 is not aligned"))
    else Pass
  }

  /** `AssertConforming2x2`: the four blocks of a 2 by 2 partition. */
  function AssertConforming2x2(tl: Dims, tr: Dims, bl: Dims, br: Dims): (out: Outcome)
  {
    if tl.width != bl.width || tr.width != br.width || tl.height != tr.height || bl.height != br.height then
      Fail(LogicError("2x2 is not conformant"))
    else if tl.colAlign != tr.colAlign || bl.colAlign != br.colAlign
         || tl.rowAlign != bl.rowAlign || tr.rowAlign != br.rowAlign then
      Fail(LogicError("2x2 set of matrices must aligned to combine"))
    else Pass
  }

  /** A 2 by 2 partition conforms exactly when both of its rows conform
      side by side and both of its columns conform stacked. */
  lemma Conforming2x2IsRowsAndColumns(tl: Dims, tr: Dims, bl: Dims, br: Dims)
    ensures AssertConforming2x2(tl, tr, bl, br).Pass? <==>
      && AssertConforming1x2(tl, tr).Pass? && AssertConforming1x2(bl, br).Pass?
      && AssertConforming2x1(tl, bl).Pass? && AssertConforming2x1(tr, br).Pass?
    ensures AssertConforming2x2(tl, tr, bl, br) == Fail(LogicError("2x2 is not conformant")) <==>
      tl.width != bl.width || tr.width != br.width || tl.height != tr.height || bl.height != br.height
  {
  }

  /** `DiagonalRoot` and `DiagonalAlign` end either in a value of their
      own or in the grid's diagonal-path query (`Grid::Diag` for the root,
      `Grid::DiagRank` for the alignment) applied to the VC rank that owns
      the diagonal's first entry; the grid queries are not part of this
      model. */
  datatype DiagValue = OfOwner(vcRank: int) | Plain(v: int)

  /** The global row and column of the first entry of the diagonal with
      the given offset. */
  function FirstDiagonalRow(offset: int): nat
  {
    if offset >= 0 then 0 else -offset
  }

  function FirstDiagonalCol(offset: int): nat
  {
    if offset >= 0 then offset else 0
  }

  /** The process row and column a [MC,MR] or [MR,MC] matrix stores the
      diagonal's first entry on.  In [MC,MR] rows follow process rows; in
      [MR,MC] they follow process columns. */
  function DiagonalProcRow(colDist: Dist, colAlign: int, rowAlign: int, colStride: nat, rowStride: nat, offset: int): int
    requires colStride > 0 && rowStride > 0
  {
    if colDist == MC then
      if offset >= 0 then colAlign else OwnerOf(-offset, colAlign, colStride)
    else
      if offset >= 0 then OwnerOf(offset, rowAlign, rowStride) else rowAlign
  }

  function DiagonalProcCol(colDist: Dist, colAlign: int, rowAlign: int, colStride: nat, rowStride: nat, offset: int): int
    requires colStride > 0 && rowStride > 0
  {
    if colDist == MC then
      if offset >= 0 then OwnerOf(offset, rowAlign, rowStride) else rowAlign
    else
      if offset >= 0 then colAlign else OwnerOf(-offset, colAlign, colStride)
  }

  /** The owner as `DiagonalRoot` and `DiagonalAlign` compute it for
      [MR,MC]: `procRow + ColStride*procCol`.  `ColStride` is the MR size,
      i.e. the grid width. */
  function DiagonalOwnerAsWritten(colDist: Dist, colAlign: int, rowAlign: int, colStride: nat, rowStride: nat, offset: int): int
    requires colStride > 0 && rowStride > 0
  {
    DiagonalProcRow(colDist, colAlign, rowAlign, colStride, rowStride, offset)
    + colStride * DiagonalProcCol(colDist, colAlign, rowAlign, colStride, rowStride, offset)
  }

  /** The VC (column-major) rank of the owning process: the process row
      plus the grid height times the process column.  The grid height is
      `ColStride` for [MC,MR] and `RowStride` for [MR,MC]. */
  function DiagonalOwner(colDist: Dist, colAlign: int, rowAlign: int, colStride: nat, rowStride: nat, offset: int): int
    requires colStride > 0 && rowStride > 0
  {
    var gridHeight := if colDist == MC then colStride else rowStride;
    DiagonalProcRow(colDist, colAlign, rowAlign, colStride, rowStride, offset)
    + gridHeight * DiagonalProcCol(colDist, colAlign, rowAlign, colStride, rowStride, offset)
  }

  /** For [MR,MC] on any grid wider than it is tall (MR size `c` above MC
      size `r`), with column alignment `c - 1`, row alignment 0 and offset
      0, the main diagonal starts on process row 0, process column `c - 1`:
      VC rank `r*(c - 1)`.  The formula as written gives `c*(c - 1)`, not a
      rank of the grid; the smallest instance is the 1 by 2 grid, where it
      gives 2. */
  lemma DiagonalOwnerAsWrittenOutOfRange(c: nat, r: nat)
    requires 0 < r < c
    ensures DiagonalProcRow(MR, c - 1, 0, c, r, 0) == 0 && DiagonalProcCol(MR, c - 1, 0, c, r, 0) == c - 1
    ensures DiagonalOwner(MR, c - 1, 0, c, r, 0) == r * (c - 1) < r * c
    ensures DiagonalOwnerAsWritten(MR, c - 1, 0, c, r, 0) == c * (c - 1) >= r * c
  {
    CppRemNonNegative(0, r);
    assert OwnerOf(0, 0, r) == 0;
    MulMono(r, c - 1, c);
    assert r * (c - 1) == r * c - r;
  }

  /** A process row below the grid height and a process column below the
      grid width make a VC rank of the grid, from which they are read back
      by division. */
  lemma VcRank(pr: int, pc: int, gridHeight: nat, gridWidth: nat)
    requires 0 <= pr < gridHeight && 0 <= pc < gridWidth
    ensures 0 <= pr + gridHeight * pc < gridHeight * gridWidth
    ensures (pr + gridHeight * pc) % gridHeight == pr && (pr + gridHeight * pc) / gridHeight == pc
  {
    var owner := pr + gridHeight * pc;
    assert owner == pc * gridHeight + pr;
    DivModUnique(owner, pc, pr, gridHeight);
    MulMono(pc, gridWidth - 1, gridHeight);
    assert (gridWidth - 1) * gridHeight == gridHeight * gridWidth - gridHeight;
  }

  /** The process row and column of the diagonal's first entry are the
      owners of that entry's row and column, so ranks along the grid's two
      axes. */
  lemma DiagonalProcIsFirstOwner(colDist: Dist, colAlign: int, rowAlign: int,
                                 colStride: nat, rowStride: nat, offset: int)
    requires colStride > 0 && rowStride > 0
    requires 0 <= colAlign < colStride && 0 <= rowAlign < rowStride
    ensures var pr := DiagonalProcRow(colDist, colAlign, rowAlign, colStride, rowStride, offset);
      var pc := DiagonalProcCol(colDist, colAlign, rowAlign, colStride, rowStride, offset);
      && (colDist == MC ==> pr == OwnerOf(FirstDiagonalRow(offset), colAlign, colStride)
                            && pc == OwnerOf(FirstDiagonalCol(offset), rowAlign, rowStride))
      && (colDist != MC ==> pc == OwnerOf(FirstDiagonalRow(offset), colAlign, colStride)
                            && pr == OwnerOf(FirstDiagonalCol(offset), rowAlign, rowStride))
  {
    OwnerInRange(0, colAlign, colStride);
    OwnerInRange(0, rowAlign, rowStride);
    DivModUnique(colAlign, 0, colAlign, colStride);
    DivModUnique(rowAlign, 0, rowAlign, rowStride);
  }

  /** With alignments inside the grid, the corrected owner is the VC rank
      of the process holding the diagonal's first entry: dividing it by the
      grid height gives back the process row and column, which are the
      owners of that entry's row and column. */
  lemma DiagonalOwnerIsVcRank(colDist: Dist, colAlign: int, rowAlign: int,
                              colStride: nat, rowStride: nat, offset: int)
    requires colDist == MC || colDist == MR
    requires colStride > 0 && rowStride > 0
    requires 0 <= colAlign < colStride && 0 <= rowAlign < rowStride
    ensures var gridHeight := if colDist == MC then colStride else rowStride;
      var owner := DiagonalOwner(colDist, colAlign, rowAlign, colStride, rowStride, offset);
      && 0 <= owner < colStride * rowStride
      && owner % gridHeight == DiagonalProcRow(colDist, colAlign, rowAlign, colStride, rowStride, offset)
      && owner / gridHeight == DiagonalProcCol(colDist, colAlign, rowAlign, colStride, rowStride, offset)
  {
    var pr := DiagonalProcRow(colDist, colAlign, rowAlign, colStride, rowStride, offset);
    var pc := DiagonalProcCol(colDist, colAlign, rowAlign, colStride, rowStride, offset);
    DiagonalProcIsFirstOwner(colDist, colAlign, rowAlign, colStride, rowStride, offset);
    OwnerInRange(FirstDiagonalRow(offset), colAlign, colStride);
    OwnerInRange(FirstDiagonalCol(offset), rowAlign, rowStride);
    if colDist == MC {
      VcRank(pr, pc, colStride, rowStride);
    } else {
      VcRank(pr, pc, rowStride, colStride);
      assert rowStride * colStride == colStride * rowStride;
    }
  }

  /** `DiagonalRoot(offset)`, with the corrected owner for [MR,MC]. */
  function DiagonalRoot(colDist: Dist, rowDist: Dist, colAlign: int, rowAlign: int,
                        colStride: nat, rowStride: nat, root: int, offset: int): DiagValue
    requires colStride > 0 && rowStride > 0
  {
    if (colDist == MC && rowDist == MR) || (colDist == MR && rowDist == MC) then
      OfOwner(DiagonalOwner(colDist, colAlign, rowAlign, colStride, rowStride, offset))
    else Plain(root)
  }

  /** `DiagonalAlign(offset)`, with the corrected owner for [MR,MC]: for
      the two matrix distributions the diagonal-path rank of the owner;
      with a collected column distribution the owner of the diagonal's
      first column; otherwise the owner of its first row. */
  function DiagonalAlign(colDist: Dist, rowDist: Dist, colAlign: int, rowAlign: int,
                         colStride: nat, rowStride: nat, offset: int): DiagValue
    requires colStride > 0 && rowStride > 0
  {
    if (colDist == MC && rowDist == MR) || (colDist == MR && rowDist == MC) then
      OfOwner(DiagonalOwner(colDist, colAlign, rowAlign, colStride, rowStride, offset))
    else if colDist == STAR then
      Plain(if offset >= 0 then OwnerOf(offset, rowAlign, rowStride) else rowAlign)
    else
      Plain(if offset >= 0 then colAlign else OwnerOf(-offset, colAlign, colStride))
  }

  /** Outside the matrix distributions the diagonal alignment is the owner
      of the diagonal's first entry along the distributed axis, hence an
      alignment in range; the root and the alignment name the same owner
      for [MC,MR] and [MR,MC]. */
  lemma DiagonalAlignIsFirstOwner(colDist: Dist, rowDist: Dist, colAlign: int, rowAlign: int,
                                  colStride: nat, rowStride: nat, root: int, offset: int)
    requires colStride > 0 && rowStride > 0
    requires 0 <= colAlign < colStride && 0 <= rowAlign < rowStride
    ensures var d := DiagonalAlign(colDist, rowDist, colAlign, rowAlign, colStride, rowStride, offset);
      && (d.OfOwner? <==> (colDist == MC && rowDist == MR) || (colDist == MR && rowDist == MC))
      && (d.OfOwner? ==> DiagonalRoot(colDist, rowDist, colAlign, rowAlign, colStride, rowStride, root, offset) == d)
      && (d.OfOwner? ==> 0 <= d.vcRank < colStride * rowStride)
      && (d.Plain? ==> DiagonalRoot(colDist, rowDist, colAlign, rowAlign, colStride, rowStride, root, offset) == Plain(root))
      && (d.Plain? && colDist == STAR ==> d.v == OwnerOf(FirstDiagonalCol(offset), rowAlign, rowStride))
      && (d.Plain? && colDist != STAR ==> d.v == OwnerOf(FirstDiagonalRow(offset), colAlign, colStride))
      && (d.Plain? && colDist == STAR ==> 0 <= d.v < rowStride)
      && (d.Plain? && colDist != STAR ==> 0 <= d.v < colStride)
  {
    OwnerInRange(FirstDiagonalCol(offset), rowAlign, rowStride);
    OwnerInRange(FirstDiagonalRow(offset), colAlign, colStride);
    DivModUnique(colAlign, 0, colAlign, colStride);
    DivModUnique(rowAlign, 0, rowAlign, rowStride);
    OwnerInRange(0, colAlign, colStride);
    OwnerInRange(0, rowAlign, rowStride);
    if (colDist == MC && rowDist == MR) || (colDist == MR && rowDist == MC) {
      DiagonalOwnerIsVcRank(colDist, colAlign, rowAlign, colStride, rowStride, offset);
    }
  }
}
