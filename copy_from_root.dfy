/** Filling a [CIRC,CIRC] matrix, whose whole contents live on its root
    process, from a local matrix held there (CopyFromRoot.hpp).  The root
    calls `CopyFromRoot`, every other process `CopyFromNonRoot`; the
    element-wise and block-wise overloads have the same bodies and are
    modelled by the same members.

    `MakeSizeConsistent` is not part of this model: it is taken to
    broadcast the root's global size and resize the matrix to it;
    `delivered` is the size the broadcast leaves on this process. */
module CopyFromRoot {
  import opened Types
  import opened GridMath
  import opened Buffers
  import opened Elemental
  import CopyLocal

  /** The debug check of `CopyFromRoot`. */
  function RootCheck(crossRank: int, root: int): (r: Outcome)
    ensures r.Pass? <==> crossRank == root
    ensures r.Fail? ==> r == Fail(LogicError("Called CopyFromRoot from non-root"))
  {
    if crossRank != root then Fail(LogicError("Called CopyFromRoot from non-root")) else Pass
  }

  /** The debug check of `CopyFromNonRoot`. */
  function NonRootCheck(crossRank: int, root: int): (r: Outcome)
    ensures r.Pass? <==> crossRank != root
    ensures r.Fail? ==> r == Fail(LogicError("Called CopyFromNonRoot from root"))
  {
    if crossRank == root then Fail(LogicError("Called CopyFromNonRoot from root")) else Pass
  }

  /** On every process exactly one of the two entry points passes its
      check. */
  lemma ExactlyOneCheckPasses(crossRank: int, root: int)
    ensures RootCheck(crossRank, root).Pass? != NonRootCheck(crossRank, root).Pass?
  {
  }

  /** A [CIRC,CIRC] axis has stride 1, so the local size on the root is
      the global size. */
  lemma {:induction false} CircLength(n: nat, shift: nat)
    requires shift < 1
    ensures Length(n, shift, 1) == n
  {
    assert shift == 0;
    if n > 0 {
      assert (n - 0 - 1) / 1 == n - 1;
    }
  }

  /** `MakeSizeConsistent`: the matrix takes the delivered global size. */
  method MakeSizeConsistent(B: DistMeta, delivered: (nat, nat)) returns (out: Outcome)
    requires B.Valid()
    modifies B
    ensures out == ResizeCheck(old(B.viewType), old(B.height), old(B.width), delivered.0, delivered.1)
    ensures out.Fail? ==> B.GetState() == old(B.GetState())
    ensures out.Pass? ==> B.Valid() && B.height == delivered.0 && B.width == delivered.1
    ensures out.Pass? ==> B.grid == old(B.grid) && B.root == old(B.root) && B.viewType == old(B.viewType)
  {
    out := B.Resize(delivered.0, delivered.1);
  }

  /** `CopyFromRoot(A, B)` on the root: `B` takes the size of `A`, the size
      is made consistent (the root's own size comes back to it), and the
      local matrix of `B` becomes a copy of `A`.  Off the root the check
      fails and nothing changes. */
  method CopyFromRoot<V(0)>(A: LocalMatrix<V>, B: DistMeta, BLocal: LocalMatrix<V>) returns (out: Outcome)
    requires A.Valid() && BLocal.Valid() && A != BLocal && A.data != BLocal.data && B.Valid()
    modifies B, BLocal, BLocal.data
    ensures old(B.grid.crossRank != B.root) ==>
              out == Fail(LogicError("Called CopyFromRoot from non-root"))
              && B.GetState() == old(B.GetState()) && unchanged(BLocal)
    ensures old(B.grid.crossRank == B.root) ==>
              out == ResizeCheck(old(B.viewType), old(B.height), old(B.width), A.height, A.width)
    ensures out.Fail? ==> B.GetState() == old(B.GetState()) && unchanged(BLocal)
    ensures out.Pass? ==> B.Valid() && B.height == A.height && B.width == A.width
    ensures out.Pass? ==> B.grid == old(B.grid) && B.root == old(B.root) && B.viewType == old(B.viewType)
    ensures out.Pass? ==> BLocal.Valid() && BLocal.height == A.height && BLocal.width == A.width
    ensures out.Pass? ==> forall i, j :: 0 <= i < A.height && 0 <= j < A.width ==> BLocal.Get(i, j) == A.Get(i, j)
    ensures out.Pass? && B.Participating() && B.grid.colStride == 1 && B.grid.rowStride == 1 ==>
              B.localHeight == BLocal.height && B.localWidth == BLocal.width
  {
    out := RootCheck(B.grid.crossRank, B.root);
    if out.Fail? {
      return;
    }
    out := B.Resize(A.height, A.width);
    if out.Fail? {
      return;
    }
    var sizeOut := MakeSizeConsistent(B, (B.height, B.width));
    assert sizeOut.Pass?;
    CopyLocal.CopySameTypeCpu(A, BLocal);
    if B.Participating() && B.grid.colStride == 1 && B.grid.rowStride == 1 {
      CircLength(B.height, B.colShift);
      CircLength(B.width, B.rowShift);
    }
  }

  /** `CopyFromNonRoot(B)`: off the root the matrix takes the root's size;
      on the root the check fails and nothing changes. */
  method CopyFromNonRoot(B: DistMeta, delivered: (nat, nat)) returns (out: Outcome)
    requires B.Valid()
    modifies B
    ensures old(B.grid.crossRank == B.root) ==>
              out == Fail(LogicError("Called CopyFromNonRoot from root")) && B.GetState() == old(B.GetState())
    ensures old(B.grid.crossRank != B.root) ==>
              out == ResizeCheck(old(B.viewType), old(B.height), old(B.width), delivered.0, delivered.1)
    ensures out.Fail? ==> B.GetState() == old(B.GetState())
    ensures out.Pass? ==> B.Valid() && B.height == delivered.0 && B.width == delivered.1
    ensures out.Pass? ==> B.grid == old(B.grid) && B.root == old(B.root)
  {
    out := NonRootCheck(B.grid.crossRank, B.root);
    if out.Fail? {
      return;
    }
    out := MakeSizeConsistent(B, delivered);
  }
}
