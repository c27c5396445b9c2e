/** The sorted-index utilities of environment_impl.cpp: sortedness tests,
    the union of two sorted index lists, the positions of a sorted
    sub-list inside a sorted list, and the position of one index.  `Int`
    is a mathematical integer here, and `IsSorted`/`IsStrictlySorted` are
    modelled on integers.

    `std::set_union` and `std::lower_bound` are written out as the merge
    loop and the binary search they perform. */
module SortedIndices {
  import opened Types

  /** No adjacent pair decreases. */
  predicate Sorted(x: seq<int>)
  {
    forall i :: 1 <= i < |x| ==> x[i - 1] <= x[i]
  }

  /** Every adjacent pair increases. */
  predicate StrictlySorted(x: seq<int>)
  {
    forall i :: 1 <= i < |x| ==> x[i - 1] < x[i]
  }

  /** `IsSorted`: the scan stops at the first decreasing pair. */
  method IsSorted(x: seq<int>) returns (b: bool)
    ensures b <==> Sorted(x)
  {
    var i := 1;
    while i < |x|
      invariant 1 <= i <= |x| || |x| == 0
      invariant forall k :: 1 <= k < i && k < |x| ==> x[k - 1] <= x[k]
    {
      if x[i] < x[i - 1] {
        return false;
      }
      i := i + 1;
    }
    return true;
  }

  /** `IsStrictlySorted`: the scan stops at the first pair that does not
      increase. */
  method IsStrictlySorted(x: seq<int>) returns (b: bool)
    ensures b <==> StrictlySorted(x)
  {
    var i := 1;
    while i < |x|
      invariant 1 <= i <= |x| || |x| == 0
      invariant forall k :: 1 <= k < i && k < |x| ==> x[k - 1] < x[k]
    {
      if x[i] <= x[i - 1] {
        return false;
      }
      i := i + 1;
    }
    return true;
  }

  /** A strictly sorted list is sorted; lists of at most one entry are
      both. */
  lemma StrictImpliesSorted(x: seq<int>)
    ensures StrictlySorted(x) ==> Sorted(x)
    ensures |x| <= 1 ==> Sorted(x) && StrictlySorted(x)
  {
  }

  /** Sortedness of adjacent pairs extends to every pair. */
  lemma {:induction false} SortedPairwise(x: seq<int>)
    requires Sorted(x)
    ensures forall i, j :: 0 <= i <= j < |x| ==> x[i] <= x[j]
  {
    forall i, j | 0 <= i <= j < |x|
      ensures x[i] <= x[j]
    {
      var k := i;
      while k < j
        invariant i <= k <= j && x[i] <= x[k]
      {
        k := k + 1;
      }
    }
  }

  lemma {:induction false} StrictlySortedPairwise(x: seq<int>)
    requires StrictlySorted(x)
    ensures forall i, j :: 0 <= i < j < |x| ==> x[i] < x[j]
  {
    forall i, j | 0 <= i < j < |x|
      ensures x[i] < x[j]
    {
      var k := i + 1;
      while k < j
        invariant i < k <= j && x[i] < x[k]
      {
        k := k + 1;
      }
    }
  }

  /** What `std::set_union` writes: the smaller head first, and one copy
      (the first list's) of a head both lists share. */
  function SetUnion(a: seq<int>, b: seq<int>): (r: seq<int>)
    ensures |r| <= |a| + |b|
    decreases |a| + |b|
  {
    if a == [] then b
    else if b == [] then a
    else if a[0] < b[0] then [a[0]] + SetUnion(a[1..], b)
    else if b[0] < a[0] then [b[0]] + SetUnion(a, b[1..])
    else [a[0]] + SetUnion(a[1..], b[1..])
  }

  /** The union holds exactly the entries of the two lists. */
  lemma {:induction false} SetUnionElements(a: seq<int>, b: seq<int>)
    ensures forall x :: x in SetUnion(a, b) <==> x in a || x in b
    decreases |a| + |b|
  {
    if a != [] && b != [] {
      assert a == [a[0]] + a[1..] && b == [b[0]] + b[1..];
      if a[0] < b[0] {
        SetUnionElements(a[1..], b);
      } else if b[0] < a[0] {
        SetUnionElements(a, b[1..]);
      } else {
        SetUnionElements(a[1..], b[1..]);
      }
    }
  }

  /** The first entry of a union is the smaller head. */
  lemma {:induction false} SetUnionHead(a: seq<int>, b: seq<int>)
    requires a != [] || b != []
    ensures SetUnion(a, b) != []
    ensures SetUnion(a, b)[0] == if a == [] then b[0] else if b == [] then a[0]
                                 else if a[0] <= b[0] then a[0] else b[0]
  {
  }

  /** One step of the merge: the union of two lists is their smaller head
      followed by the union of what is left. */
  lemma SetUnionStep(a: seq<int>, b: seq<int>)
    requires a != [] && b != []
    ensures a[0] < b[0] ==> SetUnion(a, b) == [a[0]] + SetUnion(a[1..], b)
    ensures b[0] < a[0] ==> SetUnion(a, b) == [b[0]] + SetUnion(a, b[1..])
    ensures a[0] == b[0] ==> SetUnion(a, b) == [a[0]] + SetUnion(a[1..], b[1..])
  {
  }

  /** A head no larger than the first entry keeps a sorted list sorted. */
  lemma ConsSorted(x: int, u: seq<int>, strict: bool)
    requires if strict then StrictlySorted(u) else Sorted(u)
    requires u != [] ==> if strict then x < u[0] else x <= u[0]
    ensures if strict then StrictlySorted([x] + u) else Sorted([x] + u)
  {
    var v := [x] + u;
    assert forall i :: 0 <= i < |u| ==> v[i + 1] == u[i];
  }

  /** The union of sorted lists is sorted (`strict` false), and of
      strictly sorted lists strictly sorted (`strict` true). */
  lemma {:induction false} SetUnionSorted(a: seq<int>, b: seq<int>, strict: bool)
    requires if strict then StrictlySorted(a) && StrictlySorted(b) else Sorted(a) && Sorted(b)
    ensures if strict then StrictlySorted(SetUnion(a, b)) else Sorted(SetUnion(a, b))
    decreases |a| + |b|
  {
    if a != [] && b != [] {
      SetUnionStep(a, b);
      var t0, t1, x;
      if a[0] < b[0] {
        t0, t1, x := a[1..], b, a[0];
      } else if b[0] < a[0] {
        t0, t1, x := a, b[1..], b[0];
      } else {
        t0, t1, x := a[1..], b[1..], a[0];
      }
      assert SetUnion(a, b) == [x] + SetUnion(t0, t1);
      SetUnionSorted(t0, t1, strict);
      if t0 != [] || t1 != [] {
        SetUnionHead(t0, t1);
      }
      ConsSorted(x, SetUnion(t0, t1), strict);
    }
  }

  /** `Union(both, first, second)` and its value-returning form: the
      output is sized for both inputs, the merge writes into it, and it is
      cut to what was written. */
  method Union(first: seq<int>, second: seq<int>) returns (both: seq<int>)
    ensures both == SetUnion(first, second)
  {
    var buf := new int[|first| + |second|];
    var i, j, k := 0, 0, 0;
    while i < |first| || j < |second|
      invariant 0 <= i <= |first| && 0 <= j <= |second| && k <= i + j
      invariant buf[..k] + SetUnion(first[i..], second[j..]) == SetUnion(first, second)
      decreases |first| - i + |second| - j
    {
      var step := MergeNext(first, second, i, j);
      ghost var done := buf[..k];
      buf[k] := step.0;
      assert buf[..k + 1] == done + [step.0];
      AppendHead(done, step.0, SetUnion(first[step.1..], second[step.2..]));
      i, j, k := step.1, step.2, k + 1;
    }
    assert first[i..] == [] && second[j..] == [];
    both := buf[..k];
  }

  /** Moving the head of the rest to the end of what is done keeps the
      whole. */
  lemma AppendHead(done: seq<int>, x: int, rest: seq<int>)
    ensures done + ([x] + rest) == (done + [x]) + rest
  {
  }

  /** One step of `std::set_union` at positions `i` and `j`: the entry it
      writes and the positions it moves on to.  The smaller head is taken;
      equal heads are written once and both are passed. */
  function MergeNext(a: seq<int>, b: seq<int>, i: nat, j: nat): (r: (int, nat, nat))
    requires i <= |a| && j <= |b| && (i < |a| || j < |b|)
    ensures i <= r.1 <= |a| && j <= r.2 <= |b| && r.1 + r.2 > i + j
    ensures SetUnion(a[i..], b[j..]) == [r.0] + SetUnion(a[r.1..], b[r.2..])
  {
    MergeStep(a, b, i, j);
    if j == |b| || (i < |a| && a[i] < b[j]) then (a[i], i + 1, j)
    else if i == |a| || b[j] < a[i] then (b[j], i, j + 1)
    else (a[i], i + 1, j + 1)
  }

  /** The merge step of `Union` on the remaining suffixes. */
  lemma MergeStep(a: seq<int>, b: seq<int>, i: nat, j: nat)
    requires i <= |a| && j <= |b| && (i < |a| || j < |b|)
    ensures j == |b| || (i < |a| && a[i] < b[j]) ==>
              SetUnion(a[i..], b[j..]) == [a[i]] + SetUnion(a[i + 1..], b[j..])
    ensures j < |b| && (i == |a| || b[j] < a[i]) ==>
              SetUnion(a[i..], b[j..]) == [b[j]] + SetUnion(a[i..], b[j + 1..])
    ensures i < |a| && j < |b| && a[i] == b[j] ==>
              SetUnion(a[i..], b[j..]) == [a[i]] + SetUnion(a[i + 1..], b[j + 1..])
  {
    assert i < |a| ==> a[i..][1..] == a[i + 1..];
    assert j < |b| ==> b[j..][1..] == b[j + 1..];
    if i == |a| {
      assert a[i..] == [];
    }
    if j == |b| {
      assert b[j..] == [];
    }
  }

  /** The first position at or after `lo` whose entry is at least `x`, or
      the end: what `std::lower_bound` returns on a sorted range. */
  function FirstAtLeast(s: seq<int>, lo: nat, x: int): (r: nat)
    requires lo <= |s|
    ensures lo <= r <= |s|
    ensures forall k :: lo <= k < r ==> s[k] < x
    ensures r < |s| ==> s[r] >= x
    decreases |s| - lo
  {
    if lo == |s| then |s| else if s[lo] >= x then lo else FirstAtLeast(s, lo + 1, x)
  }

  /** Starting the search past entries that are all below `x` does not
      change its result. */
  lemma {:induction false} FirstAtLeastSkip(s: seq<int>, lo: nat, x: int)
    requires lo <= |s|
    requires forall k :: 0 <= k < lo ==> s[k] < x
    ensures FirstAtLeast(s, 0, x) == FirstAtLeast(s, lo, x)
    decreases lo
  {
    if lo > 0 {
      FirstAtLeastSkip(s, lo - 1, x);
    }
  }

  /** The partition point is unique: a position past only smaller entries
      and at an entry at least `x` (or at the end) is the first such. */
  lemma {:induction false} FirstAtLeastIsPartition(s: seq<int>, lo: nat, x: int, p: nat)
    requires lo <= p <= |s|
    requires forall k :: lo <= k < p ==> s[k] < x
    requires p < |s| ==> s[p] >= x
    ensures p == FirstAtLeast(s, lo, x)
    decreases p - lo
  {
    if lo < p {
      FirstAtLeastIsPartition(s, lo + 1, x, p);
    }
  }

  /** `std::lower_bound(s.begin() + lo, s.end(), x)` by bisection. */
  method LowerBound(s: seq<int>, lo: nat, x: int) returns (p: nat)
    requires Sorted(s) && lo <= |s|
    ensures p == FirstAtLeast(s, lo, x)
  {
    SortedPairwise(s);
    var low, high := lo, |s|;
    while low < high
      invariant lo <= low <= high <= |s|
      invariant forall k :: lo <= k < low ==> s[k] < x
      invariant forall k :: high <= k < |s| ==> s[k] >= x
    {
      var mid := low + (high - low) / 2;
      if s[mid] < x {
        low := mid + 1;
      } else {
        high := mid;
      }
    }
    p := low;
    FirstAtLeastIsPartition(s, lo, x, p);
  }

  /** The positions `RelativeIndices` computes from position `lo` on, each
      search starting where the last one stopped; `None` when a search
      reaches the end ("Index was not found"). */
  function RelativeFrom(sub: seq<int>, full: seq<int>, lo: nat): (r: Option<seq<nat>>)
    requires lo <= |full|
    ensures r.Some? ==> |r.value| == |sub|
    ensures r.Some? ==> forall i :: 0 <= i < |sub| ==> lo <= r.value[i] < |full|
    decreases |sub|
  {
    if sub == [] then Some([])
    else
      var p := FirstAtLeast(full, lo, sub[0]);
      if p == |full| then None
      else match RelativeFrom(sub[1..], full, p)
        case None => None
        case Some(rest) => Some([p] + rest)
  }

  datatype Option<T> = None | Some(value: T)

  /** What lies before the first search's result is below every entry of
      a sorted `sub`, so below every entry after its first. */
  lemma BelowHeadBelowTail(sub: seq<int>, full: seq<int>, lo: nat)
    requires lo <= |full| && sub != []
    requires forall k :: 0 <= k < lo && k < |full| ==> forall i :: 0 <= i < |sub| ==> full[k] < sub[i]
    requires Sorted(sub)
    ensures Sorted(sub[1..])
    ensures forall k :: 0 <= k < FirstAtLeast(full, lo, sub[0]) && k < |full| ==>
              forall i :: 0 <= i < |sub[1..]| ==> full[k] < sub[1..][i]
  {
    var p := FirstAtLeast(full, lo, sub[0]);
    SortedPairwise(sub);
    assert Sorted(sub[1..]);
    forall k | 0 <= k < p && k < |full|
      ensures forall i :: 0 <= i < |sub[1..]| ==> full[k] < sub[1..][i]
    {
      forall i | 0 <= i < |sub[1..]|
        ensures full[k] < sub[1..][i]
      {
        assert sub[0] <= sub[i + 1];
        if k >= lo {
          assert full[k] < sub[0];
        }
      }
    }
  }

  /** A result is never decreasing, and for a sorted `sub` each entry is the
      first position of `full` holding at least that entry of `sub`. */
  lemma {:induction false} RelativeFromProperties(sub: seq<int>, full: seq<int>, lo: nat)
    requires lo <= |full| && RelativeFrom(sub, full, lo).Some?
    requires forall k :: 0 <= k < lo && k < |full| ==> forall i :: 0 <= i < |sub| ==> full[k] < sub[i]
    requires Sorted(sub)
    ensures var r := RelativeFrom(sub, full, lo).value;
      && (forall i, j :: 0 <= i <= j < |sub| ==> r[i] <= r[j])
      && (forall i :: 0 <= i < |sub| ==> r[i] == FirstAtLeast(full, 0, sub[i]))
    decreases |sub|
  {
    var r := RelativeFrom(sub, full, lo).value;
    if sub != [] {
      var p := FirstAtLeast(full, lo, sub[0]);
      var rest := RelativeFrom(sub[1..], full, p).value;
      assert r == [p] + rest;
      BelowHeadBelowTail(sub, full, lo);
      RelativeFromProperties(sub[1..], full, p);
      FirstAtLeastSkip(full, lo, sub[0]);
      forall i | 0 <= i < |sub|
        ensures r[i] == FirstAtLeast(full, 0, sub[i])
      {
        if i > 0 {
          assert r[i] == rest[i - 1] && sub[i] == sub[1..][i - 1];
        }
      }
    }
  }

  /** `RelativeIndices(sub, full)` on sorted `sub` and `full` with no
      starting offset: increasing positions that each point at the first
      entry of `full` at least the wanted one; an entry of `sub` that
      occurs in `full` is found there. */
  lemma RelativeIndicesLocate(sub: seq<int>, full: seq<int>)
    requires Sorted(sub) && RelativeFrom(sub, full, 0).Some?
    ensures var r := RelativeFrom(sub, full, 0).value;
      && (forall i, j :: 0 <= i <= j < |sub| ==> r[i] <= r[j])
      && (forall i :: 0 <= i < |sub| ==> r[i] == FirstAtLeast(full, 0, sub[i]))
      && (Sorted(full) ==> forall i :: 0 <= i < |sub| && sub[i] in full ==> full[r[i]] == sub[i])
  {
    RelativeFromProperties(sub, full, 0);
    var r := RelativeFrom(sub, full, 0).value;
    if Sorted(full) {
      SortedPairwise(full);
      forall i | 0 <= i < |sub| && sub[i] in full
        ensures full[r[i]] == sub[i]
      {
        var q :| 0 <= q < |full| && full[q] == sub[i];
        assert r[i] <= q;
      }
    }
  }

  /** `prefix` in front of a result, if there is one. */
  function Prepend(prefix: seq<nat>, o: Option<seq<nat>>): Option<seq<nat>>
  {
    if o.None? then None else Some(prefix + o.value)
  }

  /** One search of `RelativeIndices` on the remaining suffix of `sub`. */
  lemma RelativeFromStep(sub: seq<int>, full: seq<int>, i: nat, lo: nat, prefix: seq<nat>)
    requires i < |sub| && lo <= |full|
    ensures var p := FirstAtLeast(full, lo, sub[i]);
      && (p == |full| ==> Prepend(prefix, RelativeFrom(sub[i..], full, lo)).None?)
      && (p < |full| ==> Prepend(prefix, RelativeFrom(sub[i..], full, lo))
                           == Prepend(prefix + [p], RelativeFrom(sub[i + 1..], full, p)))
  {
    assert sub[i..][1..] == sub[i + 1..];
    var p := FirstAtLeast(full, lo, sub[i]);
    if p < |full| {
      var o := RelativeFrom(sub[i + 1..], full, p);
      if o.Some? {
        assert prefix + ([p] + o.value) == prefix + [p] + o.value;
      }
    }
  }

  /** `RelativeIndices(relInds, sub, full)` and its value-returning form:
      the output is sized for `sub` and written one position at a time,
      each search starting where the last one stopped; the debug check
      raises when a search reaches the end. */
  method RelativeIndices(sub: seq<int>, full: seq<int>) returns (out: Result<seq<nat>>)
    requires Sorted(full)
    ensures RelativeFrom(sub, full, 0).None? <==> out == Err(LogicError("Index was not found"))
    ensures RelativeFrom(sub, full, 0).Some? ==> out == Ok(RelativeFrom(sub, full, 0).value)
  {
    var relInds := new nat[|sub|];
    var it: nat := 0;
    var i := 0;
    assert sub[0..] == sub && relInds[..0] == [];
    var whole := RelativeFrom(sub, full, 0);
    assert whole.Some? ==> [] + whole.value == whole.value;
    while i < |sub|
      invariant 0 <= i <= |sub| && it <= |full|
      invariant RelativeFrom(sub, full, 0) == Prepend(relInds[..i], RelativeFrom(sub[i..], full, it))
    {
      ghost var prefix := relInds[..i];
      RelativeFromStep(sub, full, i, it, prefix);
      it := LowerBound(full, it, sub[i]);
      if it == |full| {
        return Err(LogicError("Index was not found"));
      }
      relInds[i] := it;
      assert relInds[..i + 1] == prefix + [it];
      i := i + 1;
    }
    assert sub[i..] == [];
    assert relInds[..] == relInds[..i] + [];
    return Ok(relInds[..]);
  }

  /** `Find(sortedInds, index)`: the position of `index`, found by
      `lower_bound`; the debug checks raise when every entry is smaller
      or the entry found is not `index`. */
  method Find(sortedInds: seq<int>, index: int) returns (out: Result<nat>)
    requires Sorted(sortedInds)
    ensures out.Ok? <==> index in sortedInds
    ensures out.Ok? ==> out.value < |sortedInds| && sortedInds[out.value] == index
                        && forall k :: 0 <= k < out.value ==> sortedInds[k] < index
    ensures out.Err? ==> out == if forall k :: 0 <= k < |sortedInds| ==> sortedInds[k] < index
                                then Err(LogicError("All indices were smaller"))
                                else Err(LogicError("Could not find index"))
  {
    var it := LowerBound(sortedInds, 0, index);
    SortedPairwise(sortedInds);
    if it == |sortedInds| {
      return Err(LogicError("All indices were smaller"));
    }
    if sortedInds[it] != index {
      assert forall k :: 0 <= k < |sortedInds| ==> sortedInds[k] != index by {
        forall k | 0 <= k < |sortedInds|
          ensures sortedInds[k] != index
        {
          if k >= it {
            assert sortedInds[k] >= sortedInds[it];
          }
        }
      }
      return Err(LogicError("Could not find index"));
    }
    return Ok(it);
  }
}
