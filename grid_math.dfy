/** Index arithmetic shared by the distributed-matrix code.  `Length`,
    `Shift`, `MaxLength` and `Mod` are defined in headers that are not part
    of this model; here each is given the definition its callers rely on,
    and the properties used elsewhere are proved from that definition. */
module GridMath {

  /** `El::Mod`: the residue of `a` modulo a positive `n`, in `[0, n)`.
      Dafny's `%` on `int` is already the Euclidean residue. */
  function Mod(a: int, n: int): (r: int)
    requires n > 0
    ensures 0 <= r < n
    ensures a == (a / n) * n + r
  {
    a % n
  }

  /** Division with remainder is unique: `x == q*n + r` with `0 <= r < n`
      fixes both the quotient and the residue. */
  lemma DivModUnique(x: int, q: int, r: int, n: int)
    requires n > 0 && 0 <= r < n && x == q * n + r
    ensures x / n == q && x % n == r
  {
    var q', r' := x / n, x % n;
    assert (q - q') * n == r' - r;
    if q - q' >= 1 {
      MulMono(1, q - q', n);
    }
    if q' - q >= 1 {
      MulMono(1, q' - q, n);
    }
  }

  /** C++ `/` on `Int`: truncates toward zero. */
  function CppDiv(a: int, b: int): int
    requires b != 0
  {
    if a >= 0 then (if b > 0 then a / b else -(a / -b))
    else (if b > 0 then -((-a) / b) else (-a) / (-b))
  }

  /** C++ `%` on `Int`: the remainder takes the sign of the dividend. */
  function CppRem(a: int, b: int): (r: int)
    requires b != 0
    ensures a == CppDiv(a, b) * b + r
  {
    a - CppDiv(a, b) * b
  }

  /** On non-negative operands C++ `%` is Dafny's `%`. */
  lemma CppRemNonNegative(a: int, b: int)
    requires a >= 0 && b > 0
    ensures CppRem(a, b) == a % b
    ensures CppDiv(a, b) == a / b
  {
  }

  /** A negative dividend gives a non-positive C++ remainder. */
  lemma CppRemOfNegative(a: int, b: int)
    requires a < 0 && b > 0
    ensures -b < CppRem(a, b) <= 0
    ensures CppRem(a, b) == -((-a) % b)
  {
  }

  /** `Length(n, shift, stride)`: how many of the indices `0 .. n-1` are
      congruent to `shift` modulo `stride`, i.e. how many rows of an
      `n`-row matrix a process with that shift stores. */
  function Length(n: int, shift: int, stride: int): (r: nat)
    requires 0 <= shift < stride
  {
    if n > shift then (n - shift - 1) / stride + 1 else 0
  }

  /** The local indices are exactly those whose global index is below `n`. */
  lemma LengthCountsLocalIndices(n: int, shift: int, stride: int, iLoc: nat)
    requires 0 <= shift < stride
    ensures iLoc < Length(n, shift, stride) <==> shift + iLoc * stride < n
  {
    if n > shift {
      var q := (n - shift - 1) / stride;
      assert n - shift - 1 == q * stride + (n - shift - 1) % stride;
      if iLoc <= q {
        assert iLoc * stride <= q * stride by { MulMono(iLoc, q, stride); }
      } else {
        assert (q + 1) * stride <= iLoc * stride by { MulMono(q + 1, iLoc, stride); }
      }
    } else {
      assert iLoc * stride >= 0;
    }
  }

  lemma MulSucc(a: int, b: int)
    ensures (a + 1) * b == a * b + b
  {
  }

  /** Adding a multiple of `n` leaves the residue unchanged. */
  lemma {:induction false} ModAddMultiple(z: int, q: int, n: int)
    requires n > 0
    ensures Mod(z + q * n, n) == Mod(z, n)
  {
    assert z == (z / n) * n + z % n;
    assert z + q * n == (z / n + q) * n + z % n;
    DivModUnique(z + q * n, z / n + q, z % n, n);
  }

  lemma MulMono(a: nat, b: nat, c: nat)
    requires a <= b
    ensures a * c <= b * c
  {
  }

  /** `MaxLength(n, stride)`: the largest local length over all shifts. */
  function MaxLength(n: int, stride: int): (r: nat)
    requires stride > 0
  {
    Length(n, 0, stride)
  }

  lemma {:induction false} LengthAtMostMaxLength(n: int, shift: int, stride: int)
    requires 0 <= shift < stride
    ensures Length(n, shift, stride) <= MaxLength(n, stride)
  {
    var k := Length(n, shift, stride);
    if k > 0 {
      LengthCountsLocalIndices(n, shift, stride, k - 1);
      LengthCountsLocalIndices(n, 0, stride, k - 1);
    }
  }

  /** `Shift(rank, align, stride)`: the first global index a process of
      rank `rank` owns when the distribution starts at `align`. */
  function Shift(rank: int, align: int, stride: int): (r: int)
    requires stride > 0
    ensures 0 <= r < stride
  {
    Mod(rank - align, stride)
  }

  /** The owner of the first locally stored index is the process itself. */
  lemma ShiftIsOwnedByRank(rank: int, align: int, stride: int)
    requires stride > 0 && 0 <= rank < stride && 0 <= align
    ensures (Shift(rank, align, stride) + align) % stride == rank
  {
    var s := Shift(rank, align, stride);
    var q := (rank - align) / stride;
    assert rank - align == q * stride + s;
    DivModUnique(s + align, -q, rank, stride);
  }

  /** The rank change between the column-major and the row-major order of
      an `r` by `c` grid: `x/r + (x mod r)*c`. */
  function Transpose(x: nat, r: nat, c: nat): nat
    requires r > 0
  {
    x / r + (x % r) * c
  }

  /** Below `r*c` the rank change stays below `r*c` and is undone by the
      change with the roles of `r` and `c` swapped, so it is a bijection of
      `[0, r*c)`. */
  lemma {:induction false} TransposeInverse(x: nat, r: nat, c: nat)
    requires r > 0 && c > 0 && x < r * c
    ensures Transpose(x, r, c) < r * c
    ensures Transpose(Transpose(x, r, c), c, r) == x
  {
    var q, s := x / r, x % r;
    assert x == q * r + s;
    if q >= c {
      MulMono(c, q, r);
    }
    assert s <= r - 1 && q <= c - 1;
    MulMono(s, r - 1, c);
    assert (r - 1) * c == r * c - c;
    var y := q + s * c;
    assert y < r * c;
    DivModUnique(y, s, q, c);
  }

  /** Adding `d` and then subtracting it again modulo `n` restores the
      residue. */
  lemma {:induction false} ModAddSub(x: int, d: int, n: int)
    requires n > 0
    ensures Mod(Mod(x + d, n) - d, n) == Mod(x, n)
  {
    var q1 := (x + d) / n;
    var m := Mod(x + d, n);
    assert x + d == q1 * n + m;
    var q2 := (m - d) / n;
    assert m - d == q2 * n + Mod(m - d, n);
    assert x == (q2 + q1) * n + Mod(m - d, n);
    DivModUnique(x, q2 + q1, Mod(m - d, n), n);
  }
}
