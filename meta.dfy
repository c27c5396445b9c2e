/** Value-level counterparts of the template metafunctions of Meta.hpp.
    A type list becomes a sequence, a boolean trait a `bool`, and a
    two-argument trait template a function of two arguments. */
module Meta {

  /** Conjunction of a list of booleans; the empty list is true. */
  function And(xs: seq<bool>): bool
  {
    if xs == [] then true else xs[0] && And(xs[1..])
  }

  /** Disjunction of a list of booleans; the empty list is false. */
  function Or(xs: seq<bool>): bool
  {
    if xs == [] then false else xs[0] || Or(xs[1..])
  }

  function Not(b: bool): bool
  {
    !b
  }

  lemma {:induction false} AndIsConjunction(xs: seq<bool>)
    ensures And(xs) <==> forall i :: 0 <= i < |xs| ==> xs[i]
  {
    if xs != [] {
      AndIsConjunction(xs[1..]);
      assert forall i :: 0 < i < |xs| ==> xs[i] == xs[1..][i - 1];
    }
  }

  lemma {:induction false} OrIsDisjunction(xs: seq<bool>)
    ensures Or(xs) <==> exists i :: 0 <= i < |xs| && xs[i]
  {
    if xs != [] {
      OrIsDisjunction(xs[1..]);
      assert forall i :: 0 < i < |xs| ==> xs[i] == xs[1..][i - 1];
      if Or(xs[1..]) {
        var k :| 0 <= k < |xs[1..]| && xs[1..][k];
        assert xs[k + 1];
      }
    }
  }

  /** The list of negations. */
  function NotAll(xs: seq<bool>): (r: seq<bool>)
    ensures |r| == |xs|
    ensures forall i :: 0 <= i < |xs| ==> r[i] == Not(xs[i])
  {
    seq(|xs|, i requires 0 <= i < |xs| => Not(xs[i]))
  }

  /** De Morgan: `Not` of an `And` is the `Or` of the negations. */
  lemma NotAndIsOrOfNots(xs: seq<bool>)
    ensures Not(And(xs)) == Or(NotAll(xs))
  {
    AndIsConjunction(xs);
    OrIsDisjunction(NotAll(xs));
  }

  /** The "car" of a non-empty type list (an empty list does not compile). */
  function Head<T>(xs: seq<T>): T
    requires |xs| > 0
  {
    xs[0]
  }

  /** The "cdr" of a non-empty type list. */
  function Tail<T>(xs: seq<T>): (r: seq<T>)
    requires |xs| > 0
    ensures |r| == |xs| - 1
  {
    xs[1..]
  }

  lemma HeadTailSplit<T>(xs: seq<T>)
    requires |xs| > 0
    ensures xs == [Head(xs)] + Tail(xs)
  {
  }

  /** `Select<B,T,U>`: `T` when `B` holds, else `U`. */
  function Select<T>(b: bool, t: T, u: T): T
  {
    if b then t else u
  }

  /** Outcome of `SelectFirstMatch`; `NoMatch` is a compile-time error in
      the source (the recursion reaches `Head` of the empty list). */
  datatype Match<T> = Found(value: T) | NoMatch

  /** The first element `x` of `xs` with `pred(u, x)`. */
  function SelectFirstMatch<U, T>(xs: seq<T>, u: U, pred: (U, T) -> bool): Match<T>
  {
    if xs == [] then NoMatch
    else Select(pred(u, Head(xs)), Found(Head(xs)),
                SelectFirstMatch(Tail(xs), u, pred))
  }

  lemma {:induction false} SelectFirstMatchIsFirst<U, T>(xs: seq<T>, u: U, pred: (U, T) -> bool)
    ensures SelectFirstMatch(xs, u, pred).Found? <==> exists i :: 0 <= i < |xs| && pred(u, xs[i])
    ensures SelectFirstMatch(xs, u, pred).Found? ==>
              exists i :: 0 <= i < |xs| && xs[i] == SelectFirstMatch(xs, u, pred).value
                          && pred(u, xs[i]) && forall j :: 0 <= j < i ==> !pred(u, xs[j])
  {
    if xs != [] && !pred(u, xs[0]) {
      var rest := xs[1..];
      SelectFirstMatchIsFirst(rest, u, pred);
      assert forall i :: 0 < i < |xs| ==> xs[i] == rest[i - 1];
      if exists i :: 0 <= i < |xs| && pred(u, xs[i]) {
        var i :| 0 <= i < |xs| && pred(u, xs[i]);
        assert pred(u, rest[i - 1]);
      }
      if SelectFirstMatch(rest, u, pred).Found? {
        var i :| 0 <= i < |rest| && rest[i] == SelectFirstMatch(rest, u, pred).value
                 && pred(u, rest[i]) && forall j :: 0 <= j < i ==> !pred(u, rest[j]);
        assert xs[i + 1] == rest[i];
        assert forall j :: 0 <= j < i + 1 ==> !pred(u, xs[j]) by {
          forall j | 0 <= j < i + 1 ensures !pred(u, xs[j]) {
            if j > 0 { assert xs[j] == rest[j - 1]; }
          }
        }
      }
    }
  }

  lemma OrOfPair(a: bool, b: bool)
    ensures Or([a, b]) == (a || b)
  {
    assert [a, b][1..] == [b];
    assert [b][1..] == [];
    assert Or([b]) == (b || Or([]));
    assert Or([a, b]) == (a || Or([b]));
  }

  lemma AndOfPair(a: bool, b: bool)
    ensures And([a, b]) == (a && b)
  {
    assert [a, b][1..] == [b];
    assert [b][1..] == [];
    assert And([b]) == (b && And([]));
    assert And([a, b]) == (a && And([b]));
  }

  /** True when `pred(t, x)` holds for some `x` in the list. */
  function IsTrueForAny<U, T>(xs: seq<T>, t: U, pred: (U, T) -> bool): bool
  {
    if xs == [] then false
    else Or([pred(t, Head(xs)), IsTrueForAny(Tail(xs), t, pred)])
  }

  /** True when `pred(t, x)` holds for every `x` in the list. */
  function IsTrueForAll<U, T>(xs: seq<T>, t: U, pred: (U, T) -> bool): bool
  {
    if xs == [] then true
    else And([pred(t, Head(xs)), IsTrueForAll(Tail(xs), t, pred)])
  }

  lemma {:induction false} IsTrueForAnyIsExists<U, T>(xs: seq<T>, t: U, pred: (U, T) -> bool)
    ensures IsTrueForAny(xs, t, pred) <==> exists i :: 0 <= i < |xs| && pred(t, xs[i])
  {
    if xs != [] {
      var rest := xs[1..];
      IsTrueForAnyIsExists(rest, t, pred);
      OrOfPair(pred(t, xs[0]), IsTrueForAny(rest, t, pred));
      assert forall i :: 0 < i < |xs| ==> xs[i] == rest[i - 1];
      if IsTrueForAny(rest, t, pred) {
        var k :| 0 <= k < |rest| && pred(t, rest[k]);
        assert pred(t, xs[k + 1]);
      }
    }
  }

  lemma {:induction false} IsTrueForAllIsForall<U, T>(xs: seq<T>, t: U, pred: (U, T) -> bool)
    ensures IsTrueForAll(xs, t, pred) <==> forall i :: 0 <= i < |xs| ==> pred(t, xs[i])
  {
    if xs != [] {
      var rest := xs[1..];
      IsTrueForAllIsForall(rest, t, pred);
      AndOfPair(pred(t, xs[0]), IsTrueForAll(rest, t, pred));
      assert forall i :: 0 < i < |xs| ==> xs[i] == rest[i - 1];
    }
  }

  /** `EnumSame<E,A,B>`: the primary template is false and the
      specialisation for `A == B` is true. */
  function EnumSame<E(==)>(a: E, b: E): bool
  {
    match a == b
    case true => true
    case false => false
  }

  lemma EnumSameIsEquality<E>(a: E, b: E)
    ensures EnumSame(a, b) <==> a == b
    ensures EnumSame(a, b) == EnumSame(b, a)
  {
  }

  /** Built-in C++ types named by the trait tables; `Other` is any type
      without a specialisation. */
  datatype BuiltinType =
    | Unsigned | SignedInt | UnsignedLong | LongInt
    | UnsignedLongLong | LongLongInt | FloatType | DoubleType | LongDouble
    | Other

  predicate IsScalar(t: BuiltinType)
  {
    t in {Unsigned, SignedInt, UnsignedLong, LongInt, UnsignedLongLong,
          LongLongInt, FloatType, DoubleType, LongDouble}
  }

  predicate IsField(t: BuiltinType)
  {
    t in {FloatType, DoubleType, LongDouble}
  }

  predicate IsStdScalar(t: BuiltinType)
  {
    t in {Unsigned, SignedInt, UnsignedLong, LongInt, UnsignedLongLong,
          LongLongInt, FloatType, DoubleType, LongDouble}
  }

  predicate IsStdField(t: BuiltinType)
  {
    t in {FloatType, DoubleType, LongDouble}
  }

  /** Every field is a scalar, every standard field a standard scalar, and
      the standard tables agree with the general ones on built-in types. */
  lemma TraitTablesNest(t: BuiltinType)
    ensures IsField(t) ==> IsScalar(t)
    ensures IsStdField(t) ==> IsStdScalar(t)
    ensures IsScalar(t) <==> IsStdScalar(t)
    ensures IsField(t) <==> IsStdField(t)
    ensures IsScalar(t) <==> t != Other
  {
  }
}
