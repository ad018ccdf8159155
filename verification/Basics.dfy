/** Option and result types, and the rounding rule Python and NumPy share. */
module Basics {

  datatype Option<+T> = None | Some(value: T)

  datatype Result<+T, +E> = Ok(value: T) | Err(error: E)

  function Abs(x: real): real {
    if x < 0.0 then -x else x
  }

  function MinReal(a: real, b: real): real {
    if a <= b then a else b
  }

  function MaxReal(a: real, b: real): real {
    if a <= b then b else a
  }

  /** Python's `round`: the nearest integer, and the even one of two equally near. */
  function RoundHalfEven(x: real): (n: int)
    ensures Abs(x - n as real) <= 0.5
    ensures Abs(x - n as real) == 0.5 ==> n % 2 == 0
  {
    var f := x.Floor;
    var d := x - f as real;
    if d < 0.5 || (d == 0.5 && f % 2 == 0) then f else f + 1
  }

  /** No integer is nearer than the rounded one. */
  lemma RoundIsNearest(x: real, m: int)
    ensures Abs(x - RoundHalfEven(x) as real) <= Abs(x - m as real)
  {
    var n := RoundHalfEven(x);
    if m < n {
      assert m as real <= (n - 1) as real;
    } else if m > n {
      assert m as real >= (n + 1) as real;
    }
  }

  /** An integer rounds to itself. */
  lemma RoundOfInteger(n: int)
    ensures RoundHalfEven(n as real) == n
  {
  }

  lemma ConcatAssociative<T>(a: seq<T>, b: seq<T>, c: seq<T>)
    ensures a + (b + c) == (a + b) + c
  {
  }

  lemma HeadAndTail<T>(s: seq<T>)
    requires s != []
    ensures s == [s[0]] + s[1..]
  {
  }

  function Dot(a: seq<real>, b: seq<real>): real
    requires |a| == |b|
  {
    if a == [] then 0.0 else a[0] * b[0] + Dot(a[1..], b[1..])
  }

  /** One more coordinate adds the product of the two. */
  lemma {:induction false} DotNext(a: seq<real>, b: seq<real>, x: real, y: real)
    requires |a| == |b|
    ensures Dot(a + [x], b + [y]) == Dot(a, b) + x * y
    decreases |a|
  {
    if a != [] {
      assert (a + [x])[1..] == a[1..] + [x] && (b + [y])[1..] == b[1..] + [y];
      DotNext(a[1..], b[1..], x, y);
    } else {
      assert [x][1..] == [] && [y][1..] == [];
    }
  }

  lemma ProductPositive(x: real, y: real)
    requires x > 0.0 && y > 0.0
    ensures x * y > 0.0
  {
  }

  lemma NonNegativeProduct(x: real, y: real)
    requires x >= 0.0 && y >= 0.0
    ensures x * y >= 0.0
  {
  }

  // ------------------------------------------------------------------ what is found in a sequence

  /** What `f` finds in the entries of `s`, in order. */
  function Found<A, B>(s: seq<A>, f: A -> Option<B>): (r: seq<B>)
    ensures |r| <= |s|
  {
    if s == [] then []
    else
      var last := f(s[|s| - 1]);
      Found(s[..|s| - 1], f) + if last.Some? then [last.value] else []
  }

  lemma FoundNext<A, B>(s: seq<A>, x: A, f: A -> Option<B>)
    ensures Found(s + [x], f) == if f(x).Some? then Found(s, f) + [f(x).value] else Found(s, f)
  {
    assert (s + [x])[..|s|] == s;
  }

  lemma {:induction false} FoundConcat<A, B>(a: seq<A>, b: seq<A>, f: A -> Option<B>)
    ensures Found(a + b, f) == Found(a, f) + Found(b, f)
    decreases |b|
  {
    if b == [] {
      assert a + b == a;
    } else {
      var init, x := b[..|b| - 1], b[|b| - 1];
      assert a + b == (a + init) + [x] && b == init + [x];
      FoundConcat(a, init, f);
      FoundNext(a + init, x, f);
      FoundNext(init, x, f);
    }
  }

  lemma FoundFirst<A, B>(x: A, s: seq<A>, f: A -> Option<B>)
    ensures Found([x] + s, f) == if f(x).Some? then [f(x).value] + Found(s, f) else Found(s, f)
  {
    FoundConcat([x], s, f);
    FoundNext([], x, f);
    assert [] + [x] == [x];
  }

  /** What is found at place `k` comes after exactly what is found before it. */
  lemma FoundAt<A, B>(s: seq<A>, f: A -> Option<B>, k: nat)
    requires k < |s| && f(s[k]).Some?
    ensures var n := |Found(s[..k], f)|; n < |Found(s, f)| && Found(s, f)[n] == f(s[k]).value
  {
    assert s == s[..k] + ([s[k]] + s[k + 1..]);
    FoundConcat(s[..k], [s[k]] + s[k + 1..], f);
    FoundFirst(s[k], s[k + 1..], f);
  }

  /** Nothing else is found. */
  lemma {:induction false} FoundWhere<A, B>(s: seq<A>, f: A -> Option<B>, i: nat) returns (k: nat)
    requires i < |Found(s, f)|
    ensures k < |s| && f(s[k]) == Some(Found(s, f)[i]) && |Found(s[..k], f)| == i
    decreases |s|
  {
    var n := |s| - 1;
    if i < |Found(s[..n], f)| {
      k := FoundWhere(s[..n], f, i);
      assert s[..n][..k] == s[..k];
    } else {
      k := n;
    }
  }
}
