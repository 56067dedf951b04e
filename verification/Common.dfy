/** Types shared by the server models. */
module Common {

  type Byte = b: int | 0 <= b < 256

  type Bytes = seq<Byte>

  datatype Option<T> = None | Some(value: T)

  function Min(a: int, b: int): int {
    if a < b then a else b
  }

  lemma Associate<T>(a: seq<T>, b: seq<T>, c: seq<T>)
    ensures a + (b + c) == (a + b) + c
  {}

  /** The first element with a property, or the length of the sequence. */
  function First<T>(s: seq<T>, p: T -> bool): (i: nat)
    ensures i <= |s|
    ensures i < |s| ==> p(s[i])
    ensures forall j :: 0 <= j < i ==> !p(s[j])
  {
    if s == [] || p(s[0]) then 0 else 1 + First(s[1..], p)
  }

  lemma Multiples(r: nat, a: int, b: int)
    requires a <= b
    ensures r * a <= r * b && r * a == r * (a - 1) + r
  {}

  lemma QuotientUnique(x: int, r: nat, q: int, m: int)
    requires 0 <= m < r && x == r * q + m
    ensures x / r == q && x % r == m
  {
    var p := x / r;
    assert x == r * p + x % r;
    if p > q {
      Multiples(r, q + 1, p);
      Multiples(r, q + 1, q + 1);
    } else if p < q {
      Multiples(r, p + 1, q);
      Multiples(r, p + 1, p + 1);
    }
  }

  function Repeated<T>(x: T, n: nat): (s: seq<T>)
    ensures |s| == n && forall i :: 0 <= i < n ==> s[i] == x
  {
    seq(n, _ => x)
  }

  lemma CountInTwo<T>(a: seq<T>, b: seq<T>, x: T)
    ensures multiset(a + b)[x] == multiset(a)[x] + multiset(b)[x]
  {}

  lemma OneMoreRepeated<T>(x: T, n: nat)
    ensures Repeated(x, n) + [x] == Repeated(x, n + 1)
  {}
}
