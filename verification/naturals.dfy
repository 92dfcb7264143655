/** Small facts of natural arithmetic: flattening a pair of indices into one and taking it apart again. */
module Naturals {
  lemma MulMono(x: int, y: int, k: int)
    requires x <= y && k >= 0
    ensures x * k <= y * k
  {
  }

  function Quotient(n: nat, d: nat): nat
    requires d > 0
  {
    n / d
  }

  function Remainder(n: nat, d: nat): (r: nat)
    requires d > 0
    ensures r < d
  {
    n % d
  }

  lemma QuotientBound(n: nat, d: nat, b: nat)
    requires d > 0
    ensures b < Quotient(n, d) <==> b * d + d <= n
  {
    var q, r := n / d, n % d;
    assert n == q * d + r;
    if b < q {
      MulMono(b + 1, q, d);
    } else {
      MulMono(q, b, d);
    }
  }

  /** Row `q`, place `r`, in rows of `m`. */
  function Join(q: nat, r: nat, m: nat): nat { q * m + r }

  lemma JoinBound(q: nat, n: nat, r: nat, m: nat)
    requires q < n && r < m
    ensures Join(q, r, m) < n * m
  {
    MulMono(q + 1, n, m);
  }

  lemma JoinParts(q: nat, r: nat, m: nat)
    requires r < m
    ensures Quotient(Join(q, r, m), m) == q && Remainder(Join(q, r, m), m) == r
  {
    var x := q * m + r;
    assert x == x / m * m + x % m;
    if x / m < q {
      MulMono(x / m + 1, q, m);
    } else if x / m > q {
      MulMono(q + 1, x / m, m);
    }
  }

  lemma PartsJoin(x: nat, m: nat, n: nat)
    requires m > 0
    ensures x == Join(Quotient(x, m), Remainder(x, m), m)
    ensures x < n * m ==> Quotient(x, m) < n
  {
    if x / m >= n {
      MulMono(n, x / m, m);
    }
  }

  lemma Regroup(a: nat, b: nat, c: nat)
    ensures a * b * c == a * (c * b)
  {
  }

  lemma Doubled(n: nat, w: nat)
    requires n > 0
    ensures (n - 1) * (2 * w) + 2 * w == 2 * (n * w)
  {
  }

  /** An index of (major, middle, minor) for the same place as (major, minor, middle). */
  function Swapped(w: nat, middle: nat, minor: nat): nat
    requires middle > 0 && minor > 0
  {
    var row := Quotient(w, minor);
    Join(Join(Quotient(row, middle), Remainder(w, minor), minor), Remainder(row, middle), middle)
  }

  /** Swapping keeps an index in range and is undone by swapping back. */
  lemma SwappedBack(w: nat, n: nat, middle: nat, minor: nat)
    requires middle > 0 && minor > 0 && w < n * middle * minor
    ensures Swapped(w, middle, minor) < n * minor * middle
    ensures Swapped(Swapped(w, middle, minor), minor, middle) == w
  {
    hide Quotient, Remainder, Join;
    var row, r := Quotient(w, minor), Remainder(w, minor);
    var q, s := Quotient(row, middle), Remainder(row, middle);
    PartsJoin(w, minor, n * middle);
    PartsJoin(row, middle, n);
    JoinBound(q, n, r, minor);
    JoinBound(Join(q, r, minor), n * minor, s, middle);
    JoinParts(Join(q, r, minor), s, middle);
    JoinParts(q, r, minor);
  }
}
