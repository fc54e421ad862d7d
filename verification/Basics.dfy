/** Bytes, 16-bit words, time and optional values, shared by every component. */
module Basics {
  type byte = x: int | 0 <= x < 256
  type word16 = x: int | 0 <= x < 65536

  type Bytes = seq<byte>

  /** Instants and durations, in nanoseconds. */
  type Time = nat

  const MICROSECOND: Time := 1_000
  const SECOND: Time := 1_000_000_000

  datatype Option<+T> = None | Some(value: T)

  function Be16(hi: byte, lo: byte): (w: word16) {
    hi * 256 + lo
  }

  function Hi(w: word16): byte {
    w / 256
  }

  function Lo(w: word16): byte {
    w % 256
  }

  lemma TwoBytes(w: word16)
    ensures Be16(Hi(w), Lo(w)) == w
  {
  }

  function Min(a: int, b: int): int {
    if a < b then a else b
  }

  function Max(a: int, b: int): int {
    if a < b then b else a
  }

  lemma SliceOfSlice<T>(d: seq<T>, a: nat, b: nat, i: nat, j: nat)
    requires a <= b <= |d| && i <= j <= b - a
    ensures d[a..b][i..j] == d[a + i..a + j]
  {
    assert forall k | 0 <= k < j - i :: d[a..b][i..j][k] == d[a..b][i + k] == d[a + i + k];
  }

  lemma SubsetSize<T>(a: set<T>, b: set<T>)
    requires a <= b
    ensures |a| <= |b| && (|a| == |b| ==> a == b)
  {
    assert b == a + (b - a);
    assert b - a == {} ==> a == b;
  }
}

/** Sums over the values of a finite map. */
module MapSums {
  /** One element for every unit of every value. */
  ghost function Units<K, V>(m: map<K, V>, f: V -> nat): set<(K, nat)> {
    set k, i: nat | k in m && i < f(m[k]) :: (k, i)
  }

  ghost function Sum<K, V>(m: map<K, V>, f: V -> nat): nat {
    |Units(m, f)|
  }

  ghost function Row<K>(k: K, n: nat): set<(K, nat)> {
    set i: nat | i < n :: (k, i)
  }

  lemma {:induction false} RowSize<K>(k: K, n: nat)
    ensures |Row(k, n)| == n
    decreases n
  {
    if n == 0 {
      assert Row(k, 0) == {};
    } else {
      RowSize(k, n - 1);
      assert Row(k, n) == Row(k, n - 1) + {(k, n - 1)};
    }
  }

  lemma SumPick<K, V>(m: map<K, V>, f: V -> nat, k: K)
    requires k in m
    ensures Sum(m, f) == f(m[k]) + Sum(m - {k}, f)
  {
    var row, rest := Row(k, f(m[k])), Units(m - {k}, f);
    RowSize(k, f(m[k]));
    assert Units(m, f) == row + rest;
    assert row * rest == {};
  }

  lemma SumRemove<K, V>(m: map<K, V>, f: V -> nat, k: K)
    ensures Sum(m - {k}, f) == Sum(m, f) - if k in m then f(m[k]) else 0
  {
    if k in m {
      SumPick(m, f, k);
    } else {
      assert m - {k} == m;
    }
  }

  lemma SumUpdate<K, V>(m: map<K, V>, f: V -> nat, k: K, v: V)
    ensures Sum(m[k := v], f) == Sum(m, f) + f(v) - if k in m then f(m[k]) else 0
  {
    SumPick(m[k := v], f, k);
    assert m[k := v] - {k} == m - {k};
    SumRemove(m, f, k);
  }

  lemma SumEmpty<K, V>(m: map<K, V>, f: V -> nat)
    requires m.Keys == {}
    ensures Sum(m, f) == 0
  {
    assert Units(m, f) == {};
  }

  lemma SumSubmap<K, V>(m': map<K, V>, m: map<K, V>, f: V -> nat)
    requires m'.Keys <= m.Keys && forall k :: k in m' ==> m'[k] == m[k]
    ensures Sum(m', f) <= Sum(m, f)
  {
    assert Units(m, f) == Units(m', f) + (Units(m, f) - Units(m', f));
  }
}
