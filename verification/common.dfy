/** Vocabulary shared by every module: options, bytes, wrapping counters and
    sums over sequences. */
module Common {

  datatype Option<+T> = None | Some(value: T)

  type byte = x: int | 0 <= x < 256
  type bytes = seq<byte>

  /** The number of values of Rust's `u64`. */
  const U64: nat := 0x1_0000_0000_0000_0000

  /** `AtomicU64::fetch_add`: addition that wraps. */
  function FetchAdd(x: nat, n: nat): (r: nat)
    ensures r < U64
  {
    (x + n) % U64
  }

  /** Adding to a wrapped counter is adding and then wrapping. */
  lemma FetchAddWraps(total: nat, n: nat)
    ensures FetchAdd(total % U64, n) == (total + n) % U64
  {}

  /** A counter goes from its last value, in full, back to 0. */
  lemma FetchAddOverflows(x: nat)
    requires x <= 18446744073709551615
    ensures FetchAdd(x, 1) == if x == 18446744073709551615 then 0 else x + 1
  {}

  lemma AddThenRemove<K, V>(m: map<K, V>, k: K, v: V)
    ensures m[k := v] - {k} == m - {k}
  {}

  /** The sum of `f` over `s`. */
  ghost function Total<T>(f: T -> nat, s: seq<T>): nat {
    if s == [] then 0 else Total(f, s[..|s| - 1]) + f(s[|s| - 1])
  }

  lemma TotalAppend<T>(f: T -> nat, s: seq<T>, x: T)
    ensures Total(f, s + [x]) == Total(f, s) + f(x)
  {
    assert (s + [x])[..|s|] == s;
  }

  lemma {:induction false} TotalUpdate<T>(f: T -> nat, s: seq<T>, i: nat, x: T)
    requires i < |s|
    ensures Total(f, s[i := x]) + f(s[i]) == Total(f, s) + f(x)
  {
    var n := |s| - 1;
    if i == n {
      assert s[i := x][..n] == s[..n];
    } else {
      assert s[i := x][..n] == s[..n][i := x];
      TotalUpdate(f, s[..n], i, x);
    }
  }

  lemma {:induction false} TotalBoundsPart<T>(f: T -> nat, s: seq<T>, i: nat)
    requires i < |s|
    ensures f(s[i]) <= Total(f, s)
  {
    if i < |s| - 1 {
      assert s[..|s| - 1][i] == s[i];
      TotalBoundsPart(f, s[..|s| - 1], i);
    }
  }

  /** Without its element at `i`, a sequence adds up to that much less. */
  lemma {:induction false} TotalWithout<T>(f: T -> nat, s: seq<T>, i: nat)
    requires i < |s|
    ensures Total(f, s[..i] + s[i + 1..]) + f(s[i]) == Total(f, s)
  {
    var n := |s| - 1;
    if i == n {
      assert s[..i] + s[i + 1..] == s[..n];
    } else {
      var t := s[..i] + s[i + 1..];
      assert t[..|t| - 1] == s[..n][..i] + s[..n][i + 1..];
      TotalWithout(f, s[..n], i);
    }
  }
}
