/**
 * The match filter of the miner (src/main.rs, `count_trailing_same_chars_optimized`,
 * the `>= min_same_chars` test and `get_repeated_char`): the length of the run of
 * equal elements that ends a sequence, and the threshold test built on it.
 *
 * The counter is generic in the element type; the miner applies it to the bytes
 * of the Base58 address (see module Generator).
 */
module Trailing {

  /** `n` is the length of the maximal run of elements equal to the last one:
      0 for the empty sequence, otherwise the last `n` elements equal the last
      element and the one before them (if any) does not. */
  ghost predicate IsTrailingRun<T>(s: seq<T>, n: nat)
  {
    if |s| == 0 then n == 0
    else
      && 1 <= n <= |s|
      && (forall i | |s| - n <= i < |s| :: s[i] == s[|s| - 1])
      && (n < |s| ==> s[|s| - n - 1] != s[|s| - 1])
  }

  /** The number of elements equal to `c` at the end of `s`, counted backwards
      up to the first element that differs. */
  function RunOf<T(==)>(s: seq<T>, c: T): (n: nat)
    ensures n <= |s|
    ensures forall i | |s| - n <= i < |s| :: s[i] == c
    ensures n < |s| ==> s[|s| - n - 1] != c
    decreases |s|
  {
    if |s| == 0 || s[|s| - 1] != c then 0
    else 1 + RunOf(s[..|s| - 1], c)
  }

  /** Reference definition of the trailing-run length. */
  function TrailingRun<T(==)>(s: seq<T>): (n: nat)
    ensures IsTrailingRun(s, n)
  {
    if |s| == 0 then 0 else RunOf(s, s[|s| - 1])
  }

  /** The characterisation pins the count down: at most one `n` is a maximal run. */
  lemma TrailingRunUnique<T>(s: seq<T>, n: nat, m: nat)
    requires IsTrailingRun(s, n) && IsTrailingRun(s, m)
    ensures n == m
  {
  }

  /** `count_trailing_same_chars_optimized`: walk the bytes from the end and count
      those equal to the last one, stopping at the first that differs. */
  method CountTrailingSame<T(==)>(bytes: seq<T>) returns (count: nat)
    ensures IsTrailingRun(bytes, count)
    ensures count == TrailingRun(bytes)
  {
    if |bytes| == 0 {
      return 0;
    }
    var last := bytes[|bytes| - 1];
    count := 0;
    var i := |bytes|;
    while i > 0
      invariant 0 <= i <= |bytes|
      invariant count == |bytes| - i
      invariant forall j | i <= j < |bytes| :: bytes[j] == last
      decreases i
    {
      if bytes[i - 1] == last {
        count := count + 1;
        i := i - 1;
      } else {
        break;
      }
    }
    TrailingRunUnique(bytes, count, TrailingRun(bytes));
  }

  /** The acceptance test of a candidate: its trailing run reaches the threshold. */
  predicate Accepts<T(==)>(s: seq<T>, minSameChars: nat)
  {
    TrailingRun(s) >= minSameChars
  }

  /** Acceptance is monotone in the threshold. */
  lemma AcceptsMonotone<T>(s: seq<T>, k: nat, k': nat)
    requires Accepts(s, k) && k' <= k
    ensures Accepts(s, k')
  {
  }

  /** For a positive threshold `k`, acceptance means exactly that the last `k`
      elements exist and are all equal. */
  lemma AcceptsIff<T>(s: seq<T>, k: nat)
    requires k >= 1
    ensures Accepts(s, k) <==> k <= |s| && forall i | |s| - k <= i < |s| :: s[i] == s[|s| - 1]
  {
  }

  /** `get_repeated_char`: the last character, or '?' for the empty string. */
  function RepeatedChar(s: string): char
  {
    if |s| == 0 then '?' else s[|s| - 1]
  }

  /** The character reported next to an accepted address is the one that fills
      its whole trailing run. */
  lemma RepeatedCharFillsRun(s: string)
    ensures |s| == 0 ==> RepeatedChar(s) == '?'
    ensures forall i | |s| - TrailingRun(s) <= i < |s| :: s[i] == RepeatedChar(s)
  {
  }

  /** The worked examples of the filter. */
  lemma Examples()
    ensures TrailingRun("aaa1111") == 4
    ensures TrailingRun("abc") == 1
    ensures TrailingRun("") == 0
    ensures TrailingRun("zzzzz") == 5
  {
    TrailingRunUnique("aaa1111", TrailingRun("aaa1111"), 4);
    TrailingRunUnique("abc", TrailingRun("abc"), 1);
    TrailingRunUnique("zzzzz", TrailingRun("zzzzz"), 5);
  }
}
