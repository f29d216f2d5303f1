/**
 * The few pieces of JavaScript's built-in behaviour that the dispatcher relies on:
 * `String.prototype.indexOf`, `Array.prototype.indexOf` and `Array.prototype.join`.
 * They are written out because the difference between the two `indexOf`s is
 * what decides which file extensions the check mode accepts.
 */
module JsSemantics {

  /** The string `t` occurs in `s` starting at position `j`. */
  predicate OccursAt(s: string, t: string, j: nat)
  {
    j + |t| <= |s| && s[j..j + |t|] == t
  }

  /** `t` is a substring of `s` (the empty string is a substring of every string). */
  ghost predicate Contains(s: string, t: string)
  {
    exists j: nat :: OccursAt(s, t, j)
  }

  /** `s.indexOf(t, k)` for `k <= |s|`: the first position at or after `k` where `t` occurs in `s`, or -1. */
  function StringIndexFrom(s: string, t: string, k: nat): (r: int)
    requires k <= |s|
    ensures r == -1 || (k <= r && OccursAt(s, t, r))
    ensures r != -1 ==> forall j: nat :: k <= j < r ==> !OccursAt(s, t, j)
    ensures r == -1 <==> forall j: nat :: k <= j ==> !OccursAt(s, t, j)
    decreases |s| - k
  {
    if k + |t| > |s| then -1
    else if s[k..k + |t|] == t then k
    else StringIndexFrom(s, t, k + 1)
  }

  /** `s.indexOf(t)`: found exactly when `t` is a substring of `s`, and then at its first occurrence. */
  function StringIndexOf(s: string, t: string): (r: int)
    ensures r != -1 <==> Contains(s, t)
    ensures r != -1 ==> 0 <= r && OccursAt(s, t, r) && forall j: nat :: j < r ==> !OccursAt(s, t, j)
  {
    StringIndexFrom(s, t, 0)
  }

  /** `xs.indexOf(x, k)` on an array: the first index at or after `k` holding `x` (strict equality), or -1. */
  function ArrayIndexFrom<T(==)>(xs: seq<T>, x: T, k: nat): (r: int)
    ensures r == -1 || (k <= r < |xs| && xs[r] == x)
    ensures r != -1 ==> forall j :: k <= j < r ==> xs[j] != x
    ensures r == -1 <==> forall j :: k <= j < |xs| ==> xs[j] != x
    decreases |xs| - k
  {
    if k >= |xs| then -1
    else if xs[k] == x then k
    else ArrayIndexFrom(xs, x, k + 1)
  }

  /** `xs.indexOf(x)`: found exactly when `x` is an element of `xs`, and then at its first index. */
  function ArrayIndexOf<T(==)>(xs: seq<T>, x: T): (r: int)
    ensures r != -1 <==> x in xs
    ensures r != -1 ==> 0 <= r < |xs| && xs[r] == x && x !in xs[..r]
  {
    ArrayIndexFrom(xs, x, 0)
  }

  /** `parts.join(sep)`. */
  function Join(parts: seq<string>, sep: string): string
  {
    if |parts| == 0 then ""
    else if |parts| == 1 then parts[0]
    else parts[0] + sep + Join(parts[1..], sep)
  }
}
