/** Small datatypes and sequence facts shared by the other modules. */
module Prelude {

  datatype Option<+T> = None | Some(value: T)

  type Byte = x: int | 0 <= x < 256

  function Max(a: int, b: int): int {
    if a >= b then a else b
  }

  function Min(a: int, b: int): int {
    if a <= b then a else b
  }

  /** The elements of `s` that satisfy `p`, in their order. */
  function Filter<T>(s: seq<T>, p: T -> bool): (r: seq<T>)
    ensures forall x :: x in r ==> x in s && p(x)
    ensures forall x :: x in s && p(x) ==> x in r
    ensures |r| <= |s|
  {
    if s == [] then []
    else
      var rest := Filter(s[..|s| - 1], p);
      if p(s[|s| - 1]) then rest + [s[|s| - 1]] else rest
  }

  lemma {:induction false} FilterConcat<T>(a: seq<T>, b: seq<T>, p: T -> bool)
    ensures Filter(a + b, p) == Filter(a, p) + Filter(b, p)
  {
    if b == [] {
      assert a + b == a;
    } else {
      assert (a + b)[..|a + b| - 1] == a + b[..|b| - 1];
      FilterConcat(a, b[..|b| - 1], p);
    }
  }

  /** `r` is the elements of `s` that satisfy `p`, each occurrence once, in their order; `at` says where they were. */
  ghost predicate SelectedAt<T>(s: seq<T>, r: seq<T>, p: T -> bool, at: seq<nat>) {
    && |at| == |r|
    && (forall k :: 0 <= k < |r| ==> at[k] < |s| && s[at[k]] == r[k])
    && (forall k, l :: 0 <= k < l < |r| ==> at[k] < at[l])
    && (forall i: nat :: i in at <==> i < |s| && p(s[i]))
  }

  ghost predicate Selects<T>(s: seq<T>, r: seq<T>, p: T -> bool) {
    exists at: seq<nat> :: SelectedAt(s, r, p, at)
  }

  lemma SelectSame<T>(s: seq<T>, r: seq<T>, p: T -> bool, q: T -> bool)
    requires Selects(s, r, p) && forall x <- s :: p(x) == q(x)
    ensures Selects(s, r, q)
  {
    var at: seq<nat> :| SelectedAt(s, r, p, at);
    assert SelectedAt(s, r, q, at);
  }

  lemma SelectMore<T>(s: seq<T>, r: seq<T>, p: T -> bool, at: seq<nat>, x: T)
    requires SelectedAt(s, r, p, at)
    ensures p(x) ==> SelectedAt(s + [x], r + [x], p, at + [|s|])
    ensures !p(x) ==> SelectedAt(s + [x], r, p, at)
  {
    var longer, more := s + [x], at + [|s|];
    assert forall k :: 0 <= k < |r| ==> at[k] in at;
    assert forall i: nat :: i in more <==> i in at || i == |s|;
  }

  /** Where the elements that satisfy `p` stand. */
  ghost function Positions<T>(s: seq<T>, p: T -> bool): seq<nat> {
    if s == [] then [] else Positions(s[..|s| - 1], p) + if p(s[|s| - 1]) then [|s| - 1] else []
  }

  lemma {:induction false} FilterSelectsAt<T>(s: seq<T>, p: T -> bool)
    ensures SelectedAt(s, Filter(s, p), p, Positions(s, p))
  {
    if s != [] {
      var front, last := s[..|s| - 1], s[|s| - 1];
      FilterSelectsAt(front, p);
      SelectMore(front, Filter(front, p), p, Positions(front, p), last);
      assert s == front + [last];
      assert Positions(front, p) + [] == Positions(front, p);
    }
  }

  lemma FilterSelects<T>(s: seq<T>, p: T -> bool)
    ensures Selects(s, Filter(s, p), p)
  {
    FilterSelectsAt(s, p);
  }

  /** Every occurrence of a character replaced by a string. */
  function ReplaceChar(s: string, c: char, sub: string): string {
    if s == "" then "" else (if s[0] == c then sub else [s[0]]) + ReplaceChar(s[1..], c, sub)
  }
}
