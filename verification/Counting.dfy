/** How many elements of a sequence satisfy a predicate, and how one update changes that. */
module Counting {
  function CountIf<T>(s: seq<T>, p: T -> bool): nat
    decreases |s|
  {
    if s == [] then 0 else (if p(s[0]) then 1 else 0) + CountIf(s[1..], p)
  }

  lemma {:induction false} CountUpdate<T>(s: seq<T>, p: T -> bool, i: nat, x: T)
    requires i < |s|
    ensures CountIf(s[i := x], p) == CountIf(s, p) - (if p(s[i]) then 1 else 0) + (if p(x) then 1 else 0)
    decreases |s|
  {
    if i == 0 {
      assert s[i := x][1..] == s[1..];
    } else {
      assert s[i := x][1..] == s[1..][i - 1 := x];
      CountUpdate(s[1..], p, i - 1, x);
    }
  }

  lemma {:induction false} CountNone<T>(s: seq<T>, p: T -> bool)
    requires forall i: nat | i < |s| :: !p(s[i])
    ensures CountIf(s, p) == 0
    decreases |s|
  {
    if s != [] {
      assert forall i: nat | i < |s[1..]| :: s[1..][i] == s[i + 1];
      CountNone(s[1..], p);
    }
  }
}
