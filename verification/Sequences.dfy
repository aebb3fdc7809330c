/** Sequence operations shared by several components. */
module Sequences {

  function Map<A, B>(f: A -> B, s: seq<A>): (r: seq<B>)
    ensures |r| == |s|
    ensures forall i :: 0 <= i < |s| ==> r[i] == f(s[i])
  {
    if s == [] then [] else [f(s[0])] + Map(f, s[1..])
  }

  function Filter<T>(keep: T -> bool, s: seq<T>): seq<T> {
    if s == [] then []
    else if keep(s[0]) then [s[0]] + Filter(keep, s[1..])
    else Filter(keep, s[1..])
  }

  /** `s[:n]`, which Python clips to the length of `s`. */
  function Take<T>(s: seq<T>, n: nat): seq<T> {
    if n < |s| then s[..n] else s
  }

  /** `s` with every element dropped whose key equals the key of its predecessor. */
  function Collapse<T, K(==)>(key: T -> K, s: seq<T>): seq<T> {
    if |s| <= 1 then s
    else if key(s[|s| - 1]) == key(s[|s| - 2]) then Collapse(key, s[..|s| - 1])
    else Collapse(key, s[..|s| - 1]) + [s[|s| - 1]]
  }

  /** A collapsed sequence ends with the key the original ended with. */
  lemma {:induction false} CollapseKeepsLastKey<T, K>(key: T -> K, s: seq<T>)
    requires s != []
    ensures Collapse(key, s) != []
    ensures key(Collapse(key, s)[|Collapse(key, s)| - 1]) == key(s[|s| - 1])
  {
    if |s| > 1 {
      CollapseKeepsLastKey(key, s[..|s| - 1]);
    }
  }

  /** Nothing but adjacent repeats is removed: no two neighbours share a key, and what is
      kept is exactly each element that differs from the one before it. */
  lemma {:induction false} CollapseIsAdjacentFree<T, K>(key: T -> K, s: seq<T>)
    ensures forall i :: 0 < i < |Collapse(key, s)| ==>
              key(Collapse(key, s)[i - 1]) != key(Collapse(key, s)[i])
    ensures forall x :: x in Collapse(key, s) <==>
              exists i :: 0 <= i < |s| && s[i] == x && (i == 0 || key(s[i - 1]) != key(s[i]))
  {
    if |s| > 1 {
      var front := s[..|s| - 1];
      CollapseIsAdjacentFree(key, front);
      CollapseKeepsLastKey(key, front);
      assert forall i :: 0 <= i < |front| ==> front[i] == s[i];
      forall x
        ensures x in Collapse(key, s) <==>
                exists i :: 0 <= i < |s| && s[i] == x && (i == 0 || key(s[i - 1]) != key(s[i]))
      {
        if x in Collapse(key, front) {
          var i :| 0 <= i < |front| && front[i] == x && (i == 0 || key(front[i - 1]) != key(front[i]));
          assert s[i] == x && (i == 0 || key(s[i - 1]) != key(s[i]));
        }
      }
    }
  }

  /** Collapsing depends on the elements only through which neighbours share a key. */
  lemma {:induction false} CollapseOfImages<A, B, K, L>(
      f: A -> B, keyA: A -> K, keyB: B -> L, s: seq<A>, t: seq<B>)
    requires |s| == |t|
    requires forall i :: 0 <= i < |s| ==> t[i] == f(s[i])
    requires forall i :: 0 < i < |s| ==>
               (keyB(t[i - 1]) == keyB(t[i]) <==> keyA(s[i - 1]) == keyA(s[i]))
    ensures |Collapse(keyA, s)| == |Collapse(keyB, t)|
    ensures forall i :: 0 <= i < |Collapse(keyA, s)| ==>
              Collapse(keyB, t)[i] == f(Collapse(keyA, s)[i])
  {
    if |s| > 1 {
      CollapseOfImages(f, keyA, keyB, s[..|s| - 1], t[..|t| - 1]);
    }
  }

  /** A longer sequence collapses to an extension of what its prefix collapses to. */
  lemma {:induction false} CollapsePrefix<T, K>(key: T -> K, s: seq<T>, n: nat)
    requires n <= |s|
    ensures Collapse(key, s[..n]) <= Collapse(key, s)
  {
    if n == |s| {
      assert s[..n] == s;
    } else if |s| <= 1 {
      assert s[..n] == [];
    } else {
      var front := s[..|s| - 1];
      CollapsePrefix(key, front, n);
      assert front[..n] == s[..n];
    }
  }

  lemma Associates<T>(s: seq<T>, t: seq<T>, u: seq<T>)
    ensures s + (t + u) == s + t + u
  {
  }
}
