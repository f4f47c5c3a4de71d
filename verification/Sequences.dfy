// Picking elements out of a sequence by a sequence of marks.
module Sequences {

  // The elements of s whose mark in keep is set, in order; and the others.
  function Kept<T>(s: seq<T>, keep: seq<bool>): (r: seq<T>)
    requires |s| == |keep|
    ensures |r| <= |s|
    decreases |s|
  {
    if s == [] then []
    else
      var r := Kept(s[..|s| - 1], keep[..|s| - 1]);
      if keep[|s| - 1] then r + [s[|s| - 1]] else r
  }

  function Dropped<T>(s: seq<T>, keep: seq<bool>): (r: seq<T>)
    requires |s| == |keep|
    decreases |s|
  {
    if s == [] then []
    else
      var r := Dropped(s[..|s| - 1], keep[..|s| - 1]);
      if keep[|s| - 1] then r else r + [s[|s| - 1]]
  }

  lemma NextKept<T>(s: seq<T>, keep: seq<bool>, k: nat)
    requires |s| == |keep| && k < |s|
    ensures Kept(s[..k + 1], keep[..k + 1]) == Kept(s[..k], keep[..k]) + if keep[k] then [s[k]] else []
    ensures Dropped(s[..k + 1], keep[..k + 1]) == Dropped(s[..k], keep[..k]) + if keep[k] then [] else [s[k]]
  {
    assert s[..k + 1][..k] == s[..k] && keep[..k + 1][..k] == keep[..k];
  }

  lemma SpliceKept<T>(kept: seq<T>, s: seq<T>, k: nat)
    requires k < |s|
    ensures var t := kept + s[k..];
            t[|kept|] == s[k] && t[..|kept|] + t[|kept| + 1..] == kept + s[k + 1..] && t == (kept + [s[k]]) + s[k + 1..]
    ensures kept + [] == kept
  {}

  lemma {:induction false} KeptMembers<T>(s: seq<T>, keep: seq<bool>, x: T)
    requires |s| == |keep|
    ensures x in Kept(s, keep) <==> exists i :: 0 <= i < |s| && keep[i] && s[i] == x
    decreases |s|
  {
    if s != [] {
      var n := |s| - 1;
      KeptMembers(s[..n], keep[..n], x);
      if exists i :: 0 <= i < |s| && keep[i] && s[i] == x {
        var i :| 0 <= i < |s| && keep[i] && s[i] == x;
        if i < n {
          assert s[..n][i] == x && keep[..n][i];
        }
      }
    }
  }

  // Nothing is lost and nothing is doubled by splitting a sequence into kept and dropped.
  lemma {:induction false} KeptAndDropped<T>(s: seq<T>, keep: seq<bool>)
    requires |s| == |keep|
    ensures multiset(Kept(s, keep)) + multiset(Dropped(s, keep)) == multiset(s)
    decreases |s|
  {
    if s != [] {
      var n := |s| - 1;
      KeptAndDropped(s[..n], keep[..n]);
      assert s == s[..n] + [s[n]];
    }
  }

  lemma {:induction false} DroppedMembers<T>(s: seq<T>, keep: seq<bool>, x: T)
    requires |s| == |keep|
    ensures x in Dropped(s, keep) <==> exists i :: 0 <= i < |s| && !keep[i] && s[i] == x
    decreases |s|
  {
    if s != [] {
      var n := |s| - 1;
      DroppedMembers(s[..n], keep[..n], x);
      if exists i :: 0 <= i < |s| && !keep[i] && s[i] == x {
        var i :| 0 <= i < |s| && !keep[i] && s[i] == x;
        if i < n {
          assert s[..n][i] == x && !keep[..n][i];
        }
      }
    }
  }
}
