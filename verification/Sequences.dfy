/** Insertion into and removal from a sequence, position by position. */
module Sequences {
  ghost predicate Distinct<T>(s: seq<T>) { forall i, j :: 0 <= i < j < |s| ==> s[i] != s[j] }

  ghost predicate Apart<T>(s: seq<T>, r: seq<T>) {
    forall i, j :: 0 <= i < |s| && 0 <= j < |r| ==> s[i] != r[j]
  }

  function Inserted<T>(s: seq<T>, k: nat, t: T): seq<T>
    requires k <= |s|
  {
    s[..k] + [t] + s[k..]
  }

  function Removed<T>(s: seq<T>, k: nat): seq<T>
    requires k < |s|
  {
    s[..k] + s[k + 1..]
  }

  lemma InsertedIndex<T>(s: seq<T>, k: nat, t: T)
    requires k <= |s|
    ensures |Inserted(s, k, t)| == |s| + 1
    ensures forall i :: 0 <= i < |s| + 1 ==>
      Inserted(s, k, t)[i] == if i < k then s[i] else if i == k then t else s[i - 1]
  {
  }

  lemma InsertedDistinct<T>(s: seq<T>, k: nat, t: T)
    requires k <= |s| && Distinct(s) && t !in s
    ensures Distinct(Inserted(s, k, t))
  {
    InsertedIndex(s, k, t);
    hide Inserted;
  }

  lemma RemovedIndex<T>(s: seq<T>, k: nat)
    requires k < |s|
    ensures |Removed(s, k)| == |s| - 1
    ensures forall i :: 0 <= i < |s| - 1 ==> Removed(s, k)[i] == if i < k then s[i] else s[i + 1]
  {
  }

  lemma RemovedDistinct<T>(s: seq<T>, k: nat)
    requires k < |s| && Distinct(s)
    ensures Distinct(Removed(s, k)) && s[k] !in Removed(s, k)
  {
    RemovedIndex(s, k);
    hide Removed;
  }

  lemma RemovedAndBack<T>(s: seq<T>, k: nat)
    requires k < |s|
    ensures Inserted(Removed(s, k), k, s[k]) == s
  {
    assert Removed(s, k)[..k] == s[..k] && Removed(s, k)[k..] == s[k + 1..];
  }
}
