/** Values shared by every component: optional values, and the fate of a remote call. */
module Basics {

  datatype Option<+T> = None | Some(value: T)

  datatype Result<+T, +E> = Ok(value: T) | Err(error: E)

  /** What the transport does with one API call. `Rejected`: the call has no effect and the caller
      sees an error. `Lost`: the call takes effect but the caller sees an error. */
  datatype Fate = Delivered | Rejected | Lost

  /** No call numbered from .. to was disturbed by the transport. */
  ghost predicate Clean(fate: nat -> Fate, from: nat, to: nat) {
    forall k: nat :: from <= k < to ==> fate(k) == Delivered
  }

  predicate Distinct<T(==)>(s: seq<T>) {
    forall i, j :: 0 <= i < j < |s| ==> s[i] != s[j]
  }

  function ToSet<T(==)>(s: seq<T>): set<T> {
    set x | x in s
  }

  function Flatten<T>(parts: seq<seq<T>>): seq<T> {
    if parts == [] then [] else Flatten(parts[..|parts| - 1]) + parts[|parts| - 1]
  }

  /** No call numbered from .. to was made after a disturbed one. */
  ghost predicate StopsAtFault(fate: nat -> Fate, from: nat, to: nat) {
    forall k: nat :: from <= k < to - 1 ==> fate(k) == Delivered
  }

  lemma StopsLater(fate: nat -> Fate, i: nat, j: nat, k: nat)
    requires i <= j <= k && Clean(fate, i, j) && StopsAtFault(fate, j, k)
    ensures StopsAtFault(fate, i, k)
  {
  }

  lemma CleanSplits(fate: nat -> Fate, i: nat, j: nat, k: nat)
    requires i <= j <= k
    ensures Clean(fate, i, k) <==> Clean(fate, i, j) && Clean(fate, j, k)
  {
  }

  lemma ToSetAppend<T>(s: seq<T>, x: T)
    ensures ToSet(s + [x]) == ToSet(s) + {x}
  {
  }

  lemma Appended<T>(s: seq<T>, x: T)
    requires Distinct(s) && x !in ToSet(s)
    ensures Distinct(s + [x]) && ToSet(s + [x]) == ToSet(s) + {x}
  {
    assert forall i :: 0 <= i < |s| ==> s[i] in ToSet(s);
  }

  lemma Dropped<T>(s: seq<T>, i: nat)
    requires Distinct(s) && i < |s|
    ensures ToSet(s[i + 1..]) == ToSet(s[i..]) - {s[i]} && s[i] in ToSet(s[i..])
  {
    assert s[i..] == [s[i]] + s[i + 1..];
    assert s[i] !in s[i + 1..];
  }

  /** Visits the keys of a map in some order, as `range` over a Go map does. */
  method Enumerate<K(==), V>(m: map<K, V>) returns (keys: seq<K>)
    ensures Distinct(keys)
    ensures ToSet(keys) == m.Keys
  {
    keys := [];
    var rest := m.Keys;
    while rest != {}
      invariant Distinct(keys)
      invariant ToSet(keys) !! rest
      invariant ToSet(keys) + rest == m.Keys
      decreases rest
    {
      var k :| k in rest;
      keys := keys + [k];
      rest := rest - {k};
    }
  }
}
