/** The part of a list that is kept: each element where it is, and no others. */
module Parts {
  /** The elements at these places, in order, and no others, are those to keep. */
  ghost predicate PartAt<T(!new)>(all: seq<T>, part: seq<T>, keep: T -> bool, at: seq<nat>) {
    Places(all, part, at) && Kept(all, keep, at)
  }

  /** The part consists of the elements at these places, in order. */
  ghost predicate Places<T(!new)>(all: seq<T>, part: seq<T>, at: seq<nat>) {
    && |at| == |part| && (forall i, j :: 0 <= i < j < |at| ==> at[i] < at[j])
    && forall i :: 0 <= i < |at| ==> at[i] < |all| && part[i] == all[at[i]]
  }

  ghost predicate Kept<T(!new)>(all: seq<T>, keep: T -> bool, at: seq<nat>) {
    forall j: nat :: j in at <==> j < |all| && keep(all[j])
  }

  /** The elements to keep, each once and in order. */
  ghost predicate PartOf<T(!new)>(all: seq<T>, part: seq<T>, keep: T -> bool) {
    exists at :: PartAt(all, part, keep, at)
  }

  lemma NoPart<T(!new)>(keep: T -> bool)
    ensures PartOf([], [], keep)
  {
    assert PartAt([], [], keep, []);
  }

  lemma PartStep<T(!new)>(all: seq<T>, part: seq<T>, keep: T -> bool, x: T)
    requires PartOf(all, part, keep)
    ensures PartOf(all + [x], if keep(x) then part + [x] else part, keep)
  {
    var at: seq<nat> :| PartAt(all, part, keep, at);
    var at' := if keep(x) then at + [|all|] else at;
    PlacesStep(all, part, keep, x, at);
    KeptStep(all, keep, x, at);
    assert PartAt(all + [x], if keep(x) then part + [x] else part, keep, at');
  }

  lemma PlacesStep<T(!new)>(all: seq<T>, part: seq<T>, keep: T -> bool, x: T, at: seq<nat>)
    requires Places(all, part, at)
    ensures if keep(x) then Places(all + [x], part + [x], at + [|all|]) else Places(all + [x], part, at)
  {
  }

  lemma KeptStep<T(!new)>(all: seq<T>, keep: T -> bool, x: T, at: seq<nat>)
    requires Kept(all, keep, at)
    ensures Kept(all + [x], keep, if keep(x) then at + [|all|] else at)
  {
    var at' := if keep(x) then at + [|all|] else at;
    forall j: nat ensures j in at' <==> j < |all + [x]| && keep((all + [x])[j]) {
      if j < |all| { assert (all + [x])[j] == all[j]; }
    }
  }

  /** The places of the elements to keep. */
  ghost function PlacesOf<T>(s: seq<T>, keep: T -> bool): set<int> {
    set i | 0 <= i < |s| && keep(s[i])
  }

  lemma OneMorePlace<T>(s: seq<T>, keep: T -> bool)
    requires s != []
    ensures |PlacesOf(s, keep)| == |PlacesOf(s[..|s| - 1], keep)| + if keep(s[|s| - 1]) then 1 else 0
  {
    var n := |s| - 1;
    assert PlacesOf(s, keep) == PlacesOf(s[..n], keep) + if keep(s[n]) then {n} else {};
  }

  lemma NoPlaces<T>(keep: T -> bool)
    ensures PlacesOf([], keep) == {}
  {
  }
}
