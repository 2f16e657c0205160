/**
 Sorting by byte key, as `slices.SortFunc` with `bytes.Compare` does it: the sort is given as the
 sequence of source indices in sorted order, so that one order rearranges keys, values and entries
 alike.
 */
module KeyOrder {
  import opened Bytes

  ghost predicate Strict(keys: seq<bytes>) {
    forall i, j :: 0 <= i < j < |keys| ==> Less(keys[i], keys[j])
  }

  ghost predicate Unique(keys: seq<bytes>) {
    forall i, j :: 0 <= i < j < |keys| ==> keys[i] != keys[j]
  }

  ghost predicate NoRepeats(o: seq<nat>) {
    forall i, j :: 0 <= i < j < |o| ==> o[i] != o[j]
  }

  ghost predicate Indices(o: seq<nat>, n: nat) {
    && |o| == n
    && (forall i :: 0 <= i < n ==> o[i] < n)
    && NoRepeats(o)
    && (forall x: nat :: x in o <==> x < n)
  }

  ghost predicate SortedBy(o: seq<nat>, keys: seq<bytes>) {
    && (forall i :: 0 <= i < |o| ==> o[i] < |keys|)
    && (forall i, j :: 0 <= i < j < |o| ==> !Less(keys[o[j]], keys[o[i]]))
  }

  /** Puts index `k` behind every index whose key is not above its own. */
  function Insert(keys: seq<bytes>, o: seq<nat>, k: nat): (r: seq<nat>)
    requires k < |keys| && forall i :: 0 <= i < |o| ==> o[i] < |keys|
    ensures |r| == |o| + 1
    ensures forall i :: 0 <= i < |r| ==> r[i] < |keys|
    ensures forall x :: x in r <==> x in o || x == k
  {
    if o == [] || !Less(keys[k], keys[o[|o| - 1]]) then o + [k]
    else
      assert o == o[..|o| - 1] + [o[|o| - 1]];
      Insert(keys, o[..|o| - 1], k) + [o[|o| - 1]]
  }

  /** The indices of `keys` in increasing key order. */
  function Order(keys: seq<bytes>): (o: seq<nat>)
    ensures |o| == |keys|
    ensures forall i :: 0 <= i < |o| ==> o[i] < |keys|
  {
    OrderPrefix(keys, |keys|)
  }

  function OrderPrefix(keys: seq<bytes>, n: nat): (o: seq<nat>)
    requires n <= |keys|
    ensures |o| == n
    ensures forall i :: 0 <= i < n ==> o[i] < n
    ensures forall x: nat :: x in o <==> x < n
  {
    if n == 0 then [] else
      var r := Insert(keys, OrderPrefix(keys, n - 1), n - 1);
      assert forall i :: 0 <= i < n ==> r[i] in r;
      r
  }

  function Permute<T>(s: seq<T>, o: seq<nat>): (r: seq<T>)
    requires forall i :: 0 <= i < |o| ==> o[i] < |s|
    ensures |r| == |o| && forall i :: 0 <= i < |o| ==> r[i] == s[o[i]]
  {
    seq(|o|, i requires 0 <= i < |o| => s[o[i]])
  }

  lemma {:induction false} InsertSorted(keys: seq<bytes>, o: seq<nat>, k: nat)
    requires k < |keys| && SortedBy(o, keys)
    ensures SortedBy(Insert(keys, o, k), keys)
  {
    var r := Insert(keys, o, k);
    if o == [] {
    } else if !Less(keys[k], keys[o[|o| - 1]]) {
      forall i | 0 <= i < |o| ensures !Less(keys[k], keys[o[i]]) {
        if Less(keys[k], keys[o[i]]) {
          LessTotal(keys[o[|o| - 1]], keys[k]);
          if Less(keys[o[|o| - 1]], keys[k]) {
            LessTransitive(keys[o[|o| - 1]], keys[k], keys[o[i]]);
          }
        }
      }
    } else {
      var last := o[|o| - 1];
      var init := Insert(keys, o[..|o| - 1], k);
      InsertSorted(keys, o[..|o| - 1], k);
      forall i | 0 <= i < |init| ensures !Less(keys[last], keys[init[i]]) {
        assert init[i] in init;
        if init[i] == k {
          if Less(keys[last], keys[k]) {
            LessTransitive(keys[last], keys[k], keys[last]);
            LessIrreflexive(keys[last]);
          }
        } else {
          assert init[i] in o[..|o| - 1];
        }
      }
    }
  }

  lemma {:induction false} InsertIndices(keys: seq<bytes>, o: seq<nat>, k: nat)
    requires k < |keys| && forall i :: 0 <= i < |o| ==> o[i] < |keys|
    requires k !in o && NoRepeats(o)
    ensures NoRepeats(Insert(keys, o, k))
  {
    if o == [] || !Less(keys[k], keys[o[|o| - 1]]) {
    } else {
      var init := Insert(keys, o[..|o| - 1], k);
      InsertIndices(keys, o[..|o| - 1], k);
      assert o[|o| - 1] !in init;
    }
  }

  /** `Order` is a sorted rearrangement: every index occurs once, and keys never go down. */
  lemma OrderSorts(keys: seq<bytes>)
    ensures Indices(Order(keys), |keys|)
    ensures SortedBy(Order(keys), keys)
  {
    OrderPrefixSorts(keys, |keys|);
  }

  lemma {:induction false} OrderPrefixSorts(keys: seq<bytes>, n: nat)
    requires n <= |keys|
    ensures Indices(OrderPrefix(keys, n), n)
    ensures SortedBy(OrderPrefix(keys, n), keys)
  {
    if n > 0 {
      OrderPrefixSorts(keys, n - 1);
      InsertSorted(keys, OrderPrefix(keys, n - 1), n - 1);
      InsertIndices(keys, OrderPrefix(keys, n - 1), n - 1);
    }
  }

  /** With pairwise different keys the sorted keys strictly increase, and only then. */
  lemma OrderStrict(keys: seq<bytes>)
    ensures Unique(keys) <==> Strict(Permute(keys, Order(keys)))
  {
    OrderSorts(keys);
    var o := Order(keys);
    var s := Permute(keys, o);
    if Unique(keys) {
      forall i, j | 0 <= i < j < |s| ensures Less(s[i], s[j]) {
        LessTotal(s[i], s[j]);
        assert o[i] != o[j];
      }
    }
    if Strict(s) {
      forall i, j | 0 <= i < j < |keys| ensures keys[i] != keys[j] {
        assert i in o && j in o;
        var a :| 0 <= a < |o| && o[a] == i;
        var b :| 0 <= b < |o| && o[b] == j;
        LessIrreflexive(keys[i]);
        assert a < b || b < a;
        assert s[a] == keys[i] && s[b] == keys[j];
      }
    }
  }

  lemma InsertLast(keys: seq<bytes>, o: seq<nat>, k: nat)
    requires k < |keys| && (forall i :: 0 <= i < |o| ==> o[i] < |keys|)
    requires o == [] || !Less(keys[k], keys[o[|o| - 1]])
    ensures Insert(keys, o, k) == o + [k]
  {
  }

  lemma NotLessBackwards(keys: seq<bytes>, i: nat, j: nat)
    requires Strict(keys) && i < j < |keys|
    ensures !Less(keys[j], keys[i])
  {
    if Less(keys[j], keys[i]) {
      LessTransitive(keys[i], keys[j], keys[i]);
      LessIrreflexive(keys[i]);
    }
  }

  /** Keys already in strictly increasing order stay where they are. */
  lemma {:induction false} OrderOfStrict(keys: seq<bytes>, n: nat)
    requires n <= |keys| && Strict(keys)
    ensures forall i :: 0 <= i < n ==> OrderPrefix(keys, n)[i] == i
  {
    hide Less, Strict, Insert;
    if n > 0 {
      OrderOfStrict(keys, n - 1);
      if n > 1 { NotLessBackwards(keys, n - 2, n - 1); }
      InsertLast(keys, OrderPrefix(keys, n - 1), n - 1);
    }
  }

  /** Two strictly increasing sequences with the same elements are the same sequence. */
  lemma {:induction false} StrictUnique(s: seq<bytes>, t: seq<bytes>)
    requires Strict(s) && Strict(t)
    requires forall x :: x in s <==> x in t
    ensures s == t
  {
    EmptyTogether(s, t);
    EmptyTogether(t, s);
    if s != [] {
      HeadLeast(s, t[0]);
      HeadLeast(t, s[0]);
      if s[0] != t[0] {
        LessTransitive(s[0], t[0], s[0]);
        LessIrreflexive(s[0]);
      }
      forall x ensures x in s[1..] <==> x in t[1..] {
        TailMember(s, x);
        TailMember(t, x);
      }
      StrictUnique(s[1..], t[1..]);
      assert s == [s[0]] + s[1..] && t == [t[0]] + t[1..];
    }
  }

  lemma EmptyTogether(s: seq<bytes>, t: seq<bytes>)
    requires forall x :: x in s ==> x in t
    ensures t == [] ==> s == []
  {
    if s != [] {
      assert s[0] in t;
    }
  }

  lemma HeadLeast(s: seq<bytes>, x: bytes)
    requires Strict(s) && x in s
    ensures x == s[0] || Less(s[0], x)
  {
    var i :| 0 <= i < |s| && s[i] == x;
  }

  lemma TailMember(s: seq<bytes>, x: bytes)
    requires Strict(s) && s != []
    ensures x in s[1..] <==> x in s && x != s[0]
  {
    LessIrreflexive(s[0]);
    if x in s && x != s[0] {
      var i :| 0 <= i < |s| && s[i] == x;
      assert s[1..][i - 1] == x;
    }
    if x in s[1..] {
      var i :| 0 <= i < |s| - 1 && s[1..][i] == x;
      assert Less(s[0], s[i + 1]);
    }
  }
}
