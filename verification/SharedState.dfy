/**
 One direction of the memory two chains share: values by key, keys by trait, and tombstones for keys
 that were removed before they were put.
 */
module SharedState {
  import opened Results
  import opened Bytes
  import opened KeyOrder

  datatype Error = DuplicatePut | DuplicateRemove | NotFound

  datatype Element = Element(key: bytes, value: bytes, traits: seq<bytes>)

  /** A stored element; one that is not present is a tombstone. */
  datatype DbElement = DbElement(present: bool, value: bytes, traits: seq<bytes>)

  const TOMBSTONE := DbElement(false, [], [])

  /** The two databases; a trait list holds its keys newest first, and an empty one is not stored. */
  datatype Store = Store(values: map<bytes, DbElement>, index: map<bytes, seq<bytes>>)

  const EMPTY := Store(map[], map[])

  // ---------- trait lists ----------

  ghost predicate NoRepeat<T>(s: seq<T>) {
    forall i, j :: 0 <= i < j < |s| ==> s[i] != s[j]
  }

  /** The keys listed under a trait. */
  function Listed(index: map<bytes, seq<bytes>>, t: bytes): seq<bytes> {
    if t in index then index[t] else []
  }

  /** `linkeddb.Put`: a new key becomes the head, a known one keeps its place. */
  function ListPut(l: seq<bytes>, k: bytes): seq<bytes> {
    if k in l then l else [k] + l
  }

  function ListDelete(l: seq<bytes>, k: bytes): seq<bytes> {
    if l == [] then [] else if l[0] == k then l[1..] else [l[0]] + ListDelete(l[1..], k)
  }

  function SetList(index: map<bytes, seq<bytes>>, t: bytes, l: seq<bytes>): map<bytes, seq<bytes>> {
    if l == [] then index - {t} else index[t := l]
  }

  function AddKey(index: map<bytes, seq<bytes>>, traits: seq<bytes>, k: bytes): map<bytes, seq<bytes>> {
    if traits == [] then index else
      var t := traits[|traits| - 1];
      var before := AddKey(index, traits[..|traits| - 1], k);
      SetList(before, t, ListPut(Listed(before, t), k))
  }

  function DropKey(index: map<bytes, seq<bytes>>, traits: seq<bytes>, k: bytes): map<bytes, seq<bytes>> {
    if traits == [] then index else
      var t := traits[|traits| - 1];
      var before := DropKey(index, traits[..|traits| - 1], k);
      SetList(before, t, ListDelete(Listed(before, t), k))
  }

  /** No empty list is stored. */
  ghost predicate Compact(index: map<bytes, seq<bytes>>) {
    forall t :: t in index ==> index[t] != []
  }

  lemma {:induction false} AddKeyLists(index: map<bytes, seq<bytes>>, traits: seq<bytes>, k: bytes, t: bytes)
    requires Compact(index)
    ensures Compact(AddKey(index, traits, k))
    ensures Listed(AddKey(index, traits, k), t) ==
            if t in traits then ListPut(Listed(index, t), k) else Listed(index, t)
  {
    if traits != [] {
      var n := |traits| - 1;
      AddKeyLists(index, traits[..n], k, t);
      if t != traits[n] {
        assert t in traits <==> t in traits[..n];
      }
    }
  }

  lemma {:induction false} DropKeyLists(index: map<bytes, seq<bytes>>, traits: seq<bytes>, k: bytes, t: bytes)
    requires Compact(index) && NoRepeat(Listed(index, t))
    ensures Compact(DropKey(index, traits, k))
    ensures Listed(DropKey(index, traits, k), t) ==
            if t in traits then ListDelete(Listed(index, t), k) else Listed(index, t)
  {
    if traits != [] {
      var n := |traits| - 1;
      DropKeyLists(index, traits[..n], k, t);
      if t != traits[n] {
        assert t in traits <==> t in traits[..n];
      }
      DeleteTwice(Listed(index, t), k);
    }
  }

  lemma {:induction false} DeleteTwice(l: seq<bytes>, k: bytes)
    requires NoRepeat(l)
    ensures ListDelete(ListDelete(l, k), k) == ListDelete(l, k)
    ensures k !in ListDelete(l, k)
    ensures forall x :: x in ListDelete(l, k) ==> x in l
    ensures forall x :: x in l && x != k ==> x in ListDelete(l, k)
  {
    if l != [] {
      DeleteTwice(l[1..], k);
      if l[0] == k {
        assert k !in l[1..];
        DeleteAbsent(l[1..], k);
      } else {
        var r := ListDelete(l[1..], k);
        assert ([l[0]] + r)[1..] == r;
      }
    }
  }

  lemma {:induction false} DeleteAbsent(l: seq<bytes>, k: bytes)
    requires k !in l
    ensures ListDelete(l, k) == l
  {
    if l != [] {
      DeleteAbsent(l[1..], k);
    }
  }

  // ---------- operations ----------

  /** `SetValue`: a tombstone and a put cancel; a second put of a stored key is refused. */
  function Put(s: Store, e: Element): Result<Store, Error> {
    if e.key !in s.values then
      Ok(Store(s.values[e.key := DbElement(true, e.value, e.traits)], AddKey(s.index, e.traits, e.key)))
    else if !s.values[e.key].present then Ok(Store(s.values - {e.key}, s.index))
    else Err(DuplicatePut)
  }

  /** `RemoveValue`: removing an unknown key leaves a tombstone; removing a tombstone is refused. */
  function Remove(s: Store, k: bytes): Result<Store, Error> {
    if k !in s.values then Ok(Store(s.values[k := TOMBSTONE], s.index))
    else if !s.values[k].present then Err(DuplicateRemove)
    else Ok(Store(s.values - {k}, DropKey(s.index, s.values[k].traits, k)))
  }

  predicate Visible(s: Store, k: bytes) {
    k in s.values && s.values[k].present
  }

  /** The index agrees with the values: a trait lists exactly the visible keys that have it, each once. */
  ghost predicate Indexed(s: Store) {
    && Compact(s.index)
    && (forall t :: NoRepeat(Listed(s.index, t)))
    && (forall t, k :: ListsRightly(s, t, k))
  }

  /** What `Indexed` says of one key under one trait. */
  ghost predicate ListsRightly(s: Store, t: bytes, k: bytes) {
    k in Listed(s.index, t) <==> Visible(s, k) && t in s.values[k].traits
  }

  lemma PutIndexed(s: Store, e: Element)
    requires Indexed(s) && Put(s, e).Ok?
    ensures Indexed(Put(s, e).value)
  {
    hide AddKey, NoRepeat, Compact;
    var r := Put(s, e).value;
    AddKeyLists(s.index, e.traits, e.key, []);
    forall t ensures NoRepeat(Listed(r.index, t)) {
      AddKeyLists(s.index, e.traits, e.key, t);
      PutKeepsOrder(Listed(s.index, t), e.key);
    }
    forall t, k ensures ListsRightly(r, t, k) {
      AddKeyLists(s.index, e.traits, e.key, t);
      assert ListsRightly(s, t, k);
    }
    assert forall t, k :: ListsRightly(r, t, k);
  }

  lemma RemoveIndexed(s: Store, k: bytes)
    requires Indexed(s) && Remove(s, k).Ok?
    ensures Indexed(Remove(s, k).value)
  {
    hide DropKey, NoRepeat, Compact, ListDelete;
    var r := Remove(s, k).value;
    if Visible(s, k) {
      var traits := s.values[k].traits;
      DropKeyLists(s.index, traits, k, []);
      forall t ensures NoRepeat(Listed(r.index, t)) {
        DropKeyLists(s.index, traits, k, t);
        DeleteKeepsOrder(Listed(s.index, t), k);
      }
      forall t, x ensures ListsRightly(r, t, x) {
        DropKeyLists(s.index, traits, k, t);
        DeleteTwice(Listed(s.index, t), k);
        assert ListsRightly(s, t, x);
      }
    } else {
      forall t, x ensures ListsRightly(r, t, x) {
        assert ListsRightly(s, t, x);
      }
    }
    assert forall t, x :: ListsRightly(r, t, x);
  }

  lemma PutKeepsOrder(l: seq<bytes>, k: bytes)
    requires NoRepeat(l)
    ensures NoRepeat(ListPut(l, k))
  {
  }

  lemma {:induction false} DeleteKeepsOrder(l: seq<bytes>, k: bytes)
    requires NoRepeat(l)
    ensures NoRepeat(ListDelete(l, k))
  {
    if l != [] && l[0] != k {
      DeleteKeepsOrder(l[1..], k);
      DeleteTwice(l[1..], k);
      var r := ListDelete(l[1..], k);
      assert l[0] !in l[1..];
      assert l[0] !in r;
    }
  }

  /** What is refused, and for which reason: a put of a visible key, and a remove of one that was removed before. */
  lemma Refusals(s: Store, e: Element, k: bytes)
    ensures Put(s, e).Err? <==> e.key in s.values && s.values[e.key].present
    ensures Put(s, e).Err? ==> Put(s, e) == Err(DuplicatePut)
    ensures Remove(s, k).Err? <==> k in s.values && !s.values[k].present
    ensures Remove(s, k).Err? ==> Remove(s, k) == Err(DuplicateRemove)
  {
  }

  // ---------- lookup by trait ----------

  /** What a page of keys was cut from, and where it ended. */
  datatype Page = Page(keys: seq<bytes>, limit: int, lastTrait: bytes, lastKey: Option<bytes>)

  /** The list from `start` on, or from its head if `start` is not listed. */
  function From(l: seq<bytes>, start: Option<bytes>): seq<bytes> {
    if start.Some? && start.value in l then FromKey(l, start.value) else l
  }

  function FromKey(l: seq<bytes>, k: bytes): (r: seq<bytes>)
    requires k in l
    ensures forall x :: x in r ==> x in l
  {
    if l[0] == k then l else FromKey(l[1..], k)
  }

  /** Appends the keys of `l` not collected yet, as far as the limit allows. */
  function Collect(l: seq<bytes>, p: Page): (r: Page)
    ensures p.limit >= 0 ==> r.limit >= 0
    ensures |r.keys| + r.limit == |p.keys| + p.limit
    ensures p.keys <= r.keys && forall x :: x in r.keys ==> x in p.keys || x in l
    ensures r.limit > 0 ==> forall x :: x in l ==> x in r.keys
  {
    if l == [] || p.limit <= 0 then p
    else if l[0] in p.keys then Collect(l[1..], p.(lastKey := Some(l[0])))
    else
      var r := Collect(l[1..], p.(keys := p.keys + [l[0]], limit := p.limit - 1, lastKey := Some(l[0])));
      assert r.keys[|p.keys|] == l[0];
      r
  }

  lemma {:induction false} CollectNoRepeat(l: seq<bytes>, p: Page)
    requires NoRepeat(p.keys)
    ensures NoRepeat(Collect(l, p).keys)
  {
    if l == [] || p.limit <= 0 {
    } else if l[0] in p.keys {
      CollectNoRepeat(l[1..], p.(lastKey := Some(l[0])));
    } else {
      CollectNoRepeat(l[1..], p.(keys := p.keys + [l[0]], limit := p.limit - 1, lastKey := Some(l[0])));
    }
  }

  /** `getKeys` over traits already sorted. */
  function Pages(index: map<bytes, seq<bytes>>, traits: seq<bytes>, startTrait: bytes, startKey: Option<bytes>,
                 p: Page): (r: Page)
    ensures |r.keys| + r.limit == |p.keys| + p.limit && p.keys <= r.keys
    ensures p.limit >= 0 ==> r.limit >= 0
    ensures forall x :: x in r.keys ==> x in p.keys || exists t :: t in traits && x in Listed(index, t)
    decreases traits
  {
    if traits == [] then p
    else
      var t := traits[0];
      if Less(t, startTrait) then Pages(index, traits[1..], startTrait, startKey, p)
      else
        var from := if Less(startTrait, t) then None else startKey;
        var q := Collect(From(Listed(index, t), from), p.(lastTrait := t, lastKey := from));
        assert t in traits;
        if q.limit == 0 then q else Pages(index, traits[1..], startTrait, from, q)
  }

  lemma {:induction false} PagesNoRepeat(index: map<bytes, seq<bytes>>, traits: seq<bytes>, startTrait: bytes,
                                         startKey: Option<bytes>, p: Page)
    requires NoRepeat(p.keys)
    ensures NoRepeat(Pages(index, traits, startTrait, startKey, p).keys)
    decreases traits
  {
    if traits != [] {
      var t := traits[0];
      if Less(t, startTrait) {
        PagesNoRepeat(index, traits[1..], startTrait, startKey, p);
      } else {
        var from := if Less(startTrait, t) then None else startKey;
        var q := p.(lastTrait := t, lastKey := from);
        CollectNoRepeat(From(Listed(index, t), from), q);
        PagesNoRepeat(index, traits[1..], startTrait, from, Collect(From(Listed(index, t), from), q));
      }
    }
  }

  lemma {:induction false} PagesComplete(index: map<bytes, seq<bytes>>, traits: seq<bytes>, p: Page, t: bytes, k: bytes)
    requires t in traits && k in Listed(index, t)
    requires p.limit > 0 && Pages(index, traits, [], None, p).limit > 0
    ensures k in Pages(index, traits, [], None, p).keys
    decreases traits
  {
    var q := Collect(Listed(index, traits[0]), p.(lastTrait := traits[0], lastKey := None));
    assert !Less(traits[0], []);
    if t == traits[0] {
      assert k in q.keys;
    } else {
      assert t in traits[1..];
      PagesComplete(index, traits[1..], q, t, k);
    }
  }

  /** The first page of a lookup: visible keys with one of the traits, each once, and all of them if there is room. */
  lemma FirstPage(s: Store, traits: seq<bytes>, limit: int)
    requires Indexed(s)
    ensures var keys := Pages(s.index, traits, [], None, Page([], limit, [], None)).keys;
            && NoRepeat(keys) && (limit > 0 ==> |keys| <= limit)
            && (forall k :: k in keys ==> Visible(s, k) && exists t :: t in traits && t in s.values[k].traits)
            && (|keys| < limit ==> forall k, t :: Visible(s, k) && t in traits && t in s.values[k].traits ==> k in keys)
  {
    var p := Page([], limit, [], None);
    var r := Pages(s.index, traits, [], None, p);
    PagesNoRepeat(s.index, traits, [], None, p);
    forall k | k in r.keys ensures Visible(s, k) && exists t :: t in traits && t in s.values[k].traits {
      var t :| t in traits && k in Listed(s.index, t);
      assert ListsRightly(s, t, k);
    }
    if |r.keys| < limit {
      forall k, t | Visible(s, k) && t in traits && t in s.values[k].traits ensures k in r.keys {
        assert ListsRightly(s, t, k);
        PagesComplete(s.index, traits, p, t, k);
      }
    }
  }

  // ---------- where a page ends ----------

  /** The list from the first occurrence of the start key on, and all of it if the key is not listed. */
  lemma {:induction false} FromIs(l: seq<bytes>, start: Option<bytes>) returns (j: nat)
    ensures j <= |l| && From(l, start) == l[j..]
    ensures if start.Some? && start.value in l then j < |l| && l[j] == start.value && start.value !in l[..j] else j == 0
  {
    j := 0;
    if start.Some? && start.value in l { j := FromKeyIs(l, start.value); }
  }

  lemma {:induction false} FromKeyIs(l: seq<bytes>, k: bytes) returns (j: nat)
    requires k in l
    ensures j < |l| && FromKey(l, k) == l[j..] && l[j] == k && k !in l[..j]
  {
    j := 0;
    if l[0] != k {
      var i := FromKeyIs(l[1..], k);
      j := i + 1;
      assert l[..j] == [l[0]] + l[1..][..i];
    }
  }

  /** Each key where it first occurs. */
  function Firsts(ks: seq<bytes>): (r: seq<bytes>)
    ensures NoRepeat(r) && forall k :: k in r <==> k in ks
  {
    if ks == [] then [] else
      var n := |ks| - 1;
      var before := Firsts(ks[..n]);
      assert ks == ks[..n] + [ks[n]];
      if ks[n] in before then before else before + [ks[n]]
  }

  lemma FirstsStep(ks: seq<bytes>, k: bytes)
    ensures Firsts(ks + [k]) == if k in ks then Firsts(ks) else Firsts(ks) + [k]
  {
    assert (ks + [k])[..|ks|] == ks;
  }

  /** The list was gone through up to `m`, and what is new until then was collected. */
  ghost predicate CutAt(l: seq<bytes>, p: Page, before: seq<bytes>, r: Page, m: nat) {
    && m <= |l| && r.keys == Firsts(before + l[..m]) && r.lastTrait == p.lastTrait
    && r.lastKey == (if m == 0 then p.lastKey else Some(l[m - 1]))
    && (r.limit > 0 ==> m == |l|) && (p.limit <= 0 ==> m == 0)
    && (r.limit == 0 && p.limit > 0 ==> 0 < m && l[m - 1] !in before + l[..m - 1])
  }

  lemma {:induction false} CollectIs(l: seq<bytes>, p: Page, before: seq<bytes>) returns (m: nat)
    requires p.keys == Firsts(before)
    ensures m <= |l| && CutAt(l, p, before, Collect(l, p), m)
  {
    hide Firsts, NoRepeat, CutAt;
    m := 0;
    if l == [] || p.limit <= 0 {
      CutNothing(l, p, before);
    } else {
      FirstsStep(before, l[0]);
      var q := Took(p, l[0]);
      var i := CollectIs(l[1..], q, before + [l[0]]);
      m := i + 1;
      CutMore(l, p, before, Collect(l[1..], q), i);
    }
  }

  function Took(p: Page, k: bytes): Page {
    if k in p.keys then p.(lastKey := Some(k)) else p.(keys := p.keys + [k], limit := p.limit - 1, lastKey := Some(k))
  }

  lemma CutNothing(l: seq<bytes>, p: Page, before: seq<bytes>)
    requires p.keys == Firsts(before) && (l == [] || p.limit <= 0)
    ensures CutAt(l, p, before, p, 0)
  {
    assert before + l[..0] == before;
  }

  lemma CutMore(l: seq<bytes>, p: Page, before: seq<bytes>, r: Page, i: nat)
    requires l != [] && p.limit > 0 && p.keys == Firsts(before) && i <= |l| - 1
    requires CutAt(l[1..], Took(p, l[0]), before + [l[0]], r, i)
    ensures CutAt(l, p, before, r, i + 1)
  {
    hide Firsts, NoRepeat;
    assert before + [l[0]] + l[1..][..i] == before + l[..i + 1];
    assert before + l[..0] == before;
    if 0 < i {
      assert before + [l[0]] + l[1..][..i - 1] == before + l[..i] && l[1..][i - 1] == l[i];
    } else {
      KnownKey(before, p.keys, l[0]);
    }
  }

  lemma KnownKey(before: seq<bytes>, keys: seq<bytes>, k: bytes)
    requires keys == Firsts(before)
    ensures k in keys <==> k in before
  {
  }

  /** Where the list of a trait is entered: at the start key in the start trait, and at its head in later ones. */
  function EntryOf(t: bytes, startTrait: bytes, startKey: Option<bytes>): Option<bytes> {
    if t == startTrait then startKey else None
  }

  function ListOf(index: map<bytes, seq<bytes>>, t: bytes, startTrait: bytes, startKey: Option<bytes>): seq<bytes> {
    From(Listed(index, t), EntryOf(t, startTrait, startKey))
  }

  /** The lists of some traits, one after the other, without those before the start trait. */
  function Gone(index: map<bytes, seq<bytes>>, traits: seq<bytes>, startTrait: bytes, startKey: Option<bytes>):
      seq<bytes> {
    if traits == [] then [] else
      var t := traits[|traits| - 1];
      Gone(index, traits[..|traits| - 1], startTrait, startKey) +
      if Less(t, startTrait) then [] else ListOf(index, t, startTrait, startKey)
  }

  /** No trait was looked at: all are before the start trait. */
  ghost predicate NoneLooked(traits: seq<bytes>, startTrait: bytes) {
    forall i :: 0 <= i < |traits| ==> Less(traits[i], startTrait)
  }

  /**
   A page ends in the trait at place `i`, after the first `m` keys of its list: it holds each key of the lists before
   and of these `m` once, in this order. If the limit is not used up, nothing is left. If it is, it was used up by the
   last of the `m` keys, which is new.
   */
  ghost predicate EndsAt(index: map<bytes, seq<bytes>>, traits: seq<bytes>, startTrait: bytes, startKey: Option<bytes>,
                         limit: int, r: Page, i: nat, m: nat)
    requires i < |traits|
  {
    var l, before := ListOf(index, traits[i], startTrait, startKey), Gone(index, traits[..i], startTrait, startKey);
    && !Less(traits[i], startTrait) && m <= |l|
    && r.keys == Firsts(before + l[..m]) && |r.keys| <= limit
    && r.lastTrait == traits[i]
    && r.lastKey == (if m == 0 then EntryOf(traits[i], startTrait, startKey) else Some(l[m - 1]))
    && (|r.keys| < limit ==> i == |traits| - 1 && m == |l|)
    && (|r.keys| == limit ==> 0 < m && l[m - 1] !in before + l[..m - 1])
  }

  /** The traits are in byte order. */
  ghost predicate Ascending(traits: seq<bytes>) {
    forall i, j :: 0 <= i < j < |traits| ==> !Less(traits[j], traits[i])
  }

  lemma GoneStep(index: map<bytes, seq<bytes>>, traits: seq<bytes>, startTrait: bytes, startKey: Option<bytes>, n: nat)
    requires n < |traits|
    ensures Gone(index, traits[..n + 1], startTrait, startKey) ==
            Gone(index, traits[..n], startTrait, startKey) +
            if Less(traits[n], startTrait) then [] else ListOf(index, traits[n], startTrait, startKey)
  {
    assert traits[..n + 1][..n] == traits[..n];
  }

  /** Where the next trait is entered, as the walk over sorted traits knows it. */
  ghost predicate Enters(traits: seq<bytes>, startTrait: bytes, startKey: Option<bytes>, n: nat, from: Option<bytes>) {
    forall j :: n <= j < |traits| && traits[j] == startTrait ==> from == startKey
  }

  lemma EntersNext(traits: seq<bytes>, startTrait: bytes, startKey: Option<bytes>, n: nat, from: Option<bytes>)
    requires Ascending(traits) && n < |traits| && !Less(traits[n], startTrait)
    requires Enters(traits, startTrait, startKey, n, from)
    ensures var from' := if Less(startTrait, traits[n]) then None else from;
            from' == EntryOf(traits[n], startTrait, startKey) && Enters(traits, startTrait, startKey, n + 1, from')
  {
    LessTotal(startTrait, traits[n]);
    LessIrreflexive(startTrait);
    forall j | n < j < |traits| && traits[j] == startTrait ensures !Less(startTrait, traits[n]) {
      assert !Less(traits[j], traits[n]);
    }
  }

  /** The walk from trait `n` on, when the page so far holds all that was gone through. */
  lemma {:induction false} PageEndsFrom(index: map<bytes, seq<bytes>>, traits: seq<bytes>, startTrait: bytes,
                                        startKey: Option<bytes>, limit: int, n: nat, from: Option<bytes>, p: Page)
    returns (i: nat, m: nat)
    requires Ascending(traits) && n <= |traits| && Enters(traits, startTrait, startKey, n, from)
    requires p.keys == Firsts(Gone(index, traits[..n], startTrait, startKey))
    requires |p.keys| + p.limit == limit && p.limit > 0
    requires n == |traits| ==>
               0 < n && EndsAt(index, traits, startTrait, startKey, limit, p, n - 1,
                               |ListOf(index, traits[n - 1], startTrait, startKey)|)
    requires n < |traits| ==> !Less(traits[|traits| - 1], startTrait)
    ensures i < |traits|
    ensures EndsAt(index, traits, startTrait, startKey, limit, Pages(index, traits[n..], startTrait, from, p), i, m)
    decreases |traits| - n
  {
    hide Firsts, NoRepeat, Ascending, EndsAt, Gone, Collect, From;
    if n == |traits| {
      i, m := n - 1, |ListOf(index, traits[n - 1], startTrait, startKey)|;
    } else {
      assert traits[n..][1..] == traits[n + 1..] && traits[n..][0] == traits[n];
      GoneStep(index, traits, startTrait, startKey, n);
      if Less(traits[n], startTrait) {
        assert Gone(index, traits[..n], startTrait, startKey) + [] == Gone(index, traits[..n], startTrait, startKey);
        i, m := PageEndsFrom(index, traits, startTrait, startKey, limit, n + 1, from, p);
      } else {
        EntersNext(traits, startTrait, startKey, n, from);
        var entry := EntryOf(traits[n], startTrait, startKey);
        var l := ListOf(index, traits[n], startTrait, startKey);
        var q := p.(lastTrait := traits[n], lastKey := entry);
        var k := CollectIs(l, q, Gone(index, traits[..n], startTrait, startKey));
        var r := Collect(l, q);
        OneList(index, traits, startTrait, startKey, limit, n, q, r, k);
        if r.limit == 0 {
          i, m := n, k;
        } else {
          i, m := PageEndsFrom(index, traits, startTrait, startKey, limit, n + 1, entry, r);
        }
      }
    }
  }

  /** The list of one trait, gone through to the end or until the limit was used up. */
  lemma OneList(index: map<bytes, seq<bytes>>, traits: seq<bytes>, startTrait: bytes, startKey: Option<bytes>,
                limit: int, n: nat, p: Page, r: Page, k: nat)
    requires n < |traits| && !Less(traits[n], startTrait) && |p.keys| + p.limit == limit && p.limit > 0
    requires p.lastTrait == traits[n] && p.lastKey == EntryOf(traits[n], startTrait, startKey)
    requires var l := ListOf(index, traits[n], startTrait, startKey);
             k <= |l| && CutAt(l, p, Gone(index, traits[..n], startTrait, startKey), r, k) && r == Collect(l, p)
    ensures r.limit == 0 || n == |traits| - 1 ==> EndsAt(index, traits, startTrait, startKey, limit, r, n, k)
    ensures r.limit > 0 ==>
              var l := ListOf(index, traits[n], startTrait, startKey);
              k == |l| && r.keys == Firsts(Gone(index, traits[..n], startTrait, startKey) + l)
    ensures |r.keys| + r.limit == limit && r.limit >= 0
  {
    hide Firsts, Gone, ListOf, EntryOf;
    var l := ListOf(index, traits[n], startTrait, startKey);
    assert l[..|l|] == l;
  }

  /** Where a page ends, for every limit, start and list of traits of which some is not before the start. */
  lemma PageEnds(index: map<bytes, seq<bytes>>, traits: seq<bytes>, startTrait: bytes, startKey: Option<bytes>,
                 limit: int)
    returns (i: nat, m: nat)
    requires Ascending(traits) && limit > 0 && !NoneLooked(traits, startTrait)
    ensures i < |traits|
    ensures EndsAt(index, traits, startTrait, startKey, limit,
                   Pages(index, traits, startTrait, startKey, Page([], limit, startTrait, startKey)), i, m)
  {
    hide EndsAt, Pages;
    assert traits[0..] == traits;
    var j :| 0 <= j < |traits| && !Less(traits[j], startTrait);
    LastNotBefore(traits, startTrait, j);
    var p := Page([], limit, startTrait, startKey);
    i, m := PageEndsFrom(index, traits, startTrait, startKey, limit, 0, startKey, p);
  }

  /** The first trait that is not before the start trait. */
  ghost predicate FirstLooked(traits: seq<bytes>, startTrait: bytes, i: nat) {
    i < |traits| && !Less(traits[i], startTrait) && NoneLooked(traits[..i], startTrait)
  }

  /** A page without keys: no trait to look at, or no room for any. */
  lemma {:induction false} EmptyPage(index: map<bytes, seq<bytes>>, traits: seq<bytes>, startTrait: bytes,
                                     startKey: Option<bytes>, limit: int, p: Page)
    requires p.limit == limit && (limit <= 0 || NoneLooked(traits, startTrait))
    ensures var r := Pages(index, traits, startTrait, startKey, p);
            && r.keys == p.keys && r.limit == limit
            && (NoneLooked(traits, startTrait) ==> r == p)
            && (limit < 0 && traits != [] && !Less(traits[|traits| - 1], startTrait) ==>
                  r.lastTrait == traits[|traits| - 1] && (r.lastKey == None || r.lastKey == startKey))
    decreases traits
  {
    if traits != [] {
      var t := traits[0];
      if Less(t, startTrait) {
        EmptyPage(index, traits[1..], startTrait, startKey, limit, p);
        assert forall i :: 0 <= i < |traits[1..]| ==> traits[1..][i] == traits[i + 1];
      } else {
        assert !NoneLooked(traits, startTrait);
        var from := if Less(startTrait, t) then None else startKey;
        if limit < 0 { EmptyPage(index, traits[1..], startTrait, from, limit, p.(lastTrait := t, lastKey := from)); }
      }
    }
  }

  /** A limit of 0 ends the page where the first trait looked at is entered. */
  lemma {:induction false} NoRoom(index: map<bytes, seq<bytes>>, traits: seq<bytes>, startTrait: bytes,
                                  startKey: Option<bytes>, p: Page, i: nat)
    requires p.limit == 0 && FirstLooked(traits, startTrait, i)
    ensures var r := Pages(index, traits, startTrait, startKey, p);
            r == p.(lastTrait := traits[i], lastKey := EntryOf(traits[i], startTrait, startKey))
    decreases traits
  {
    if i == 0 {
      LessTotal(traits[0], startTrait);
      LessIrreflexive(startTrait);
    } else {
      assert traits[..i][0] == traits[0];
      assert traits[1..][..i - 1] == traits[..i][1..];
      NoRoom(index, traits[1..], startTrait, startKey, p, i - 1);
    }
  }

  lemma PageEnd(index: map<bytes, seq<bytes>>, traits: seq<bytes>, startTrait: bytes, startKey: Option<bytes>,
                limit: int)
    ensures var sorted := Permute(traits, Order(traits));
            var r := Pages(index, sorted, startTrait, startKey, Page([], limit, startTrait, startKey));
            limit > 0 && !NoneLooked(sorted, startTrait) ==>
              exists i: nat, m: nat :: i < |sorted| && EndsAt(index, sorted, startTrait, startKey, limit, r, i, m)
  {
    hide EndsAt, Pages;
    var sorted := Permute(traits, Order(traits));
    OrderSorts(traits);
    assert Ascending(sorted);
    if limit > 0 && !NoneLooked(sorted, startTrait) {
      var i, m := PageEnds(index, sorted, startTrait, startKey, limit);
    }
  }

  lemma LastNotBefore(traits: seq<bytes>, startTrait: bytes, j: nat)
    requires Ascending(traits) && j < |traits| && !Less(traits[j], startTrait)
    ensures !Less(traits[|traits| - 1], startTrait)
  {
    var n := |traits| - 1;
    if Less(traits[n], startTrait) {
      LessTotal(traits[n], traits[j]);
      if Less(traits[j], traits[n]) { LessTransitive(traits[j], traits[n], startTrait); }
    }
  }

  /** The state object of the source: its databases are changed in place. */
  class State {
    var valueDB: map<bytes, DbElement>
    var indexDB: map<bytes, seq<bytes>>

    ghost function Contents(): Store
      reads this
    {
      Store(valueDB, indexDB)
    }

    constructor (s: Store)
      ensures Contents() == s
    {
      valueDB := s.values;
      indexDB := s.index;
    }

    method Value(key: bytes) returns (r: Result<Element, Error>)
      ensures r.Ok? <==> Visible(Contents(), key)
      ensures r.Ok? ==> r.value == Element(key, valueDB[key].value, valueDB[key].traits)
      ensures r.Err? ==> r.error == NotFound
    {
      if key !in valueDB || !valueDB[key].present { return Err(NotFound); }
      return Ok(Element(key, valueDB[key].value, valueDB[key].traits));
    }

    method SetValue(e: Element) returns (err: Option<Error>)
      modifies this
      ensures match Put(old(Contents()), e)
              case Ok(s) => err.None? && Contents() == s
              case Err(x) => err == Some(x) && Contents() == old(Contents())
    {
      if e.key in valueDB {
        if !valueDB[e.key].present {
          valueDB := valueDB - {e.key};
          return None;
        }
        return Some(DuplicatePut);
      }
      for i := 0 to |e.traits|
        invariant valueDB == old(valueDB) && indexDB == AddKey(old(indexDB), e.traits[..i], e.key)
      {
        var trait_ := e.traits[i];
        assert e.traits[..i + 1][..i] == e.traits[..i];
        indexDB := SetList(indexDB, trait_, ListPut(Listed(indexDB, trait_), e.key));
      }
      assert e.traits[..|e.traits|] == e.traits;
      valueDB := valueDB[e.key := DbElement(true, e.value, e.traits)];
      return None;
    }

    method RemoveValue(key: bytes) returns (err: Option<Error>)
      modifies this
      ensures match Remove(old(Contents()), key)
              case Ok(s) => err.None? && Contents() == s
              case Err(x) => err == Some(x) && Contents() == old(Contents())
    {
      if key !in valueDB {
        valueDB := valueDB[key := TOMBSTONE];
        return None;
      }
      if !valueDB[key].present { return Some(DuplicateRemove); }
      var traits := valueDB[key].traits;
      for i := 0 to |traits|
        invariant valueDB == old(valueDB) && indexDB == DropKey(old(indexDB), traits[..i], key)
      {
        assert traits[..i + 1][..i] == traits[..i];
        indexDB := SetList(indexDB, traits[i], ListDelete(Listed(indexDB, traits[i]), key));
      }
      assert traits[..|traits|] == traits;
      valueDB := valueDB - {key};
      return None;
    }

    /** `appendTraitKeys`, with the keys, the limit and the last key handed through `p`. */
    method AppendTraitKeys(p: Page, t: bytes, startKey: Option<bytes>) returns (r: Page)
      ensures r == Collect(From(Listed(indexDB, t), startKey), p.(lastKey := startKey))
    {
      var l := From(Listed(indexDB, t), startKey);
      r := p.(lastKey := startKey);
      var i := 0;
      while i < |l| && r.limit > 0
        invariant i <= |l|
        invariant Collect(l, p.(lastKey := startKey)) == Collect(l[i..], r)
      {
        assert l[i..][1..] == l[i + 1..];
        if l[i] in r.keys {
          r := r.(lastKey := Some(l[i]));
        } else {
          r := r.(keys := r.keys + [l[i]], limit := r.limit - 1, lastKey := Some(l[i]));
        }
        i := i + 1;
      }
    }

    /** Up to `limit` keys with one of the traits, from `startTrait` and `startKey` on. */
    method GetKeys(traits: seq<bytes>, startTrait: bytes, startKey: Option<bytes>, limit: int) returns (r: Page)
      ensures r == Pages(indexDB, Permute(traits, Order(traits)), startTrait, startKey,
                         Page([], limit, startTrait, startKey))
      ensures var sorted := Permute(traits, Order(traits));
              limit > 0 && !NoneLooked(sorted, startTrait) ==>
                exists i: nat, m: nat ::
                  i < |sorted| && EndsAt(indexDB, sorted, startTrait, startKey, limit, r, i, m)
    {
      hide EndsAt;
      PageEnd(indexDB, traits, startTrait, startKey, limit);
      var sorted := Permute(traits, Order(traits));
      r := Page([], limit, startTrait, startKey);
      ghost var all := Pages(indexDB, sorted, startTrait, startKey, r);
      var from := startKey;
      assert sorted[0..] == sorted;
      for i := 0 to |sorted|
        invariant all == Pages(indexDB, sorted[i..], startTrait, from, r)
      {
        assert sorted[i..][1..] == sorted[i + 1..];
        var t := sorted[i];
        if !Less(t, startTrait) {
          if Less(startTrait, t) { from := None; }
          r := AppendTraitKeys(r.(lastTrait := t), t, from);
          if r.limit == 0 { return; }
        }
      }
    }
  }
}
