/** The least-recently-used cache: a map into a list kept in recency order. */
module Lru {
  import opened Words

  /** Recency list, most recent first. */
  type Recency<K, V> = seq<(K, V)>

  ghost predicate HasKey<K(!new), V(!new)>(s: Recency<K, V>, k: K) {
    exists i :: 0 <= i < |s| && s[i].0 == k
  }

  ghost predicate UniqueKeys<K(!new), V(!new)>(s: Recency<K, V>) {
    forall i, j :: 0 <= i < j < |s| ==> s[i].0 != s[j].0
  }

  ghost function Without<K(!new), V(!new)>(s: Recency<K, V>, k: K): Recency<K, V> {
    if s == [] then []
    else if s[0].0 == k then Without(s[1..], k)
    else [s[0]] + Without(s[1..], k)
  }

  ghost function ValueOf<K(!new), V(!new)>(s: Recency<K, V>, k: K): V
    requires HasKey(s, k)
  {
    var i :| 0 <= i < |s| && s[i].0 == k;
    s[i].1
  }

  ghost function SetSpec<K(!new), V(!new)>(cap: nat, s: Recency<K, V>, k: K, v: V): Recency<K, V>
    requires cap >= 1
  {
    if HasKey(s, k) then [(k, v)] + Without(s, k)
    else [(k, v)] + (if |s| >= cap then s[..|s| - 1] else s)
  }

  ghost function GetSpec<K(!new), V(!new)>(s: Recency<K, V>, k: K): Recency<K, V> {
    if HasKey(s, k) then [(k, ValueOf(s, k))] + Without(s, k) else s
  }

  // ----- the implementation -----

  class Element<K(!new), V(!new)> {
    const key: K
    var val: V

    constructor (key: K, val: V)
      ensures this.key == key && this.val == val
    {
      this.key, this.val := key, val;
    }
  }

  /** container/list Remove: the list without the element `e`. */
  function Remove<K(!new), V(!new)>(l: seq<Element<K, V>>, e: Element<K, V>): seq<Element<K, V>> {
    if l == [] then []
    else if l[0] == e then l[1..]
    else [l[0]] + Remove(l[1..], e)
  }

  ghost function View<K(!new), V(!new)>(l: seq<Element<K, V>>): Recency<K, V>
    reads l
  {
    if l == [] then [] else [(l[0].key, l[0].val)] + View(l[1..])
  }

  ghost predicate DistinctKeys<K(!new), V(!new)>(l: seq<Element<K, V>>) {
    forall i, j :: 0 <= i < j < |l| ==> l[i].key != l[j].key
  }

  lemma {:induction false} ViewAt<K(!new), V(!new)>(l: seq<Element<K, V>>)
    ensures |View(l)| == |l|
    ensures forall i :: 0 <= i < |l| ==> View(l)[i] == (l[i].key, l[i].val)
  {
    if l != [] { ViewAt(l[1..]); }
  }

  lemma {:induction false} RemoveKeepsOthers<K(!new), V(!new)>(l: seq<Element<K, V>>, e: Element<K, V>)
    requires DistinctKeys(l) && e in l
    ensures |Remove(l, e)| == |l| - 1
    ensures forall i :: 0 <= i < |Remove(l, e)| ==> Remove(l, e)[i] in l && Remove(l, e)[i] != e
    ensures forall x :: x in l && x != e ==> x in Remove(l, e)
    ensures DistinctKeys(Remove(l, e))
  {
    if l[0] != e {
      var t := l[1..];
      RemoveKeepsOthers(t, e);
      forall i | 0 <= i < |Remove(t, e)| ensures Remove(t, e)[i].key != l[0].key {
        var j :| 0 <= j < |t| && t[j] == Remove(t, e)[i];
        assert l[j + 1] == t[j];
      }
    }
  }

  lemma {:induction false} ViewOfRemove<K(!new), V(!new)>(l: seq<Element<K, V>>, e: Element<K, V>)
    requires DistinctKeys(l) && e in l
    ensures View(Remove(l, e)) == Without(View(l), e.key)
  {
    if l[0] == e {
      ViewAt(l[1..]);
      WithoutAbsent(View(l[1..]), e.key);
    } else {
      ViewOfRemove(l[1..], e);
      assert l[0].key != e.key;
      assert View(l)[1..] == View(l[1..]);
      assert Remove(l, e)[1..] == Remove(l[1..], e);
    }
  }

  lemma {:induction false} WithoutAbsent<K(!new), V(!new)>(s: Recency<K, V>, k: K)
    requires !HasKey(s, k)
    ensures Without(s, k) == s
  {
    if s != [] {
      assert s[0].0 != k;
      forall i | 0 <= i < |s[1..]| ensures s[1..][i].0 != k { assert s[1..][i] == s[i + 1]; }
      WithoutAbsent(s[1..], k);
    }
  }

  /** Map and list hold the same elements, each under its own key. */
  ghost predicate Listed<K(!new), V(!new)>(l: seq<Element<K, V>>, items: map<K, Element<K, V>>) {
    && (forall e :: e in l ==> e.key in items && items[e.key] == e)
    && (forall k :: k in items ==> items[k] in l && items[k].key == k)
  }

  lemma RemoveStaysListed<K(!new), V(!new)>(l: seq<Element<K, V>>, items: map<K, Element<K, V>>, key: K)
    requires DistinctKeys(l) && Listed(l, items) && key in items
    ensures Listed(Remove(l, items[key]), items - {key})
  {
    RemoveKeepsOthers(l, items[key]);
  }

  lemma ViewOfBack<K(!new), V(!new)>(l: seq<Element<K, V>>)
    requires l != []
    ensures |View(l)| == |l| && View(l[..|l| - 1]) == View(l)[..|l| - 1]
  {
    ViewAt(l);
    ViewAt(l[..|l| - 1]);
  }

  /** Without its back element a list with distinct keys lists the map without that key. */
  lemma WithoutBack<K(!new), V(!new)>(l: seq<Element<K, V>>, items: map<K, Element<K, V>>)
    requires l != [] && DistinctKeys(l) && Listed(l, items)
    ensures DistinctKeys(l[..|l| - 1]) && Listed(l[..|l| - 1], items - {l[|l| - 1].key})
  {
    var n := |l| - 1;
    forall k | k in items && k != l[n].key ensures items[k] in l[..n] {
      var i :| 0 <= i < |l| && l[i] == items[k];
    }
  }

  function EvictSpec<T>(s: seq<T>): seq<T> { if s == [] then [] else s[..|s| - 1] }

  class LRU<K(!new, ==), V(!new)> {
    const maxItems: nat
    var items: map<K, Element<K, V>>
    var lruList: seq<Element<K, V>>
    var hitCount: nat
    var missCount: nat

    /** The map and the list hold the same elements, each key once. */
    ghost predicate Valid()
      reads this, lruList
    {
      && 1 <= maxItems && |lruList| <= maxItems
      && DistinctKeys(lruList)
      && Listed(lruList, items)
    }

    ghost function Contents(): Recency<K, V>
      reads this, lruList
    {
      View(lruList)
    }

    constructor (maxItems: int)
      ensures Valid() && Contents() == [] && fresh(set e | e in lruList)
      ensures this.maxItems == if maxItems <= 0 then 1024 else maxItems
      ensures hitCount == missCount == 0
    {
      this.maxItems := if maxItems <= 0 then 1024 else maxItems;
      items, lruList := map[], [];
      hitCount, missCount := 0, 0;
    }

    /** The back of the list and its map entry go. */
    method RemoveBack()
      requires Valid() && lruList != []
      modifies this`items, this`lruList
      ensures Valid() && lruList == old(lruList)[..|old(lruList)| - 1]
      ensures |old(Contents())| == |old(lruList)|
      ensures Contents() == old(Contents())[..|old(Contents())| - 1]
      ensures items == old(items) - {old(lruList)[|old(lruList)| - 1].key}
    {
      var n := |lruList| - 1;
      var el := lruList[n];
      ViewOfBack(lruList);
      WithoutBack(lruList, items);
      lruList := lruList[..n];
      items := items - {el.key};
    }

    /** evictOldest: an empty list is left alone. */
    method EvictOldest()
      requires Valid()
      modifies this`items, this`lruList
      ensures Valid() && lruList == EvictSpec(old(lruList)) && Contents() == EvictSpec(old(Contents()))
      ensures items.Keys <= old(items).Keys
    {
      ViewAt(lruList);
      if |lruList| == 0 { return; }
      RemoveBack();
    }

    method MoveToFront(el: Element<K, V>)
      requires Valid() && el in lruList
      modifies this`lruList
      ensures Valid() && lruList == [el] + Remove(old(lruList), el)
      ensures el !in Remove(old(lruList), el)
      ensures forall e :: e in lruList <==> e in old(lruList)
      ensures View(Remove(old(lruList), el)) == Without(old(Contents()), el.key)
    {
      RemoveKeepsOthers(lruList, el);
      ViewOfRemove(lruList, el);
      lruList := [el] + Remove(lruList, el);
    }

    /** The element comes first in the recency list, its value kept. */
    method Touch(el: Element<K, V>)
      requires Valid() && el in lruList
      modifies this`lruList
      ensures Valid()
      ensures forall e :: e in lruList <==> e in old(lruList)
      ensures Contents() == [(el.key, el.val)] + Without(old(Contents()), el.key)
    {
      ghost var rest := Remove(lruList, el);
      MoveToFront(el);
      assert lruList[1..] == rest;
    }

    method Refresh(el: Element<K, V>, val: V)
      requires Valid() && el in lruList
      modifies this`lruList, el
      ensures Valid()
      ensures forall e :: e in lruList <==> e in old(lruList)
      ensures Contents() == [(el.key, val)] + Without(old(Contents()), el.key)
    {
      ghost var rest := Remove(lruList, el);
      MoveToFront(el);
      assert lruList[1..] == rest;
      ghost var tail := View(rest);
      el.val := val;
      assert View(rest) == tail;
    }

    method PushFront(el: Element<K, V>)
      requires Valid() && |lruList| < maxItems && el.key !in items
      modifies this`items, this`lruList
      ensures Valid() && lruList == [el] + old(lruList)
      ensures Contents() == [(el.key, el.val)] + old(Contents())
    {
      ghost var rest := lruList;
      lruList := [el] + lruList;
      items := items[el.key := el];
      assert lruList[1..] == rest;
    }

    /** The eviction that Set runs first when the list is full. */
    method MakeSpace()
      requires Valid() && |Contents()| == |lruList|
      modifies this`items, this`lruList
      ensures Valid() && |lruList| < maxItems && lruList <= old(lruList) && items.Keys <= old(items).Keys
      ensures Contents() == if |old(Contents())| >= maxItems then old(Contents())[..|old(Contents())| - 1]
              else old(Contents())
    {
      if |lruList| >= maxItems { EvictOldest(); }
    }

    method InsertNew(key: K, val: V)
      requires Valid() && key !in items && |Contents()| == |lruList|
      modifies this`items, this`lruList
      ensures Valid()
      ensures forall e :: e in lruList ==> e in old(lruList) || fresh(e)
      ensures Contents() == [(key, val)] + if |old(Contents())| >= maxItems
              then old(Contents())[..|old(Contents())| - 1] else old(Contents())
    {
      MakeSpace();
      ghost var kept := lruList;
      ghost var rest := Contents();
      var el := new Element(key, val);
      assert View(kept) == rest;
      PushFront(el);
      assert forall e :: e in kept ==> e in old(lruList);
      assert lruList == [el] + kept;
    }

    lemma KeyIsListed(key: K)
      requires Valid()
      ensures key in items <==> HasKey(Contents(), key)
      ensures UniqueKeys(Contents()) && |Contents()| == |lruList|
      ensures key in items ==> HasKey(Contents(), key) && ValueOf(Contents(), key) == items[key].val
    {
      ViewAt(lruList);
      if key in items {
        var i :| 0 <= i < |lruList| && lruList[i] == items[key];
        assert Contents()[i] == (key, items[key].val);
        ValueOfUnique(Contents(), i);
      }
    }

    method Set(key: K, val: V)
      requires Valid()
      modifies this`items, this`lruList, lruList
      ensures Valid()
      ensures forall e :: e in lruList ==> e in old(lruList) || fresh(e)
      ensures Contents() == SetSpec(maxItems, old(Contents()), key, val)
    {
      KeyIsListed(key);
      if key in items {
        Refresh(items[key], val);
      } else {
        InsertNew(key, val);
      }
    }

    method Get(key: K) returns (r: Option<V>)
      requires Valid()
      modifies this`lruList, this`hitCount, this`missCount
      ensures Valid()
      ensures forall e :: e in lruList ==> e in old(lruList)
      ensures Contents() == GetSpec(old(Contents()), key)
      ensures r == if HasKey(old(Contents()), key) then Some(ValueOf(old(Contents()), key)) else None
      ensures hitCount + missCount == old(hitCount) + old(missCount) + 1
      ensures hitCount == old(hitCount) + if r.Some? then 1 else 0
    {
      KeyIsListed(key);
      if key !in items {
        missCount := missCount + 1;
        return None;
      }
      var el := items[key];
      Touch(el);
      hitCount := hitCount + 1;
      return Some(el.val);
    }

    method Delete(key: K)
      requires Valid()
      modifies this`items, this`lruList
      ensures Valid()
      ensures forall e :: e in lruList ==> e in old(lruList)
      ensures Contents() == Without(old(Contents()), key)
    {
      KeyIsListed(key);
      if key in items {
        var el := items[key];
        RemoveKeepsOthers(lruList, el);
        ViewOfRemove(lruList, el);
        RemoveStaysListed(lruList, items, key);
        lruList := Remove(lruList, el);
        items := items - {key};
      } else {
        WithoutAbsent(Contents(), key);
      }
    }

    method Clear()
      requires Valid()
      modifies this`items, this`lruList
      ensures Valid() && Contents() == []
    {
      items := map[];
      lruList := [];
    }
  }

  lemma ValueOfUnique<K(!new), V(!new)>(s: Recency<K, V>, i: nat)
    requires UniqueKeys(s) && i < |s|
    ensures HasKey(s, s[i].0) && ValueOf(s, s[i].0) == s[i].1
  {
    assert HasKey(s, s[i].0);
    var j :| 0 <= j < |s| && s[j].0 == s[i].0 && ValueOf(s, s[i].0) == s[j].1;
    assert !(i < j) && !(j < i);
  }

  // ----- no anomaly: a bigger cache never holds less -----

  datatype Op<K, V> = SetOp(key: K, val: V) | GetOp(key: K) | DeleteOp(key: K) | ClearOp

  ghost function Apply<K(!new), V(!new)>(cap: nat, s: Recency<K, V>, op: Op<K, V>): Recency<K, V>
    requires cap >= 1
  {
    match op
    case SetOp(k, v) => SetSpec(cap, s, k, v)
    case GetOp(k) => GetSpec(s, k)
    case DeleteOp(k) => Without(s, k)
    case ClearOp => []
  }

  ghost function Run<K(!new), V(!new)>(cap: nat, ops: seq<Op<K, V>>): Recency<K, V>
    requires cap >= 1
  {
    if ops == [] then [] else Apply(cap, Run(cap, ops[..|ops| - 1]), ops[|ops| - 1])
  }

  /** `a` is found inside `b`, in the same order. */
  ghost predicate Subseq<T>(a: seq<T>, b: seq<T>) {
    if a == [] then true
    else if b == [] then false
    else if a[0] == b[0] then Subseq(a[1..], b[1..])
    else Subseq(a, b[1..])
  }

  lemma {:induction false} SubseqDropFirst<T>(a: seq<T>, b: seq<T>)
    requires a != [] && Subseq(a, b)
    ensures Subseq(a[1..], b)
    decreases |b|, 0
  {
    if a[0] == b[0] {
      SubseqSkip(a[1..], b[1..], b[0]);
      assert b == [b[0]] + b[1..];
    } else {
      SubseqDropFirst(a, b[1..]);
      SubseqSkip(a[1..], b[1..], b[0]);
      assert b == [b[0]] + b[1..];
    }
  }

  lemma {:induction false} SubseqSkip<T>(a: seq<T>, b: seq<T>, x: T)
    requires Subseq(a, b)
    ensures Subseq(a, [x] + b)
    decreases |b|, 1
  {
    assert ([x] + b)[1..] == b;
    if a != [] && a[0] == x { SubseqDropFirst(a, b); }
  }

  lemma SubseqCons<T>(a: seq<T>, b: seq<T>, x: T)
    requires Subseq(a, b)
    ensures Subseq([x] + a, [x] + b)
  {
    assert ([x] + a)[1..] == a && ([x] + b)[1..] == b;
  }

  lemma {:induction false} SubseqMember<T>(a: seq<T>, b: seq<T>, x: T)
    requires Subseq(a, b) && x in a
    ensures x in b
    decreases |b|
  {
    if a[0] == b[0] {
      if x != a[0] { SubseqMember(a[1..], b[1..], x); }
    } else {
      SubseqMember(a, b[1..], x);
    }
  }

  lemma {:induction false} SubseqPrefix<T>(a: seq<T>, b: seq<T>)
    requires a != [] && Subseq(a, b)
    ensures Subseq(a[..|a| - 1], b)
    decreases |b|
  {
    if |a| > 1 {
      var a' := a[..|a| - 1];
      if a[0] == b[0] {
        SubseqPrefix(a[1..], b[1..]);
        assert a'[1..] == a[1..][..|a[1..]| - 1];
      } else {
        SubseqPrefix(a, b[1..]);
      }
    }
  }

  /** Dropping the last element of both keeps the order embedding. */
  lemma {:induction false} SubseqBothPrefix<T>(a: seq<T>, b: seq<T>)
    requires a != [] && Subseq(a, b)
    ensures b != [] && Subseq(a[..|a| - 1], b[..|b| - 1])
    decreases |b|
  {
    if |a| > 1 {
      var a', b' := a[..|a| - 1], b[..|b| - 1];
      if a[0] == b[0] {
        SubseqBothPrefix(a[1..], b[1..]);
        assert a'[1..] == a[1..][..|a[1..]| - 1];
        assert b'[1..] == b[1..][..|b[1..]| - 1];
      } else {
        SubseqBothPrefix(a, b[1..]);
        assert b'[1..] == b[1..][..|b[1..]| - 1];
      }
    }
  }

  lemma {:induction false} SubseqWithout<K(!new), V(!new)>(a: Recency<K, V>, b: Recency<K, V>, k: K)
    requires Subseq(a, b)
    ensures Subseq(Without(a, k), Without(b, k))
    decreases |b|
  {
    if a != [] {
      if a[0] == b[0] {
        SubseqWithout(a[1..], b[1..], k);
        if a[0].0 != k { SubseqCons(Without(a[1..], k), Without(b[1..], k), a[0]); }
      } else {
        SubseqWithout(a, b[1..], k);
        if b[0].0 != k { SubseqSkip(Without(a, k), Without(b[1..], k), b[0]); }
      }
    }
  }

  lemma {:induction false} WithoutFacts<K(!new), V(!new)>(s: Recency<K, V>, k: K)
    requires UniqueKeys(s)
    ensures UniqueKeys(Without(s, k)) && !HasKey(Without(s, k), k)
    ensures |Without(s, k)| == |s| - if HasKey(s, k) then 1 else 0
    ensures forall i :: 0 <= i < |Without(s, k)| ==> Without(s, k)[i] in s
  {
    if s != [] {
      var t := s[1..];
      WithoutFacts(t, k);
      assert s == [s[0]] + t;
      if s[0].0 == k {
        assert HasKey(s, k);
        forall i | 0 <= i < |t| ensures t[i].0 != k { assert t[i] == s[i + 1]; }
      } else {
        assert HasKey(s, k) <==> HasKey(t, k) by {
          if HasKey(s, k) { var i :| 0 <= i < |s| && s[i].0 == k; assert t[i - 1].0 == k; }
          if HasKey(t, k) { var i :| 0 <= i < |t| && t[i].0 == k; assert s[i + 1].0 == k; }
        }
        var w := Without(t, k);
        forall i | 0 <= i < |w| ensures w[i].0 != s[0].0 {
          var j :| 0 <= j < |t| && t[j] == w[i];
          assert s[j + 1] == w[i];
        }
      }
    }
  }

  /** How the lists of a small and a large cache relate after the same operations. */
  ghost predicate Tracks<K(!new), V(!new)>(capS: nat, a: Recency<K, V>, capL: nat, b: Recency<K, V>) {
    && UniqueKeys(a) && UniqueKeys(b)
    && |a| <= capS && |b| <= capL
    && |b| - |a| <= capL - capS
    && Subseq(a, b)
  }

  lemma KeyInBoth<K(!new), V(!new)>(a: Recency<K, V>, b: Recency<K, V>, k: K)
    requires Subseq(a, b) && UniqueKeys(a) && UniqueKeys(b) && HasKey(a, k)
    ensures HasKey(b, k) && ValueOf(a, k) == ValueOf(b, k)
  {
    var i :| 0 <= i < |a| && a[i].0 == k;
    SubseqMember(a, b, a[i]);
    var j :| 0 <= j < |b| && b[j] == a[i];
    ValueOfUnique(a, i);
    ValueOfUnique(b, j);
  }

  lemma ConsUnique<K(!new), V(!new)>(k: K, v: V, s: Recency<K, V>)
    requires UniqueKeys(s) && !HasKey(s, k)
    ensures UniqueKeys([(k, v)] + s)
  {
    var t := [(k, v)] + s;
    forall i, j | 0 <= i < j < |t| ensures t[i].0 != t[j].0 {
      assert t[j] == s[j - 1];
      if i > 0 { assert t[i] == s[i - 1]; }
    }
  }

  lemma EvictFacts<K(!new), V(!new)>(s: Recency<K, V>, k: K)
    requires s != [] && UniqueKeys(s) && !HasKey(s, k)
    ensures UniqueKeys(s[..|s| - 1]) && !HasKey(s[..|s| - 1], k)
  {
  }

  lemma SetTracks<K(!new), V(!new)>(capS: nat, a: Recency<K, V>, capL: nat, b: Recency<K, V>, k: K, v: V)
    requires 1 <= capS <= capL && Tracks(capS, a, capL, b)
    ensures Tracks(capS, SetSpec(capS, a, k, v), capL, SetSpec(capL, b, k, v))
  {
    if HasKey(a, k) {
      KeyInBoth(a, b, k);
      MoveTracks(a, b, k, v);
    } else {
      var a0 := if |a| >= capS then a[..|a| - 1] else a;
      if |a| >= capS { EvictFacts(a, k); SubseqPrefix(a, b); }
      ConsUnique(k, v, a0);
      if HasKey(b, k) {
        WithoutFacts(b, k);
        WithoutAbsent(a0, k);
        SubseqWithout(a0, b, k);
        ConsUnique(k, v, Without(b, k));
        SubseqCons(a0, Without(b, k), (k, v));
      } else {
        var b0 := if |b| >= capL then b[..|b| - 1] else b;
        if |b| >= capL { EvictFacts(b, k); SubseqBothPrefix(a, b); }
        ConsUnique(k, v, b0);
        SubseqCons(a0, b0, (k, v));
      }
    }
  }

  lemma MoveTracks<K(!new), V(!new)>(a: Recency<K, V>, b: Recency<K, V>, k: K, v: V)
    requires UniqueKeys(a) && UniqueKeys(b) && Subseq(a, b) && HasKey(a, k) && HasKey(b, k)
    ensures var a', b' := [(k, v)] + Without(a, k), [(k, v)] + Without(b, k);
            UniqueKeys(a') && UniqueKeys(b') && Subseq(a', b') && |a'| == |a| && |b'| == |b|
  {
    WithoutFacts(a, k);
    WithoutFacts(b, k);
    SubseqWithout(a, b, k);
    SubseqCons(Without(a, k), Without(b, k), (k, v));
    ConsUnique(k, v, Without(a, k));
    ConsUnique(k, v, Without(b, k));
  }

  /** A hit in the large cache may be a miss in the small one. */
  lemma GetTracks<K(!new), V(!new)>(capS: nat, a: Recency<K, V>, capL: nat, b: Recency<K, V>, k: K)
    requires 1 <= capS <= capL && Tracks(capS, a, capL, b)
    ensures Tracks(capS, GetSpec(a, k), capL, GetSpec(b, k))
  {
    if HasKey(a, k) {
      KeyInBoth(a, b, k);
      MoveTracks(a, b, k, ValueOf(a, k));
    } else if HasKey(b, k) {
      WithoutFacts(b, k);
      WithoutAbsent(a, k);
      SubseqWithout(a, b, k);
      SubseqSkip(a, Without(b, k), (k, ValueOf(b, k)));
      ConsUnique(k, ValueOf(b, k), Without(b, k));
    }
  }

  lemma DeleteTracks<K(!new), V(!new)>(capS: nat, a: Recency<K, V>, capL: nat, b: Recency<K, V>, k: K)
    requires 1 <= capS <= capL && Tracks(capS, a, capL, b)
    ensures Tracks(capS, Without(a, k), capL, Without(b, k))
  {
    WithoutFacts(a, k);
    WithoutFacts(b, k);
    SubseqWithout(a, b, k);
    if HasKey(a, k) { KeyInBoth(a, b, k); }
  }

  lemma {:induction false} RunTracks<K(!new), V(!new)>(capS: nat, capL: nat, ops: seq<Op<K, V>>)
    requires 1 <= capS <= capL
    ensures Tracks(capS, Run(capS, ops), capL, Run(capL, ops))
  {
    if ops != [] {
      var init, op := ops[..|ops| - 1], ops[|ops| - 1];
      RunTracks(capS, capL, init);
      var a, b := Run(capS, init), Run(capL, init);
      match op
      case SetOp(k, v) => SetTracks(capS, a, capL, b, k, v);
      case GetOp(k) => GetTracks(capS, a, capL, b, k);
      case DeleteOp(k) => DeleteTracks(capS, a, capL, b, k);
      case ClearOp =>
    }
  }

  /** Inclusion: whatever the smaller cache holds, the larger holds with the same value. */
  lemma LruInclusion<K(!new), V(!new)>(capS: nat, capL: nat, ops: seq<Op<K, V>>, k: K)
    requires 1 <= capS <= capL
    requires HasKey(Run(capS, ops), k)
    ensures HasKey(Run(capL, ops), k) && ValueOf(Run(capL, ops), k) == ValueOf(Run(capS, ops), k)
    ensures |Run(capS, ops)| <= capS && UniqueKeys(Run(capS, ops))
  {
    RunTracks(capS, capL, ops);
    KeyInBoth(Run(capS, ops), Run(capL, ops), k);
  }
}
