/** `ViewDrawablePool`: the per-item drawables of a list decoration, kept
    in a sparse array keyed by each view's identity hash, plus a scrap list
    of drawables to reuse. The 64-bit "used" mask is modelled as the set of
    its set bit positions: `used | (1L << i)` adds `i % 64` (Java masks a
    `long` shift distance to six bits) and `(used & (1L << i)) == 0` is
    `i !in used`. */
module Pool {
  import opened Java

  predicate Sorted(keys: seq<int>)
  {
    forall i, j :: 0 <= i < j < |keys| ==> keys[i] < keys[j]
  }

  /** The index of `key` in `keys`, or -1. */
  function IndexIn(keys: seq<int>, key: int): (i: int)
    ensures -1 <= i < |keys|
    ensures 0 <= i ==> keys[i] == key
    ensures i < 0 <==> key !in keys
  {
    if |keys| == 0 then -1
    else if keys[|keys| - 1] == key then |keys| - 1
    else IndexIn(keys[..|keys| - 1], key)
  }

  /** The value stored under `key`, if any. */
  function Lookup<T>(keys: seq<int>, values: seq<T>, key: int): (r: Option<T>)
    requires |keys| == |values|
    ensures r.Some? <==> key in keys
  {
    var i := IndexIn(keys, key);
    if i < 0 then None else Some(values[i])
  }

  /** `android.util.SparseArray`: strictly increasing keys, one value
      each. */
  class SparseArray<T> {
    var keys: seq<int>
    var values: seq<T>

    predicate Valid()
      reads this
    {
      |keys| == |values| && Sorted(keys)
    }

    constructor ()
      ensures Valid() && keys == [] && values == []
    {
      keys, values := [], [];
    }

    function Size(): nat
      reads this
    {
      |keys|
    }

    /** `indexOfKey(key)`: non-negative exactly when the key is present. */
    function IndexOfKey(key: int): int
      reads this
    {
      IndexIn(keys, key)
    }

    /** `get(key)`: the value under `key`, if any. */
    function Get(key: int): Option<T>
      reads this
      requires Valid()
    {
      Lookup(keys, values, key)
    }

    /** `removeAt(index)`: drops one entry, keeping the others in order. */
    method RemoveAt(index: int)
      requires Valid() && 0 <= index < Size()
      modifies this
      ensures Valid()
      ensures keys == old(keys[..index] + keys[index + 1..])
      ensures values == old(values[..index] + values[index + 1..])
    {
      RemoveKeepsSorted(keys, index);
      keys := keys[..index] + keys[index + 1..];
      values := values[..index] + values[index + 1..];
    }

    /** `put(key, value)`: replaces the value under a present key, or
        inserts the key at its place in the order. */
    method Put(key: int, value: T)
      requires Valid()
      modifies this
      ensures Valid()
      ensures Get(key) == Some(value)
      ensures forall k :: k in keys <==> k in old(keys) || k == key
      ensures forall k :: k != key && k in keys ==> Get(k) == old(Get(k))
    {
      var i := 0;
      while i < |keys| && keys[i] < key
        invariant 0 <= i <= |keys|
        invariant forall j :: 0 <= j < i ==> keys[j] < key
      {
        i := i + 1;
      }
      if i < |keys| && keys[i] == key {
        ReplaceLookup(keys, values, i, value);
        values := values[i := value];
      } else {
        InsertLookup(keys, values, i, key, value);
        keys := keys[..i] + [key] + keys[i..];
        values := values[..i] + [value] + values[i..];
      }
    }
  }

  /** In a sorted sequence a key sits at one index only. */
  lemma IndexOfSorted(keys: seq<int>, key: int, i: int)
    requires Sorted(keys) && 0 <= i < |keys| && keys[i] == key
    ensures IndexIn(keys, key) == i
  {
    var j := IndexIn(keys, key);
    assert keys[j] == key;
  }

  lemma RemoveKeepsSorted(keys: seq<int>, index: int)
    requires Sorted(keys) && 0 <= index < |keys|
    ensures Sorted(keys[..index] + keys[index + 1..])
  {
    var k := keys[..index] + keys[index + 1..];
    forall i, j | 0 <= i < j < |k| ensures k[i] < k[j] {
      var i', j' := if i < index then i else i + 1, if j < index then j else j + 1;
      assert k[i] == keys[i'] && k[j] == keys[j'];
    }
  }

  /** Overwriting the value at a key's index changes that key's lookup
      only. */
  lemma ReplaceLookup<T>(keys: seq<int>, values: seq<T>, i: int, value: T)
    requires |keys| == |values| && Sorted(keys) && 0 <= i < |keys|
    ensures Lookup(keys, values[i := value], keys[i]) == Some(value)
    ensures forall k :: k != keys[i] && k in keys ==> Lookup(keys, values[i := value], k) == Lookup(keys, values, k)
  {
    IndexOfSorted(keys, keys[i], i);
  }

  /** Inserting a new key at its place keeps the keys sorted, finds the new
      value under it and every old value under its old key. */
  lemma InsertLookup<T>(k0: seq<int>, v0: seq<T>, i: int, key: int, value: T)
    requires |k0| == |v0| && Sorted(k0) && 0 <= i <= |k0|
    requires forall j :: 0 <= j < i ==> k0[j] < key
    requires i < |k0| ==> key < k0[i]
    ensures var keys := k0[..i] + [key] + k0[i..];
            var values := v0[..i] + [value] + v0[i..];
            Sorted(keys) && Lookup(keys, values, key) == Some(value) &&
            (forall k :: k in keys <==> k in k0 || k == key) &&
            (forall k :: k != key && k in keys ==> Lookup(keys, values, k) == Lookup(k0, v0, k))
  {
    var keys := k0[..i] + [key] + k0[i..];
    var values := v0[..i] + [value] + v0[i..];
    InsertSorted(k0, i, key);
    IndexOfSorted(keys, key, i);
    assert forall k :: k in keys <==> k in k0 || k == key by {
      assert keys == k0[..i] + ([key] + k0[i..]);
      assert k0 == k0[..i] + k0[i..];
    }
    forall k | k != key && k in keys ensures Lookup(keys, values, k) == Lookup(k0, v0, k) {
      InsertKeeps(k0, v0, i, key, value, k);
    }
  }

  lemma InsertSorted(k0: seq<int>, i: int, key: int)
    requires Sorted(k0) && 0 <= i <= |k0|
    requires forall j :: 0 <= j < i ==> k0[j] < key
    requires i < |k0| ==> key < k0[i]
    ensures Sorted(k0[..i] + [key] + k0[i..])
  {
    var keys := k0[..i] + [key] + k0[i..];
    forall a, b | 0 <= a < b < |keys| ensures keys[a] < keys[b] {
      if b < i {
        assert keys[a] == k0[a] && keys[b] == k0[b];
      } else if a > i {
        assert keys[a] == k0[a - 1] && keys[b] == k0[b - 1];
      } else if a == i {
        assert keys[b] == k0[b - 1];
      } else if b == i {
        assert keys[a] == k0[a];
      } else {
        assert keys[a] == k0[a] && keys[b] == k0[b - 1];
      }
    }
  }

  lemma InsertKeeps<T>(k0: seq<int>, v0: seq<T>, i: int, key: int, value: T, k: int)
    requires |k0| == |v0| && Sorted(k0) && 0 <= i <= |k0|
    requires Sorted(k0[..i] + [key] + k0[i..])
    requires k != key && k in k0[..i] + [key] + k0[i..]
    ensures Lookup(k0[..i] + [key] + k0[i..], v0[..i] + [value] + v0[i..], k) == Lookup(k0, v0, k)
  {
    var keys := k0[..i] + [key] + k0[i..];
    var values := v0[..i] + [value] + v0[i..];
    var j := IndexIn(keys, k);
    if j < i {
      assert k0[j] == k;
      IndexOfSorted(k0, k, j);
      assert values[j] == v0[j];
    } else {
      assert k0[j - 1] == k;
      IndexOfSorted(k0, k, j - 1);
      assert values[j] == v0[j - 1];
    }
  }

  /** `java.util.ArrayList` as the pool uses it. */
  class ArrayList<T> {
    var items: seq<T>

    constructor ()
      ensures items == []
    {
      items := [];
    }

    method Add(x: T)
      modifies this
      ensures items == old(items) + [x]
    {
      items := items + [x];
    }

    /** `remove(size() - 1)`. */
    method RemoveLast() returns (x: T)
      requires |items| > 0
      modifies this
      ensures x == old(items[|items| - 1]) && items == old(items[..|items| - 1])
    {
      x := items[|items| - 1];
      items := items[..|items| - 1];
    }
  }

  // ---------------------------------------------------------------------------
  // marking and scrapping

  /** `usedMarkFor`: the bit of the view's index in the mapping (taken
      modulo 64), or no bit when the view has no drawable. */
  function UsedMarkFor(keys: seq<int>, identity: int): (mark: set<nat>)
    ensures |mark| <= 1
    ensures identity !in keys <==> mark == {}
    ensures identity in keys ==> mark == {IndexIn(keys, identity) % 64}
  {
    var iof := IndexIn(keys, identity);
    if iof >= 0 then {iof % 64} else {}
  }

  /** The entries of `s[lo..hi]` whose index is marked, in order. */
  function KeepMarked<T>(s: seq<T>, used: set<nat>, lo: nat, hi: nat): (r: seq<T>)
    requires lo <= hi <= |s|
    ensures |r| <= hi - lo
    decreases hi - lo
  {
    if lo == hi then [] else (if lo in used then [s[lo]] else []) + KeepMarked(s, used, lo + 1, hi)
  }

  /** The unmarked entries of `s[lo..hi]`, from the highest index down:
      the order the first loop of `scrapUnused` scraps them in. */
  function DropUnmarked<T>(s: seq<T>, used: set<nat>, lo: nat, hi: nat): seq<T>
    requires lo <= hi <= |s|
    decreases hi - lo
  {
    if lo == hi then [] else DropUnmarked(s, used, lo + 1, hi) + (if lo in used then [] else [s[lo]])
  }

  function Reversed<T>(s: seq<T>): (r: seq<T>)
    ensures |r| == |s|
    ensures forall i :: 0 <= i < |s| ==> r[i] == s[|s| - 1 - i]
  {
    if s == [] then [] else [s[|s| - 1]] + Reversed(s[..|s| - 1])
  }

  function Min(a: int, b: int): int { if a <= b then a else b }

  /** Kept and scrapped entries together are the entries of the segment. */
  lemma {:induction false} KeepDropSplit<T>(s: seq<T>, used: set<nat>, lo: nat, hi: nat)
    requires lo <= hi <= |s|
    ensures multiset(KeepMarked(s, used, lo, hi)) + multiset(DropUnmarked(s, used, lo, hi)) == multiset(s[lo..hi])
    decreases hi - lo
  {
    if lo < hi {
      KeepDropSplit(s, used, lo + 1, hi);
      assert s[lo..hi] == [s[lo]] + s[lo + 1..hi];
    }
  }

  /** A marked entry of the segment is kept; an unmarked one is not (keys
      being distinct). */
  lemma {:induction false} KeepMarkedMembers(s: seq<int>, used: set<nat>, lo: nat, hi: nat, i: nat)
    requires lo <= hi <= |s| && Sorted(s) && lo <= i < hi
    ensures s[i] in KeepMarked(s, used, lo, hi) <==> i in used
    decreases hi - lo
  {
    if i == lo {
      if lo + 1 < hi {
        KeepMarkedAbove(s, used, lo + 1, hi, s[lo]);
      }
    } else {
      KeepMarkedMembers(s, used, lo + 1, hi, i);
    }
  }

  /** Everything kept from a sorted segment lies above what precedes it. */
  lemma {:induction false} KeepMarkedAbove(s: seq<int>, used: set<nat>, lo: nat, hi: nat, bound: int)
    requires lo <= hi <= |s| && Sorted(s)
    requires lo < |s| ==> bound < s[lo]
    ensures forall x :: x in KeepMarked(s, used, lo, hi) ==> bound < x
    decreases hi - lo
  {
    if lo < hi {
      if lo + 1 < hi {
        KeepMarkedAbove(s, used, lo + 1, hi, bound);
      }
    }
  }

  /** Everything kept from a sorted segment lies below what follows it. */
  lemma {:induction false} KeepMarkedBelow(s: seq<int>, used: set<nat>, lo: nat, hi: nat, bound: int)
    requires lo <= hi <= |s| && Sorted(s)
    requires hi < |s| && s[hi] <= bound
    ensures forall x :: x in KeepMarked(s, used, lo, hi) ==> x < bound
    decreases hi - lo
  {
    if lo < hi {
      KeepMarkedBelow(s, used, lo + 1, hi, bound);
    }
  }

  /** `scrapAt`: moves one entry's value to the end of the scrap list. */
  method ScrapAt<T>(mapping: SparseArray<T>, scrap: ArrayList<T>, index: int)
    requires mapping.Valid() && 0 <= index < mapping.Size()
    modifies mapping, scrap
    ensures mapping.Valid()
    ensures scrap.items == old(scrap.items) + [old(mapping.values[index])]
    ensures mapping.keys == old(mapping.keys[..index] + mapping.keys[index + 1..])
    ensures mapping.values == old(mapping.values[..index] + mapping.values[index + 1..])
  {
    scrap.Add(mapping.values[index]);
    mapping.RemoveAt(index);
  }

  /** The first loop of `scrapUnused`: from `top` down to 0, scraps each
      entry whose bit is clear. */
  method ScrapUnmarked<T>(mapping: SparseArray<T>, scrap: ArrayList<T>, used: set<nat>, top: int)
    requires mapping.Valid() && -1 <= top < mapping.Size()
    modifies mapping, scrap
    ensures mapping.Valid()
    ensures mapping.keys == KeepMarked(old(mapping.keys), used, 0, top + 1) + old(mapping.keys[top + 1..])
    ensures mapping.values == KeepMarked(old(mapping.values), used, 0, top + 1) + old(mapping.values[top + 1..])
    ensures scrap.items == old(scrap.items) + DropUnmarked(old(mapping.values), used, 0, top + 1)
  {
    ghost var k0, v0, s0 := mapping.keys, mapping.values, scrap.items;
    var index := top;
    while index >= 0
      invariant -1 <= index <= top
      invariant mapping.Valid()
      invariant mapping.keys == k0[..index + 1] + KeepMarked(k0, used, index + 1, top + 1) + k0[top + 1..]
      invariant mapping.values == v0[..index + 1] + KeepMarked(v0, used, index + 1, top + 1) + v0[top + 1..]
      invariant scrap.items == s0 + DropUnmarked(v0, used, index + 1, top + 1)
    {
      ScrapIfUnmarked(mapping, scrap, used, index, top, k0, v0, s0);
      index := index - 1;
    }
  }

  /** One turn of the first loop of `scrapUnused`. */
  method ScrapIfUnmarked<T>(mapping: SparseArray<T>, scrap: ArrayList<T>, used: set<nat>, index: nat, top: nat,
                            ghost k0: seq<int>, ghost v0: seq<T>, ghost s0: seq<T>)
    requires index <= top < |k0| == |v0|
    requires mapping.Valid()
    requires mapping.keys == k0[..index + 1] + KeepMarked(k0, used, index + 1, top + 1) + k0[top + 1..]
    requires mapping.values == v0[..index + 1] + KeepMarked(v0, used, index + 1, top + 1) + v0[top + 1..]
    requires scrap.items == s0 + DropUnmarked(v0, used, index + 1, top + 1)
    modifies mapping, scrap
    ensures mapping.Valid()
    ensures mapping.keys == k0[..index] + KeepMarked(k0, used, index, top + 1) + k0[top + 1..]
    ensures mapping.values == v0[..index] + KeepMarked(v0, used, index, top + 1) + v0[top + 1..]
    ensures scrap.items == s0 + DropUnmarked(v0, used, index, top + 1)
  {
    KeepStep(k0, used, index, top);
    KeepStep(v0, used, index, top);
    if index !in used {
      ScrapAt(mapping, scrap, index);
    }
  }

  /** One step of the first loop of `scrapUnused`, on one sequence: the
      entry at `index` is dropped when unmarked, kept when marked. */
  lemma KeepStep<T>(s: seq<T>, used: set<nat>, index: nat, top: nat)
    requires index <= top < |s|
    ensures var x := s[..index + 1] + KeepMarked(s, used, index + 1, top + 1) + s[top + 1..];
            var y := s[..index] + KeepMarked(s, used, index, top + 1) + s[top + 1..];
            x[index] == s[index] &&
            (index in used ==> x == y) && (index !in used ==> x[..index] + x[index + 1..] == y)
  {
    var rest, tail := KeepMarked(s, used, index + 1, top + 1), s[top + 1..];
    var x := s[..index + 1] + rest + tail;
    assert s[..index + 1] == s[..index] + [s[index]];
    assert x == s[..index] + ([s[index]] + rest) + tail;
    if index !in used {
      assert KeepMarked(s, used, index, top + 1) == rest;
      assert x[..index] == s[..index];
      assert x[index + 1..] == rest + tail;
    }
  }

  /** The second loop of `scrapUnused`: scraps the last entry `count`
      times (not at all when `count` is not positive). */
  method ScrapLast<T>(mapping: SparseArray<T>, scrap: ArrayList<T>, count: int)
    requires mapping.Valid() && count <= mapping.Size()
    modifies mapping, scrap
    ensures mapping.Valid()
    ensures var n, r := old(mapping.Size()), if count > 0 then count else 0;
            mapping.keys == old(mapping.keys[..n - r]) && mapping.values == old(mapping.values[..n - r]) &&
            scrap.items == old(scrap.items) + Reversed(old(mapping.values[n - r..]))
  {
    ghost var k0, v0, s0, n := mapping.keys, mapping.values, scrap.items, mapping.Size();
    ghost var r0 := if count > 0 then count else 0;
    var drwbls := count;
    while drwbls > 0
      invariant mapping.Valid() && drwbls <= r0
      invariant mapping.Size() == n - r0 + (if drwbls > 0 then drwbls else 0)
      invariant mapping.keys == k0[..mapping.Size()] && mapping.values == v0[..mapping.Size()]
      invariant scrap.items == s0 + Reversed(v0[mapping.Size()..])
    {
      LastStep(k0, mapping.Size());
      LastStep(v0, mapping.Size());
      ScrapAt(mapping, scrap, mapping.Size() - 1);
      drwbls := drwbls - 1;
    }
  }

  /** One step of the second loop of `scrapUnused`, on one sequence: the
      last of the first `t` entries moves to the reversed tail. */
  lemma LastStep<T>(s: seq<T>, t: nat)
    requires 0 < t <= |s|
    ensures s[..t][..t - 1] == s[..t - 1] && s[..t][t - 1] == s[t - 1]
    ensures Reversed(s[t - 1..]) == Reversed(s[t..]) + [s[t - 1]]
  {
    var a, b := Reversed(s[t - 1..]), Reversed(s[t..]) + [s[t - 1]];
    forall i | 0 <= i < |a| ensures a[i] == b[i] {
      if i < |s| - t {
        assert a[i] == s[|s| - 1 - i];
      }
    }
  }

  /** `scrapUnused`: of the first 64 entries, those whose bit is clear go
      to scrap (highest index first), then every entry beyond the 64th
      (last first). The mapping keeps exactly the marked entries among the
      first 64, in order. */
  method ScrapUnused<T>(mapping: SparseArray<T>, scrap: ArrayList<T>, used: set<nat>)
    requires mapping.Valid()
    modifies mapping, scrap
    ensures mapping.Valid()
    ensures var m := Min(64, old(mapping.Size()));
            mapping.keys == KeepMarked(old(mapping.keys), used, 0, m) &&
            mapping.values == KeepMarked(old(mapping.values), used, 0, m) &&
            scrap.items == old(scrap.items) + DropUnmarked(old(mapping.values), used, 0, m) +
                           Reversed(old(mapping.values)[m..])
  {
    ghost var k0, v0 := mapping.keys, mapping.values;
    var drwbls: int := mapping.Size();
    var m := Min(64, drwbls);
    ScrapUnmarked(mapping, scrap, used, m - 1);
    drwbls := drwbls - 64;
    ghost var kept := KeepMarked(k0, used, 0, m);
    ghost var keptV := KeepMarked(v0, used, 0, m);
    assert |mapping.keys| == |kept| + |k0| - m;
    ScrapLast(mapping, scrap, drwbls);
    assert (kept + k0[m..])[..|kept|] == kept;
    assert (keptV + v0[m..])[..|keptV|] == keptV;
    assert (keptV + v0[m..])[|keptV|..] == v0[m..];
  }

  /** `scrapUnused` loses no drawable and keeps at most 64. */
  lemma ScrapConserves<T>(k0: seq<int>, v0: seq<T>, s0: seq<T>, used: set<nat>)
    requires |k0| == |v0|
    ensures var m := Min(64, |v0|);
            var kept := KeepMarked(v0, used, 0, m);
            var scrap := s0 + DropUnmarked(v0, used, 0, m) + Reversed(v0[m..]);
            multiset(kept) + multiset(scrap) == multiset(v0) + multiset(s0) &&
            |KeepMarked(k0, used, 0, m)| <= 64
  {
    var m := Min(64, |v0|);
    var kept := KeepMarked(v0, used, 0, m);
    var dropped := DropUnmarked(v0, used, 0, m);
    var tail := Reversed(v0[m..]);
    KeepDropSplit(v0, used, 0, m);
    ReversedMultiset(v0[m..]);
    SplitMultiset(v0, m);
    assert multiset(s0 + dropped + tail) == multiset(s0) + multiset(dropped) + multiset(tail);
  }

  lemma SplitMultiset<T>(s: seq<T>, m: nat)
    requires m <= |s|
    ensures multiset(s) == multiset(s[0..m]) + multiset(s[m..])
  {
    assert s == s[0..m] + s[m..];
  }

  lemma {:induction false} ReversedMultiset<T>(s: seq<T>)
    ensures multiset(Reversed(s)) == multiset(s)
  {
    if s != [] {
      ReversedMultiset(s[..|s| - 1]);
      assert s == s[..|s| - 1] + [s[|s| - 1]];
    }
  }

  /** After `scrapUnused`, an entry among the first 64 is still mapped
      exactly when its bit was set, and nothing beyond them is. */
  lemma ScrapKeepsMarked(k0: seq<int>, used: set<nat>, i: nat)
    requires Sorted(k0) && i < |k0|
    ensures var kept := KeepMarked(k0, used, 0, Min(64, |k0|));
            k0[i] in kept <==> i < 64 && i in used
  {
    var m := Min(64, |k0|);
    if i < m {
      KeepMarkedMembers(k0, used, 0, m, i);
    } else {
      KeepMarkedBelow(k0, used, 0, m, k0[i]);
    }
  }

  /** `unsafeDrawableFor`: the drawable already mapped to the key, or else
      the last scrapped one, or else `made` (the drawable the factory
      would create), which is then mapped to the key. */
  method UnsafeDrawableFor<T>(drawables: SparseArray<T>, scrap: ArrayList<T>, key: int, made: T) returns (d: T)
    requires drawables.Valid()
    modifies drawables, scrap
    ensures drawables.Valid()
    ensures drawables.Get(key) == Some(d)
    ensures old(drawables.Get(key)).Some? ==>
              d == old(drawables.Get(key)).value && drawables.keys == old(drawables.keys) &&
              drawables.values == old(drawables.values) && scrap.items == old(scrap.items)
    ensures old(drawables.Get(key)).None? && old(scrap.items) != [] ==>
              d == old(scrap.items[|scrap.items| - 1]) && scrap.items == old(scrap.items[..|scrap.items| - 1])
    ensures old(drawables.Get(key)).None? && old(scrap.items) == [] ==> d == made && scrap.items == []
    ensures forall k :: k in drawables.keys <==> k in old(drawables.keys) || k == key
    ensures forall k :: k != key && k in drawables.keys ==> drawables.Get(k) == old(drawables.Get(k))
  {
    var drawable := drawables.Get(key);
    if drawable.Some? {
      return drawable.value;
    }
    var scrapSize := |scrap.items|;
    if scrapSize == 0 {
      d := made;
    } else {
      d := scrap.RemoveLast();
    }
    drawables.Put(key, d);
  }
}
