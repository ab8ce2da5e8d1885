/**
 * Python's `dict`: a map that remembers insertion order. It is modelled as a
 * sequence of entries with pairwise distinct keys. Assigning to a present key
 * keeps its position; assigning to a new key appends; `pop` removes the entry.
 */
module OrderedMap {
  import opened Wrappers

  datatype Entry<K, V> = Entry(key: K, val: V)

  ghost predicate Distinct<K, V>(m: seq<Entry<K, V>>) {
    forall i, j :: 0 <= i < j < |m| ==> m[i].key != m[j].key
  }

  /** A dictionary: entries in insertion order, no key twice. */
  type Dict<K, V> = m: seq<Entry<K, V>> | Distinct(m) witness []

  /** Position of the entry for `k`, or `|m|` when `k` is absent. */
  function IndexOf<K(==), V>(m: seq<Entry<K, V>>, k: K): (i: nat)
    ensures i <= |m|
    ensures i < |m| ==> m[i].key == k
    ensures forall j :: 0 <= j < i ==> m[j].key != k
  {
    if m == [] then 0
    else if m[0].key == k then 0
    else 1 + IndexOf(m[1..], k)
  }

  /** The three facts that IndexOf ensures pin it down. */
  lemma IndexOfUnique<K, V>(m: seq<Entry<K, V>>, k: K, i: nat)
    requires i <= |m|
    requires i < |m| ==> m[i].key == k
    requires forall j :: 0 <= j < i ==> m[j].key != k
    ensures IndexOf(m, k) == i
  {
  }

  /** `d.get(k)`: the value stored under `k`, if any. */
  function Lookup<K(==), V>(m: seq<Entry<K, V>>, k: K): (r: Option<V>)
    ensures r.Some? <==> exists j :: 0 <= j < |m| && m[j].key == k
    ensures r.Some? ==> Entry(k, r.value) in m
  {
    var i := IndexOf(m, k);
    if i < |m| then Some(m[i].val) else None
  }

  lemma LookupAt<K, V>(m: Dict<K, V>, j: nat)
    requires j < |m|
    ensures Lookup(m, m[j].key) == Some(m[j].val)
  {
    IndexOfUnique(m, m[j].key, j);
  }

  /** The keys, in insertion order. */
  function Keys<K, V>(m: seq<Entry<K, V>>): (r: seq<K>)
    ensures |r| == |m|
    ensures forall j :: 0 <= j < |m| ==> r[j] == m[j].key
  {
    seq(|m|, j requires 0 <= j < |m| => m[j].key)
  }

  /** The values, in insertion order. */
  function Values<K, V>(m: seq<Entry<K, V>>): (r: seq<V>)
    ensures |r| == |m|
    ensures forall j :: 0 <= j < |m| ==> r[j] == m[j].val
  {
    seq(|m|, j requires 0 <= j < |m| => m[j].val)
  }

  /** `d[k] = v`: overwrite in place when `k` is present, append otherwise. */
  function Put<K(==,!new), V>(m: Dict<K, V>, k: K, v: V): (r: Dict<K, V>)
    ensures Lookup(r, k) == Some(v)
    ensures forall k' :: k' != k ==> Lookup(r, k') == Lookup(m, k')
    ensures Lookup(m, k).Some? ==> |r| == |m|
    ensures Lookup(m, k).None? ==> |r| == |m| + 1 && r[|m|] == Entry(k, v)
    ensures forall j :: 0 <= j < |m| && m[j].key != k ==> r[j] == m[j]
  {
    var i := IndexOf(m, k);
    if i < |m| then
      var r := m[i := Entry(k, v)];
      assert Distinct(r) by {
        forall a, b | 0 <= a < b < |r| ensures r[a].key != r[b].key {
          assert r[a].key == m[a].key && r[b].key == m[b].key;
        }
      }
      IndexOfUnique(r, k, i);
      forall k' | k' != k ensures Lookup(r, k') == Lookup(m, k') {
        IndexOfUnique(r, k', IndexOf(m, k'));
      }
      r
    else
      var r := m + [Entry(k, v)];
      IndexOfUnique(r, k, |m|);
      forall k' | k' != k ensures Lookup(r, k') == Lookup(m, k') {
        var a := IndexOf(m, k');
        IndexOfUnique(r, k', if a < |m| then a else |r|);
      }
      r
  }

  /** An entry of a dictionary is what a lookup of its key finds. */
  lemma LookupIn<K, V>(m: Dict<K, V>, e: Entry<K, V>)
    requires e in m
    ensures Lookup(m, e.key) == Some(e.val)
  {
    var j :| 0 <= j < |m| && m[j] == e;
    LookupAt(m, j);
  }

  /** `d.pop(k, None)`: remove the entry for `k`, if there is one. */
  function Pop<K(==,!new), V(!new)>(m: Dict<K, V>, k: K): (r: Dict<K, V>)
    ensures Lookup(r, k) == None
    ensures forall k' :: k' != k ==> Lookup(r, k') == Lookup(m, k')
    ensures Lookup(m, k).None? ==> r == m
    ensures Lookup(m, k).Some? ==> |r| == |m| - 1
    ensures forall e :: e in r <==> e in m && e.key != k
  {
    var i := IndexOf(m, k);
    if i < |m| then
      DropAt(m, i);
      m[..i] + m[i + 1..]
    else
      m
  }

  /** Removing the entry at position `i` removes its key and nothing else. */
  lemma DropAt<K, V>(m: Dict<K, V>, i: nat)
    requires i < |m|
    ensures Distinct(m[..i] + m[i + 1..])
    ensures Lookup(m[..i] + m[i + 1..], m[i].key) == None
    ensures forall k' :: k' != m[i].key ==> Lookup(m[..i] + m[i + 1..], k') == Lookup(m, k')
    ensures forall e :: e in m[..i] + m[i + 1..] <==> e in m && e.key != m[i].key
  {
    var r := m[..i] + m[i + 1..];
    assert forall a :: 0 <= a < |r| ==> r[a] == if a < i then m[a] else m[a + 1];
    assert Distinct(r);
    forall k' ensures Lookup(r, k') == if k' == m[i].key then None else Lookup(m, k') {
      var a := IndexOf(m, k');
      if k' != m[i].key {
        IndexOfUnique(r, k', if a < i then a else a - 1);
      }
    }
  }

  /** `d.update(t)`: assign every entry of `t`, in `t`'s order. */
  function UpdateAll<K(==,!new), V>(m: Dict<K, V>, t: Dict<K, V>): (r: Dict<K, V>)
    ensures forall k :: Lookup(r, k) == if Lookup(t, k).Some? then Lookup(t, k) else Lookup(m, k)
    decreases |t|
  {
    if t == [] then m
    else
      var last := t[|t| - 1];
      var init: Dict<K, V> := t[..|t| - 1];
      forall k ensures Lookup(t, k) == if k == last.key then Some(last.val) else Lookup(init, k) {
        LookupLast(t, k);
      }
      Put(UpdateAll(m, init), last.key, last.val)
  }

  /** A lookup in a dictionary finds its last entry, or else looks among the others. */
  lemma LookupLast<K, V>(t: Dict<K, V>, k: K)
    requires t != []
    ensures Lookup(t, k) == if k == t[|t| - 1].key then Some(t[|t| - 1].val) else Lookup(t[..|t| - 1], k)
  {
    var init := t[..|t| - 1];
    if k == t[|t| - 1].key {
      LookupAt(t, |t| - 1);
    } else {
      var a := IndexOf(init, k);
      IndexOfUnique(t, k, if a < |init| then a else |t|);
    }
  }

  /** Every entry after `d[k] = v` was there before or is the new one. */
  lemma PutEntries<K(!new), V>(m: Dict<K, V>, k: K, v: V)
    ensures forall e :: e in Put(m, k, v) ==> e in m || e == Entry(k, v)
  {
    var r := Put(m, k, v);
    forall e | e in r ensures e in m || e == Entry(k, v) {
      var j :| 0 <= j < |r| && r[j] == e;
      if e.key == k {
        LookupIn(r, e);
      }
    }
  }

  /** Assigning a key that is absent appends one entry at the end. */
  lemma PutFresh<K(!new), V>(m: Dict<K, V>, k: K, v: V)
    requires Lookup(m, k).None?
    ensures Put(m, k, v) == m + [Entry(k, v)]
  {
    var r := Put(m, k, v);
    assert forall j :: 0 <= j < |m| ==> m[j].key != k;
    assert forall j :: 0 <= j < |m| ==> r[j] == m[j];
  }

  /** When no key of `t` is in `m`, `m.update(t)` is `m` followed by `t`. */
  lemma {:induction false} UpdateAllFresh<K(!new), V>(m: Dict<K, V>, t: Dict<K, V>)
    requires forall k :: Lookup(t, k).Some? ==> Lookup(m, k).None?
    ensures UpdateAll(m, t) == m + t
    decreases |t|
  {
    if t != [] {
      var last := t[|t| - 1];
      var init: Dict<K, V> := t[..|t| - 1];
      forall k | Lookup(init, k).Some? ensures Lookup(m, k).None? {
        var j := IndexOf(init, k);
        LookupAt(t, j);
      }
      UpdateAllFresh(m, init);
      assert Lookup(init, last.key).None? by {
        forall j | 0 <= j < |init| ensures init[j].key != last.key {
          assert t[j].key != t[|t| - 1].key;
        }
      }
      LookupAt(t, |t| - 1);
      PutFresh(UpdateAll(m, init), last.key, last.val);
      AppendSnoc(m, t);
    }
  }

  /** `a + s` is `a`, then `s` without its last element, then that element. */
  lemma AppendSnoc<T>(a: seq<T>, s: seq<T>)
    requires s != []
    ensures a + s == a + s[..|s| - 1] + [s[|s| - 1]]
  {
    assert s == s[..|s| - 1] + [s[|s| - 1]];
  }

  /** A dictionary is its entries but the last, with the last one assigned after them. */
  lemma Snoc<K(!new), V>(m: Dict<K, V>)
    requires m != []
    ensures Lookup(m[..|m| - 1], m[|m| - 1].key) == None
    ensures m == Put(m[..|m| - 1], m[|m| - 1].key, m[|m| - 1].val)
  {
    var init: Dict<K, V> := m[..|m| - 1];
    var last := m[|m| - 1];
    forall j | 0 <= j < |init| ensures init[j].key != last.key {
      assert m[j].key != m[|m| - 1].key;
    }
    PutFresh(init, last.key, last.val);
    assert init + [last] == m;
  }

  /** Appending an entry keeps the positions of the earlier keys, and a dictionary's last key sits at the end. */
  lemma IndexOfSnoc<K, V>(m: Dict<K, V>, k: K)
    requires m != []
    ensures IndexOf(m[..|m| - 1], k) < |m| - 1 ==> IndexOf(m, k) == IndexOf(m[..|m| - 1], k)
    ensures k == m[|m| - 1].key ==> IndexOf(m, k) == |m| - 1
  {
    var i := IndexOf(m[..|m| - 1], k);
    if i < |m| - 1 {
      IndexOfUnique(m, k, i);
    }
    if k == m[|m| - 1].key {
      IndexOfUnique(m, k, |m| - 1);
    }
  }

  /** Filtering a dictionary filters all but its last entry, then that entry. */
  lemma WithoutSnoc<K(!new), V(!new)>(m: Dict<K, V>, drop: set<K>)
    requires m != []
    ensures var init: Dict<K, V> := m[..|m| - 1];
      Without(m, drop) == Without(init, drop) + if m[|m| - 1].key in drop then [] else [m[|m| - 1]]
  {
  }

  /** The dictionary without the entries whose key is in `drop`, in the same order. */
  function Without<K(==,!new), V(!new)>(m: Dict<K, V>, drop: set<K>): (r: Dict<K, V>)
    ensures forall e :: e in r <==> e in m && e.key !in drop
    ensures forall k :: Lookup(r, k) == if k in drop then None else Lookup(m, k)
    decreases |m|
  {
    if m == [] then []
    else
      var init: Dict<K, V> := m[..|m| - 1];
      var last := m[|m| - 1];
      var rest := Without(init, drop);
      assert forall e :: e in m <==> e in init || e == last;
      var r := if last.key in drop then rest else rest + [last];
      assert Distinct(r) by {
        forall a, b | 0 <= a < b < |r| ensures r[a].key != r[b].key {
          if b == |rest| {
            var j :| 0 <= j < |init| && init[j] == r[a];
            assert m[j].key != m[|m| - 1].key;
          }
        }
      }
      forall k ensures Lookup(r, k) == if k in drop then None else Lookup(m, k) {
        var lr := Lookup(r, k);
        var lm := Lookup(m, k);
        if lr.Some? {
          LookupIn(m, Entry(k, lr.value));
        }
        if lm.Some? && k !in drop {
          assert Entry(k, lm.value) in r;
        }
      }
      r
  }
}
