/**
 * A JavaScript `Map<number, T>` as the storage uses it: the rows by key,
 * plus the keys in insertion order (the order `Map.prototype.values()`
 * iterates in). Also the array helpers the storage applies to a listing.
 */
module Tables {

  /** Strictly increasing integers. */
  predicate Increasing(s: seq<int>) {
    forall i, j :: 0 <= i < j < |s| ==> s[i] < s[j]
  }

  /** Elements strictly increasing under `key`. */
  predicate IncreasingBy<T>(s: seq<T>, key: T -> int) {
    forall i, j :: 0 <= i < j < |s| ==> key(s[i]) < key(s[j])
  }

  /**
   * `rows` and `order` describe one Map whose keys were handed out by a
   * counter that now stands at `next`: the order lists exactly the keys,
   * oldest first, and every key lies in 1 .. next - 1.
   */
  predicate Consistent<T>(rows: map<int, T>, order: seq<int>, next: int) {
    && 1 <= next
    && Increasing(order)
    && (forall i :: 0 <= i < |order| ==> order[i] in rows)
    && (forall k :: k in rows ==> k in order)
    && (forall k :: k in rows ==> 1 <= k < next)
  }

  /** The key order after `Map.prototype.set(k, _)`: a new key goes last, an old one keeps its place. */
  function OrderAfterSet<T>(rows: map<int, T>, order: seq<int>, k: int): (o: seq<int>)
    ensures k in rows ==> o == order
    ensures k !in rows ==> |o| == |order| + 1 && o[..|order|] == order && o[|order|] == k
  {
    if k in rows then order else order + [k]
  }

  /** `Array.from(map.values())`: the rows in key order. */
  function Listing<T>(rows: map<int, T>, order: seq<int>): (r: seq<T>)
    requires forall i :: 0 <= i < |order| ==> order[i] in rows
    ensures |r| == |order|
    ensures forall i :: 0 <= i < |order| ==> r[i] == rows[order[i]]
  {
    seq(|order|, i requires 0 <= i < |order| => rows[order[i]])
  }

  /** Storing a row under the counter's value keeps the map consistent with the incremented counter. */
  lemma InsertNext<T>(rows: map<int, T>, order: seq<int>, next: int, v: T)
    requires Consistent(rows, order, next)
    ensures next !in rows
    ensures OrderAfterSet(rows, order, next) == order + [next]
    ensures Consistent(rows[next := v], order + [next], next + 1)
  {
    assert forall i :: 0 <= i < |order| ==> order[i] < next;
  }

  /** Storing a row under a new key appends it to the listing. */
  lemma ListingAfterInsert<T>(rows: map<int, T>, order: seq<int>, k: int, v: T)
    requires forall i :: 0 <= i < |order| ==> order[i] in rows
    requires k !in rows
    ensures Listing(rows[k := v], order + [k]) == Listing(rows, order) + [v]
  {
    var l, l' := Listing(rows, order), Listing(rows[k := v], order + [k]);
    assert forall i :: 0 <= i < |order| ==> l'[i] == l[i];
  }

  /** `Array.prototype.filter`: the elements satisfying `p`, in their order. */
  function Select<T>(s: seq<T>, p: T -> bool): (r: seq<T>)
    ensures |r| <= |s|
    ensures forall x :: x in r ==> x in s && p(x)
  {
    if s == [] then [] else (if p(s[0]) then [s[0]] else []) + Select(s[1..], p)
  }

  /** Nothing satisfying `p` is dropped by the filter. */
  lemma {:induction false} SelectKeepsMatches<T>(s: seq<T>, p: T -> bool)
    ensures forall x :: x in s && p(x) ==> x in Select(s, p)
  {
    if s != [] {
      SelectKeepsMatches(s[1..], p);
      assert forall x :: x in s ==> x == s[0] || x in s[1..];
    }
  }

  /** Filtering after appending one element. */
  lemma {:induction false} SelectSnoc<T>(s: seq<T>, x: T, p: T -> bool)
    ensures Select(s + [x], p) == Select(s, p) + (if p(x) then [x] else [])
  {
    if s == [] {
      assert s + [x] == [x];
      assert [x][1..] == [];
    } else {
      var head := if p(s[0]) then [s[0]] else [];
      var last := if p(x) then [x] else [];
      assert (s + [x])[0] == s[0];
      assert (s + [x])[1..] == s[1..] + [x];
      assert Select(s + [x], p) == head + Select(s[1..] + [x], p);
      SelectSnoc(s[1..], x, p);
      assert head + (Select(s[1..], p) + last) == (head + Select(s[1..], p)) + last;
    }
  }

  /** Putting an element whose key is below every key of an ordered sequence in front keeps it ordered. */
  lemma ConsOrdered<T>(x: T, t: seq<T>, key: T -> int)
    requires IncreasingBy(t, key)
    requires forall y :: y in t ==> key(x) < key(y)
    ensures IncreasingBy([x] + t, key)
  {
    var r := [x] + t;
    forall i, j | 0 <= i < j < |r| ensures key(r[i]) < key(r[j]) {
      assert r[j] == t[j - 1];
      if i > 0 {
        assert r[i] == t[i - 1];
      }
    }
  }

  /** The filter keeps the relative order of what it keeps. */
  lemma {:induction false} SelectKeepsOrder<T>(s: seq<T>, p: T -> bool, key: T -> int)
    requires IncreasingBy(s, key)
    ensures IncreasingBy(Select(s, p), key)
  {
    if s != [] {
      var tail := s[1..];
      assert IncreasingBy(tail, key) by {
        forall i, j | 0 <= i < j < |tail| ensures key(tail[i]) < key(tail[j]) {
          assert tail[i] == s[i + 1] && tail[j] == s[j + 1];
        }
      }
      SelectKeepsOrder(tail, p, key);
      var rest := Select(tail, p);
      if p(s[0]) {
        forall y | y in rest ensures key(s[0]) < key(y) {
          var j :| 0 <= j < |tail| && tail[j] == y;
          assert s[j + 1] == y;
        }
        ConsOrdered(s[0], rest, key);
      }
    }
  }

  /** Every row is stored under its own key: a table whose key column is `serial("id").primaryKey()`. */
  predicate Keyed<T>(m: map<int, T>, key: T -> int) {
    forall k :: k in m ==> key(m[k]) == k
  }

  /** The listing of a consistent map is ordered by key. */
  lemma ListingIncreasing<T>(rows: map<int, T>, order: seq<int>, next: int, key: T -> int)
    requires Consistent(rows, order, next)
    requires Keyed(rows, key)
    ensures IncreasingBy(Listing(rows, order), key)
  {
  }

  /**
   * `items.forEach(x => map.set(key(x), x))` applied to a map, as a
   * function: the map and key order after setting every item in turn.
   */
  function SetAll<T>(rows: map<int, T>, order: seq<int>, items: seq<T>, key: T -> int): (map<int, T>, seq<int>)
  {
    if items == [] then (rows, order)
    else
      var prev := SetAll(rows, order, items[..|items| - 1], key);
      var x := items[|items| - 1];
      (prev.0[key(x) := x], OrderAfterSet(prev.0, prev.1, key(x)))
  }

  /** The keys of the items, in their order. */
  function KeysOf<T>(items: seq<T>, key: T -> int): (ks: seq<int>)
    ensures |ks| == |items|
    ensures forall i :: 0 <= i < |items| ==> ks[i] == key(items[i])
  {
    seq(|items|, i requires 0 <= i < |items| => key(items[i]))
  }

  /** The items' keys are `next`, `next + 1`, ... in turn (`id: counter++`). */
  predicate Counted<T>(items: seq<T>, key: T -> int, next: int) {
    forall i :: 0 <= i < |items| ==> key(items[i]) == next + i
  }

  /** All but the last of the counted items are counted too. */
  lemma CountedInit<T>(items: seq<T>, key: T -> int, next: int)
    requires Counted(items, key, next) && items != []
    ensures Counted(items[..|items| - 1], key, next)
  {
    var init := items[..|items| - 1];
    forall i | 0 <= i < |init| ensures key(init[i]) == next + i {
      assert init[i] == items[i];
    }
  }

  /** Setting counted items adds exactly the keys of the counter's range. */
  lemma {:induction false} SetAllKeys<T>(rows: map<int, T>, order: seq<int>, next: int, items: seq<T>,
                                         key: T -> int, r: map<int, T>, o: seq<int>)
    requires Counted(items, key, next)
    requires (r, o) == SetAll(rows, order, items, key)
    ensures forall k :: k in r <==> k in rows || next <= k < next + |items|
    decreases |items|
  {
    if items != [] {
      var n := |items| - 1;
      CountedInit(items, key, next);
      var prev := SetAll(rows, order, items[..n], key);
      SetAllKeys(rows, order, next, items[..n], key, prev.0, prev.1);
      assert r == prev.0[next + n := items[n]];
    }
  }

  /** Setting counted items appends their keys to the key order. */
  lemma {:induction false} SetAllOrder<T>(rows: map<int, T>, order: seq<int>, next: int, items: seq<T>,
                                          key: T -> int, r: map<int, T>, o: seq<int>)
    requires forall k :: k in rows ==> k < next
    requires Counted(items, key, next)
    requires (r, o) == SetAll(rows, order, items, key)
    ensures o == order + KeysOf(items, key)
    decreases |items|
  {
    if items == [] {
      assert KeysOf(items, key) == [];
    } else {
      var n := |items| - 1;
      var init := items[..n];
      CountedInit(items, key, next);
      var prev := SetAll(rows, order, init, key);
      SetAllOrder(rows, order, next, init, key, prev.0, prev.1);
      SetAllKeys(rows, order, next, init, key, prev.0, prev.1);
      assert next + n !in prev.0;
      assert o == prev.1 + [next + n];
      assert KeysOf(items, key) == KeysOf(init, key) + [key(items[n])];
    }
  }

  /** Setting counted items stores each under its key and leaves the rows already present alone. */
  lemma {:induction false} SetAllValues<T>(rows: map<int, T>, order: seq<int>, next: int, items: seq<T>,
                                           key: T -> int, r: map<int, T>, o: seq<int>)
    requires forall k :: k in rows ==> k < next
    requires Counted(items, key, next)
    requires (r, o) == SetAll(rows, order, items, key)
    ensures forall k :: next <= k < next + |items| ==> k in r && r[k] == items[k - next]
    ensures forall k :: k in rows ==> k in r && r[k] == rows[k]
    decreases |items|
  {
    if items != [] {
      var n := |items| - 1;
      var init := items[..n];
      CountedInit(items, key, next);
      var prev := SetAll(rows, order, init, key);
      SetAllValues(rows, order, next, init, key, prev.0, prev.1);
      assert r == prev.0[next + n := items[n]];
      forall k | next <= k < next + |items| ensures k in r && r[k] == items[k - next] {
        if k < next + n {
          assert r[k] == prev.0[k] == init[k - next];
        }
      }
      forall k | k in rows ensures k in r && r[k] == rows[k] {
        assert k != next + n;
      }
    }
  }

  /** Old rows kept and counted keys appended: again a consistent map, with the counter advanced past the items. */
  lemma CountedConsistent<T>(rows: map<int, T>, order: seq<int>, next: int, items: seq<T>,
                             key: T -> int, r: map<int, T>, o: seq<int>)
    requires Consistent(rows, order, next)
    requires Counted(items, key, next)
    requires o == order + KeysOf(items, key)
    requires forall k :: k in r <==> k in rows || next <= k < next + |items|
    ensures Consistent(r, o, next + |items|)
  {
    var ks := KeysOf(items, key);
    assert forall i :: 0 <= i < |ks| ==> ks[i] == next + i;
    forall i, j | 0 <= i < j < |o| ensures o[i] < o[j] {
      if j < |order| {
      } else if i < |order| {
        assert o[i] == order[i] && order[i] in rows;
        assert o[j] == ks[j - |order|];
      } else {
        assert o[i] == ks[i - |order|] && o[j] == ks[j - |order|];
      }
    }
    forall i | 0 <= i < |o| ensures o[i] in r {
      if i < |order| {
        assert o[i] == order[i];
      } else {
        assert o[i] == ks[i - |order|];
      }
    }
    forall k | k in r ensures k in o {
      if k in rows {
        assert k in order;
        var i :| 0 <= i < |order| && order[i] == k;
        assert o[i] == k;
      } else {
        assert o[|order| + (k - next)] == ks[k - next];
      }
    }
  }

  /**
   * A map that keeps the old rows and adds counted items under their keys,
   * listed in the old order followed by the items' keys, lists the old
   * rows followed by the items.
   */
  lemma ListingAppend<T>(rows: map<int, T>, order: seq<int>, next: int, items: seq<T>,
                         key: T -> int, r: map<int, T>, o: seq<int>)
    requires forall i :: 0 <= i < |order| ==> order[i] in rows
    requires Counted(items, key, next)
    requires o == order + KeysOf(items, key)
    requires forall k :: k in rows ==> k in r && r[k] == rows[k]
    requires forall k :: next <= k < next + |items| ==> k in r && r[k] == items[k - next]
    ensures forall i :: 0 <= i < |o| ==> o[i] in r
    ensures Listing(r, o) == Listing(rows, order) + items
  {
    var ks := KeysOf(items, key);
    assert forall j :: 0 <= j < |ks| ==> ks[j] == next + j;
    forall i | 0 <= i < |o| ensures o[i] in r {
      if i < |order| {
        assert o[i] == order[i];
      } else {
        assert o[i] == ks[i - |order|];
      }
    }
    var l, l0 := Listing(r, o), Listing(rows, order);
    forall i | 0 <= i < |l| ensures l[i] == (l0 + items)[i] {
      if i < |order| {
        var k := order[i];
        assert o[i] == k && k in rows;
        assert l[i] == r[k] == rows[k] == l0[i];
      } else {
        var j := i - |order|;
        var k := next + j;
        assert o[i] == ks[j] == k;
        assert l[i] == r[k] == items[k - next] == items[j];
      }
    }
  }

  /** Setting counted items keeps every row under its own key. */
  lemma SetAllKeyed<T>(rows: map<int, T>, order: seq<int>, next: int, items: seq<T>,
                       key: T -> int, r: map<int, T>, o: seq<int>)
    requires forall k :: k in rows ==> k < next
    requires Keyed(rows, key)
    requires Counted(items, key, next)
    requires (r, o) == SetAll(rows, order, items, key)
    ensures Keyed(r, key)
  {
    SetAllKeys(rows, order, next, items, key, r, o);
    SetAllValues(rows, order, next, items, key, r, o);
    forall k | k in r ensures key(r[k]) == k {
      if k !in rows {
        assert r[k] == items[k - next];
      }
    }
  }

  /**
   * The `forEach` that stores counted items, in one statement: the map
   * stays consistent with the advanced counter, every row stays under its
   * own key, and the listing gains exactly the items.
   */
  lemma SetAllCountedRows<T>(rows: map<int, T>, order: seq<int>, next: int, items: seq<T>,
                             key: T -> int, r: map<int, T>, o: seq<int>)
    requires Consistent(rows, order, next)
    requires Keyed(rows, key)
    requires Counted(items, key, next)
    requires (r, o) == SetAll(rows, order, items, key)
    ensures Consistent(r, o, next + |items|)
    ensures Keyed(r, key)
    ensures Listing(r, o) == Listing(rows, order) + items
  {
    assert Consistent(r, o, next + |items|) by {
      SetAllKeys(rows, order, next, items, key, r, o);
      SetAllOrder(rows, order, next, items, key, r, o);
      CountedConsistent(rows, order, next, items, key, r, o);
    }
    assert Keyed(r, key) by {
      SetAllKeyed(rows, order, next, items, key, r, o);
    }
    assert Listing(r, o) == Listing(rows, order) + items by {
      SetAllOrder(rows, order, next, items, key, r, o);
      SetAllValues(rows, order, next, items, key, r, o);
      ListingAppend(rows, order, next, items, key, r, o);
    }
  }

  /** The forEach loop itself. */
  method SetEach<T>(rows: map<int, T>, order: seq<int>, items: seq<T>, key: T -> int)
    returns (rows': map<int, T>, order': seq<int>)
    ensures (rows', order') == SetAll(rows, order, items, key)
  {
    rows', order' := rows, order;
    var i := 0;
    while i < |items|
      invariant 0 <= i <= |items|
      invariant (rows', order') == SetAll(rows, order, items[..i], key)
    {
      var x := items[i];
      assert items[..i + 1][..i] == items[..i];
      order' := OrderAfterSet(rows', order', key(x));
      rows' := rows'[key(x) := x];
      i := i + 1;
    }
    assert items[..i] == items;
  }
}
