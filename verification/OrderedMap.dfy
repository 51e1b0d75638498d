/**
 `std::map` with string keys: the entries in ascending order of their keys, one for each key.
 Inserting never replaces an entry.
 */
module OrderedMap {
  import opened Options
  import opened Strings

  datatype Entry<V> = Entry(key: string, value: V)

  predicate Less(a: string, b: string) {
    StringCompare(a, b) < 0
  }

  predicate Ascending<V>(m: seq<Entry<V>>) {
    forall i, j :: 0 <= i < j < |m| ==> Less(m[i].key, m[j].key)
  }

  /** The first entry with the key; on a map, the only one. */
  function Find<V>(m: seq<Entry<V>>, key: string): Option<V> {
    if m == [] then None else if m[0].key == key then Some(m[0].value) else Find(m[1..], key)
  }

  function Insert<V>(m: seq<Entry<V>>, key: string, value: V): seq<Entry<V>> {
    if m == [] then [Entry(key, value)]
    else if m[0].key == key then m
    else if Less(key, m[0].key) then [Entry(key, value)] + m
    else [m[0]] + Insert(m[1..], key, value)
  }

  function Erase<V>(m: seq<Entry<V>>, key: string): seq<Entry<V>> {
    if m == [] then [] else if m[0].key == key then m[1..] else [m[0]] + Erase(m[1..], key)
  }

  /** `m.insert(begin, end)`: the entries in order, each only if its key is new. */
  function InsertAll<V>(m: seq<Entry<V>>, more: seq<Entry<V>>): seq<Entry<V>>
    decreases |more|
  {
    if more == [] then m else InsertAll(Insert(m, more[0].key, more[0].value), more[1..])
  }

  function EraseAll<V, W>(m: seq<Entry<V>>, keys: seq<Entry<W>>): seq<Entry<V>>
    decreases |keys|
  {
    if keys == [] then m else EraseAll(Erase(m, keys[0].key), keys[1..])
  }

  // ---- order of keys ----

  lemma {:induction false} LessLaws(a: string, b: string, c: string)
    ensures !Less(a, a)
    ensures Less(a, b) || a == b || Less(b, a)
    ensures Less(a, b) && Less(b, c) ==> Less(a, c)
  {
    StringLaws(a, a, a);
    StringLaws(a, b, c);
    StringLaws(b, c, a);
    StringLaws(c, a, b);
    StringLaws(a, c, b);
  }

  /** The entries of a map come in the order of their keys: a key is a proper prefix of the next, or smaller at their first difference. */
  lemma {:induction false} KeysInOrder<V>(m: seq<Entry<V>>)
    ensures Ascending(m) <==> forall i, j :: 0 <= i < j < |m| ==> Before(m[i].key, m[j].key)
  {
    forall i, j | 0 <= i < j < |m| ensures Less(m[i].key, m[j].key) <==> Before(m[i].key, m[j].key) {
      StringOrder(m[i].key, m[j].key);
    }
  }

  /** The first key is below all the others. */
  lemma {:induction false} AscendingCons<V>(e: Entry<V>, m: seq<Entry<V>>)
    requires Ascending(m)
    requires m == [] || Less(e.key, m[0].key)
    ensures Ascending([e] + m)
  {
    forall i, j | 0 <= i < j < |[e] + m| ensures Less(([e] + m)[i].key, ([e] + m)[j].key) {
      if i == 0 && j > 1 {
        LessLaws(e.key, m[0].key, m[j - 1].key);
      }
    }
  }

  lemma {:induction false} FindBelow<V>(m: seq<Entry<V>>, key: string)
    requires Ascending(m)
    requires m == [] || Less(key, m[0].key)
    ensures Find(m, key).None?
  {
    if m != [] {
      LessLaws(key, m[0].key, key);
      if |m| > 1 {
        LessLaws(key, m[0].key, m[1].key);
      }
      FindBelow(m[1..], key);
    }
  }

  // ---- what a lookup finds ----

  /** A lookup in a map finds exactly what an entry holds. */
  lemma {:induction false} FindsEntry<V>(m: seq<Entry<V>>, key: string, value: V)
    requires Ascending(m)
    ensures Find(m, key) == Some(value) <==> Entry(key, value) in m
    ensures Find(m, key).None? <==> forall i :: 0 <= i < |m| ==> m[i].key != key
  {
    if m != [] {
      assert m == [m[0]] + m[1..];
      FindsEntry(m[1..], key, value);
      if m[0].key == key {
        FindTail(m);
      }
    }
  }

  lemma {:induction false} InsertLaws<V>(m: seq<Entry<V>>, key: string, value: V, other: string)
    requires Ascending(m)
    ensures Ascending(Insert(m, key, value))
    ensures Insert(m, key, value) != []
    ensures var first := Insert(m, key, value)[0].key; first == key || (m != [] && first == m[0].key)
    ensures Find(Insert(m, key, value), other)
         == if Find(m, other).None? && other == key then Some(value) else Find(m, other)
  {
    if m == [] {
      assert [Entry(key, value)][1..] == [];
    } else if m[0].key == key {
    } else if Less(key, m[0].key) {
      AscendingCons(Entry(key, value), m);
      FindBelow(m, key);
      assert ([Entry(key, value)] + m)[1..] == m;
    } else {
      LessLaws(key, m[0].key, key);
      InsertLaws(m[1..], key, value, other);
      AscendingCons(m[0], Insert(m[1..], key, value));
      assert ([m[0]] + Insert(m[1..], key, value))[1..] == Insert(m[1..], key, value);
    }
  }

  lemma {:induction false} EraseLaws<V>(m: seq<Entry<V>>, key: string, other: string)
    requires Ascending(m)
    ensures Ascending(Erase(m, key))
    ensures Erase(m, key) != [] ==> m != [] && !Less(Erase(m, key)[0].key, m[0].key)
    ensures Find(Erase(m, key), other) == if other == key then None else Find(m, other)
  {
    if m != [] {
      LessLaws(m[0].key, m[0].key, m[0].key);
      if |m| > 1 {
        LessLaws(m[0].key, m[1].key, m[0].key);
      }
      if m[0].key == key {
        FindBelow(m[1..], key);
      } else {
        EraseLaws(m[1..], key, other);
        var rest := Erase(m[1..], key);
        if rest != [] {
          LessLaws(m[0].key, m[1].key, rest[0].key);
          LessLaws(rest[0].key, m[1].key, m[0].key);
        }
        AscendingCons(m[0], rest);
        assert ([m[0]] + rest)[1..] == rest;
      }
    }
  }

  /** Inserting a range keeps what is there and adds the first entry of the range for every new key. */
  lemma {:induction false} InsertAllLaws<V>(m: seq<Entry<V>>, more: seq<Entry<V>>, key: string)
    requires Ascending(m)
    ensures Ascending(InsertAll(m, more))
    ensures Find(InsertAll(m, more), key) == if Find(m, key).Some? then Find(m, key) else Find(more, key)
    decreases |more|
  {
    if more != [] {
      InsertLaws(m, more[0].key, more[0].value, key);
      InsertAllLaws(Insert(m, more[0].key, more[0].value), more[1..], key);
    }
  }

  lemma {:induction false} EraseAllLaws<V, W>(m: seq<Entry<V>>, keys: seq<Entry<W>>, key: string)
    requires Ascending(m)
    ensures Ascending(EraseAll(m, keys))
    ensures Find(EraseAll(m, keys), key) == if Find(keys, key).Some? then None else Find(m, key)
    decreases |keys|
  {
    if keys != [] {
      EraseLaws(m, keys[0].key, key);
      EraseAllLaws(Erase(m, keys[0].key), keys[1..], key);
    }
  }

  // ---- equal maps ----

  /** Two maps in which every lookup finds the same are the same map. */
  lemma {:induction false} SameMap<V>(a: seq<Entry<V>>, b: seq<Entry<V>>)
    requires Ascending(a) && Ascending(b)
    requires forall key :: Find(a, key) == Find(b, key)
    ensures a == b
  {
    FindsFirst(a);
    FindsFirst(b);
    if a != [] && b != [] {
      FirstIsLeast(a, b);
      FirstIsLeast(b, a);
      LessLaws(a[0].key, b[0].key, a[0].key);
      assert Find(a, a[0].key) == Find(b, a[0].key);
      forall key ensures Find(a[1..], key) == Find(b[1..], key) {
        assert Find(a, key) == Find(b, key);
        if key == a[0].key {
          FindTail(a);
          FindTail(b);
        }
      }
      SameMap(a[1..], b[1..]);
      assert a == [a[0]] + a[1..] && b == [b[0]] + b[1..];
    }
  }

  lemma {:induction false} FindsFirst<V>(m: seq<Entry<V>>)
    ensures m != [] ==> Find(m, m[0].key) == Some(m[0].value)
  {
  }

  lemma {:induction false} FindTail<V>(m: seq<Entry<V>>)
    requires Ascending(m) && m != []
    ensures Find(m[1..], m[0].key).None?
  {
    FindBelow(m[1..], m[0].key);
  }

  lemma {:induction false} FirstIsLeast<V>(a: seq<Entry<V>>, b: seq<Entry<V>>)
    requires Ascending(a) && a != [] && b != []
    requires Find(a, b[0].key) == Find(b, b[0].key)
    ensures !Less(b[0].key, a[0].key)
  {
    if Less(b[0].key, a[0].key) {
      FindBelow(a, b[0].key);
    }
  }

  /** Filling an empty map with the entries of a map gives the same map. */
  lemma {:induction false} InsertAllOfMap<V>(m: seq<Entry<V>>)
    requires Ascending(m)
    ensures InsertAll([], m) == m
  {
    forall key ensures Ascending(InsertAll([], m)) && Find(InsertAll([], m), key) == Find(m, key) {
      InsertAllLaws([], m, key);
    }
    assert Find(InsertAll([], m), "") == Find(m, "");
    SameMap(InsertAll([], m), m);
  }

  /** Inserting a key that is there changes nothing. */
  lemma {:induction false} InsertPresent<V>(m: seq<Entry<V>>, key: string, value: V)
    requires Ascending(m) && Find(m, key).Some?
    ensures Insert(m, key, value) == m
  {
    InsertLaws(m, key, value, key);
    forall other ensures Find(Insert(m, key, value), other) == Find(m, other) {
      InsertLaws(m, key, value, other);
    }
    SameMap(Insert(m, key, value), m);
  }

  /** Erasing a new key takes the insertion back. */
  lemma {:induction false} EraseInserted<V>(m: seq<Entry<V>>, key: string, value: V)
    requires Ascending(m) && Find(m, key).None?
    ensures Erase(Insert(m, key, value), key) == m
  {
    var after := Insert(m, key, value);
    InsertLaws(m, key, value, key);
    EraseLaws(after, key, key);
    forall other ensures Find(Erase(after, key), other) == Find(m, other) {
      InsertLaws(m, key, value, other);
      EraseLaws(after, key, other);
    }
    SameMap(Erase(after, key), m);
  }
}
