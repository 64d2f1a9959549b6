/**
 * The `MultiMap<String, String>` of the `multimap` crate that the album
 * stores its decks in: each key holds the list of values inserted under it,
 * in insertion order.
 */
module MultiMaps {

  type MultiMap = map<string, seq<string>>

  /** The values under `key`, or none when the key is absent. */
  function ValuesOf(m: MultiMap, key: string): seq<string> {
    if key in m then m[key] else []
  }

  /** `insert(key, value)`: appends `value` to the key's list, creating the key if absent. */
  function Insert(m: MultiMap, key: string, value: string): (r: MultiMap)
    ensures key in r && r[key] == ValuesOf(m, key) + [value]
  {
    m[key := ValuesOf(m, key) + [value]]
  }

  /** Inserts every value of `values` under `key`, in order. */
  function InsertAll(m: MultiMap, key: string, values: seq<string>): (r: MultiMap)
    ensures ValuesOf(r, key) == ValuesOf(m, key) + values
    decreases |values|
  {
    if |values| == 0 then m
    else
      assert values == values[..|values| - 1] + [values[|values| - 1]];
      Insert(InsertAll(m, key, values[..|values| - 1]), key, values[|values| - 1])
  }

  /** Inserting several values under one key appends them all to its list and touches nothing else. */
  lemma {:induction false} InsertAllAppends(m: MultiMap, key: string, values: seq<string>)
    ensures InsertAll(m, key, values) == if |values| == 0 then m else m[key := ValuesOf(m, key) + values]
    decreases |values|
  {
    if |values| > 0 {
      var init := values[..|values| - 1];
      var last := values[|values| - 1];
      InsertAllAppends(m, key, init);
      var before := InsertAll(m, key, init);
      assert ValuesOf(before, key) == ValuesOf(m, key) + init;
      assert ValuesOf(m, key) + init + [last] == ValuesOf(m, key) + values;
      assert InsertAll(m, key, values) == before[key := ValuesOf(m, key) + values];
    }
  }

  /** No key holds an empty list. */
  ghost predicate NoEmptyList(m: MultiMap) {
    forall k :: k in m ==> |m[k]| > 0
  }

  lemma InsertKeepsListsNonEmpty(m: MultiMap, key: string, value: string)
    requires NoEmptyList(m)
    ensures NoEmptyList(Insert(m, key, value))
  {
  }

  /** The sum of the lengths of all the lists, in no particular key order. */
  ghost function TotalLen(m: MultiMap): nat
    decreases |m|
  {
    if |m| == 0 then 0
    else
      var k :| k in m;
      |m[k]| + TotalLen(m - {k})
  }

  /** The key that the definition of TotalLen takes first. */
  lemma TotalLenChoice(m: MultiMap) returns (k: string)
    requires |m| > 0
    ensures k in m && TotalLen(m) == |m[k]| + TotalLen(m - {k})
  {
    k :| k in m && TotalLen(m) == |m[k]| + TotalLen(m - {k});
  }

  lemma RemoveCommutes(m: MultiMap, a: string, b: string)
    ensures m - {a} - {b} == m - {b} - {a}
  {
  }

  /** The total can be taken with any key first. */
  lemma {:induction false} TotalLenRemove(m: MultiMap, key: string)
    requires key in m
    ensures TotalLen(m) == |m[key]| + TotalLen(m - {key})
    decreases |m|
  {
    var k := TotalLenChoice(m);
    if k != key {
      var withoutK := m - {k};
      var withoutKey := m - {key};
      assert key in withoutK && withoutK[key] == m[key];
      assert k in withoutKey && withoutKey[k] == m[k];
      TotalLenRemove(withoutK, key);
      TotalLenRemove(withoutKey, k);
      RemoveCommutes(m, k, key);
    }
  }

  /** An insert touches no key but its own. */
  lemma InsertOthersUnchanged(m: MultiMap, key: string, value: string)
    ensures Insert(m, key, value) - {key} == m - {key}
  {
  }

  lemma RemoveAbsent(m: MultiMap, key: string)
    requires key !in m
    ensures m - {key} == m
  {
  }

  /** An insert adds exactly one value to the total. */
  lemma InsertTotalLen(m: MultiMap, key: string, value: string)
    ensures TotalLen(Insert(m, key, value)) == TotalLen(m) + 1
  {
    var r := Insert(m, key, value);
    TotalLenRemove(r, key);
    InsertOthersUnchanged(m, key, value);
    if key in m {
      TotalLenRemove(m, key);
    } else {
      RemoveAbsent(m, key);
    }
  }

  /** An insert adds a key exactly when the key was absent. */
  lemma InsertKeyCount(m: MultiMap, key: string, value: string)
    ensures |Insert(m, key, value)| == if key in m then |m| else |m| + 1
  {
    var r := Insert(m, key, value);
    if key in m {
      assert r.Keys == m.Keys;
    } else {
      assert |m.Keys + {key}| == |m.Keys| + 1;
    }
  }

  /** Inserting several values adds as many to the total. */
  lemma {:induction false} InsertAllTotalLen(m: MultiMap, key: string, values: seq<string>)
    ensures TotalLen(InsertAll(m, key, values)) == TotalLen(m) + |values|
    decreases |values|
  {
    if |values| > 0 {
      InsertAllTotalLen(m, key, values[..|values| - 1]);
      InsertTotalLen(InsertAll(m, key, values[..|values| - 1]), key, values[|values| - 1]);
    }
  }

  /** With no empty list, every key contributes at least one value. */
  lemma {:induction false} TotalLenAtLeastKeys(m: MultiMap)
    ensures NoEmptyList(m) ==> TotalLen(m) >= |m|
    decreases |m|
  {
    if |m| > 0 && NoEmptyList(m) {
      var k :| k in m;
      TotalLenRemove(m, k);
      TotalLenAtLeastKeys(m - {k});
    }
  }
}
