/**
 * JavaScript idioms the services share: a string-keyed record literal read with a
 * fallback (`table[key] || fallback`), and `slice(0, n)`.
 */
module Records {
  import opened Wrappers

  /** A record literal as its list of entries, in source order. */
  type Table<V> = seq<(string, V)>

  predicate HasKey<V>(table: Table<V>, key: string) {
    exists i :: 0 <= i < |table| && table[i].0 == key
  }

  ghost predicate DistinctKeys<V>(table: Table<V>) {
    forall i, j :: 0 <= i < j < |table| ==> table[i].0 != table[j].0
  }

  /** The value stored under `key`, if any. */
  function Lookup<V>(table: Table<V>, key: string): (r: Option<V>)
    ensures r.None? <==> !HasKey(table, key)
  {
    if table == [] then None
    else if table[0].0 == key then Some(table[0].1)
    else
      var r := Lookup(table[1..], key);
      assert HasKey(table, key) ==> table[0].0 == key || HasKey(table[1..], key) by {
        if HasKey(table, key) {
          var i :| 0 <= i < |table| && table[i].0 == key;
          if i > 0 { assert table[1..][i - 1].0 == key; }
        }
      }
      assert HasKey(table[1..], key) ==> HasKey(table, key) by {
        if HasKey(table[1..], key) {
          var i :| 0 <= i < |table[1..]| && table[1..][i].0 == key;
          assert table[i + 1].0 == key;
        }
      }
      r
  }

  /** With distinct keys, each entry is found under its own key. */
  lemma {:induction false} LookupEntry<V>(table: Table<V>, i: nat)
    requires DistinctKeys(table) && i < |table|
    ensures Lookup(table, table[i].0) == Some(table[i].1)
  {
    if i > 0 {
      assert table[0].0 != table[i].0;
      assert DistinctKeys(table[1..]) by {
        forall a, b | 0 <= a < b < |table[1..]| ensures table[1..][a].0 != table[1..][b].0 {
          assert table[1..][a] == table[a + 1] && table[1..][b] == table[b + 1];
        }
      }
      LookupEntry(table[1..], i - 1);
      assert table[1..][i - 1] == table[i];
    }
  }

  /** `table[key] || fallback` over string values: an empty value counts as missing. */
  function Get(table: Table<string>, key: string, fallback: string): string {
    match Lookup(table, key)
    case Some(v) => if v != "" then v else fallback
    case None => fallback
  }

  lemma GetEntry(table: Table<string>, i: nat, fallback: string)
    requires DistinctKeys(table) && i < |table| && table[i].1 != ""
    ensures Get(table, table[i].0, fallback) == table[i].1
  {
    LookupEntry(table, i);
  }

  lemma GetMissing(table: Table<string>, key: string, fallback: string)
    requires !HasKey(table, key)
    ensures Get(table, key, fallback) == fallback
  {
  }

  /** `xs.slice(0, n)`. */
  function Take<T>(xs: seq<T>, n: nat): (r: seq<T>)
    ensures |r| == if |xs| < n then |xs| else n
    ensures forall i :: 0 <= i < |r| ==> r[i] == xs[i]
  {
    if |xs| < n then xs else xs[..n]
  }
}
