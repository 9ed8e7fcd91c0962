/** Dictionaries and sets keyed by characters, kept as the list of their
    entries in the order they were written. Lookups scan the list from the
    front, so facts about a table are proved entry by entry. */
module Tables {
  import opened Results

  /** A dictionary from characters to values: its entries in insertion order. */
  type Table<V> = seq<(char, V)>

  /** `table.get(c)`: the value of the first entry whose key is `c`. */
  function Get<V>(table: Table<V>, c: char): Option<V> {
    if table == [] then None
    else if table[0].0 == c then Some(table[0].1)
    else Get(table[1..], c)
  }

  /** `c in table`. */
  predicate HasKey<V>(table: Table<V>, c: char) {
    Get(table, c).Some?
  }

  /** `c in s` for a set given by the list of its elements. */
  predicate Contains(s: seq<char>, c: char) {
    if s == [] then false else s[0] == c || Contains(s[1..], c)
  }

  /** A key that is found is the key of an entry, the first one carrying
      it, and that entry's value is returned. */
  lemma {:induction false} GetIndex<V>(table: Table<V>, c: char) returns (i: nat)
    requires HasKey(table, c)
    ensures i < |table| && table[i].0 == c && Get(table, c) == Some(table[i].1)
    ensures forall j :: 0 <= j < i ==> table[j].0 != c
  {
    if table[0].0 == c {
      i := 0;
    } else {
      var k := GetIndex(table[1..], c);
      i := k + 1;
      forall j | 0 < j < i
        ensures table[j].0 != c
      {
        assert table[j] == table[1..][j - 1];
      }
    }
  }

  /** A key no entry carries is not found. */
  lemma {:induction false} GetAbsent<V>(table: Table<V>, c: char)
    requires forall i :: 0 <= i < |table| ==> table[i].0 != c
    ensures Get(table, c) == None
  {
    if table != [] {
      assert table[0].0 != c;
      forall i | 0 <= i < |table[1..]|
        ensures table[1..][i].0 != c
      {
        assert table[1..][i] == table[i + 1];
      }
      GetAbsent(table[1..], c);
    }
  }

  /** The first entry with a given key supplies its value. */
  lemma {:induction false} GetFirst<V>(table: Table<V>, i: nat)
    requires i < |table|
    requires forall j :: 0 <= j < i ==> table[j].0 != table[i].0
    ensures Get(table, table[i].0) == Some(table[i].1)
  {
    if i > 0 {
      assert table[0].0 != table[i].0;
      forall j | 0 <= j < i - 1
        ensures table[1..][j].0 != table[1..][i - 1].0
      {
        assert table[1..][j] == table[j + 1];
      }
      GetFirst(table[1..], i - 1);
    }
  }

  /** Every key of an entry is found. */
  lemma GetHasKey<V>(table: Table<V>, i: nat)
    requires i < |table|
    ensures HasKey(table, table[i].0)
  {
    var k: nat := 0;
    while k < i && table[k].0 != table[i].0
      invariant k <= i
      invariant forall j :: 0 <= j < k ==> table[j].0 != table[i].0
    {
      k := k + 1;
    }
    GetFirst(table, k);
  }

  /** Looking up in two tables written one after the other. */
  lemma {:induction false} GetAppend<V>(a: Table<V>, b: Table<V>, c: char)
    ensures Get(a + b, c) == if Get(a, c).Some? then Get(a, c) else Get(b, c)
  {
    if a == [] {
      assert a + b == b;
    } else {
      assert (a + b)[0] == a[0];
      assert (a + b)[1..] == a[1..] + b;
      GetAppend(a[1..], b, c);
    }
  }

  /** List membership is set membership. */
  lemma {:induction false} ContainsIsIn(s: seq<char>, c: char)
    ensures Contains(s, c) <==> c in s
  {
    if s != [] {
      ContainsIsIn(s[1..], c);
      assert s == [s[0]] + s[1..];
    }
  }

  /** No two entries of `table` share a key, as in a dictionary. */
  predicate DistinctKeys<V>(table: Table<V>) {
    forall i, j :: 0 <= i < j < |table| ==> table[i].0 != table[j].0
  }

  /** With distinct keys every entry is found by its key. A dictionary
      literal that repeats a key keeps the last value, a lookup in entries
      the first; without repeats the two readings agree. */
  lemma GetDistinct<V>(table: Table<V>, i: nat)
    requires DistinctKeys(table) && i < |table|
    ensures Get(table, table[i].0) == Some(table[i].1)
  {
    GetFirst(table, i);
  }

  /** Two tables with distinct keys and no key in common, written one
      after the other, still have distinct keys. */
  lemma DistinctKeysAppend<V>(a: Table<V>, b: Table<V>)
    requires DistinctKeys(a) && DistinctKeys(b)
    requires forall i, j :: 0 <= i < |a| && 0 <= j < |b| ==> a[i].0 != b[j].0
    ensures DistinctKeys(a + b)
  {
    forall i, j | 0 <= i < j < |a + b|
      ensures (a + b)[i].0 != (a + b)[j].0
    {
      if j < |a| {
        assert (a + b)[i] == a[i] && (a + b)[j] == a[j];
      } else if i < |a| {
        assert (a + b)[i] == a[i] && (a + b)[j] == b[j - |a|];
      } else {
        assert (a + b)[i] == b[i - |a|] && (a + b)[j] == b[j - |a|];
      }
    }
  }
}
