/** Counters: maps from keys to amounts, a missing key counting nothing.

    The census adds sizes up in Python counters and the audit numbers equal mentions with a
    map of counts. Two laws carry both: a counter holds in all exactly what was put in, and
    the order of the additions does not matter. The sum over a map is taken key by key, in
    any order. */
module Counter {
  function Get<K>(counter: map<K, nat>, key: K): nat {
    if key in counter then counter[key] else 0
  }

  function Add<K>(counter: map<K, nat>, key: K, amount: nat): map<K, nat> {
    counter[key := Get(counter, key) + amount]
  }

  /** All entries added up, the first one first. */
  function Tally<K>(entries: seq<(K, nat)>): map<K, nat> {
    if entries == [] then map[]
    else var last := |entries| - 1; Add(Tally(entries[..last]), entries[last].0, entries[last].1)
  }

  /** What the entries hold for one key, and in all. */
  function For<K(==)>(entries: seq<(K, nat)>, key: K): nat {
    if entries == [] then 0
    else
      var last := |entries| - 1;
      For(entries[..last], key) + if entries[last].0 == key then entries[last].1 else 0
  }

  function Sum<K>(entries: seq<(K, nat)>): nat {
    if entries == [] then 0 else Sum(entries[..|entries| - 1]) + entries[|entries| - 1].1
  }

  lemma {:induction false} TallyGets<K>(entries: seq<(K, nat)>, key: K)
    ensures Get(Tally(entries), key) == For(entries, key)
    ensures key in Tally(entries) <==> exists i :: 0 <= i < |entries| && entries[i].0 == key
  {
    if entries != [] {
      var last := |entries| - 1;
      TallyGets(entries[..last], key);
      if key in Tally(entries[..last]) {
        var i :| 0 <= i < last && entries[..last][i].0 == key;
        assert entries[i].0 == key;
      }
    }
  }

  ghost function Total<K>(counter: map<K, nat>): nat
    decreases |counter|
  {
    if counter == map[] then 0 else var key :| key in counter; counter[key] + Total(counter - {key})
  }

  lemma {:induction false} TotalPick<K>(counter: map<K, nat>, key: K)
    requires key in counter
    ensures Total(counter) == counter[key] + Total(counter - {key})
    decreases |counter|
  {
    var first :| first in counter && Total(counter) == counter[first] + Total(counter - {first});
    if first != key {
      TotalPick(counter - {first}, key);
      TotalPick(counter - {key}, first);
      assert counter - {first} - {key} == counter - {key} - {first};
    }
  }

  lemma TotalAdd<K>(counter: map<K, nat>, key: K, amount: nat)
    ensures Total(Add(counter, key, amount)) == Total(counter) + amount
  {
    TotalPick(Add(counter, key, amount), key);
    assert Add(counter, key, amount) - {key} == counter - {key};
    if key in counter {
      TotalPick(counter, key);
    } else {
      assert counter - {key} == counter;
    }
  }

  /** A counter holds exactly what was put in. */
  lemma {:induction false} TallyTotals<K>(entries: seq<(K, nat)>)
    ensures Total(Tally(entries)) == Sum(entries)
  {
    if entries != [] {
      var last := |entries| - 1;
      TallyTotals(entries[..last]);
      TotalAdd(Tally(entries[..last]), entries[last].0, entries[last].1);
    }
  }

  lemma {:induction false} ForSplit<K>(a: seq<(K, nat)>, b: seq<(K, nat)>, key: K)
    ensures For(a + b, key) == For(a, key) + For(b, key)
  {
    if b == [] {
      assert a + b == a;
    } else {
      assert (a + b)[..|a + b| - 1] == a + b[..|b| - 1];
      ForSplit(a, b[..|b| - 1], key);
    }
  }

  lemma ForWithout<K>(entries: seq<(K, nat)>, i: nat, key: K)
    requires i < |entries|
    ensures For(entries, key)
         == For(entries[..i] + entries[i + 1..], key) + if entries[i].0 == key then entries[i].1 else 0
  {
    assert entries == entries[..i] + ([entries[i]] + entries[i + 1..]);
    ForSplit(entries[..i], [entries[i]] + entries[i + 1..], key);
    ForSplit([entries[i]], entries[i + 1..], key);
    ForSplit(entries[..i], entries[i + 1..], key);
  }

  lemma MultisetWithout<T>(s: seq<T>, i: nat)
    requires i < |s|
    ensures multiset(s[..i] + s[i + 1..]) == multiset(s) - multiset{s[i]}
  {
    assert s == s[..i] + ([s[i]] + s[i + 1..]);
  }

  lemma {:induction false} ForPermutes<K>(a: seq<(K, nat)>, b: seq<(K, nat)>, key: K)
    requires multiset(a) == multiset(b)
    ensures For(a, key) == For(b, key)
    decreases |a|
  {
    assert |a| == |multiset(a)| == |multiset(b)| == |b|;
    if a != [] {
      var last := |a| - 1;
      assert a[last] in multiset(a);
      var i :| 0 <= i < |b| && b[i] == a[last];
      MultisetWithout(a, last);
      MultisetWithout(b, i);
      assert a[..last] + a[last + 1..] == a[..last];
      ForPermutes(a[..last], b[..i] + b[i + 1..], key);
      ForWithout(b, i, key);
    }
  }

  lemma SameKeys<K>(a: seq<(K, nat)>, b: seq<(K, nat)>, key: K)
    requires multiset(a) == multiset(b) && key in Tally(a)
    ensures key in Tally(b)
  {
    TallyGets(a, key);
    var i :| 0 <= i < |a| && a[i].0 == key;
    assert a[i] in multiset(a);
    var j :| 0 <= j < |b| && b[j] == a[i];
    TallyGets(b, key);
  }

  /** The order in which entries are added does not matter. */
  lemma TallyPermutes<K(!new)>(a: seq<(K, nat)>, b: seq<(K, nat)>)
    requires multiset(a) == multiset(b)
    ensures Tally(a) == Tally(b)
  {
    forall key
      ensures key in Tally(a) <==> key in Tally(b)
      ensures key in Tally(a) ==> Tally(a)[key] == Tally(b)[key]
    {
      if key in Tally(a) {
        SameKeys(a, b, key);
      }
      if key in Tally(b) {
        SameKeys(b, a, key);
      }
      TallyGets(a, key);
      TallyGets(b, key);
      ForPermutes(a, b, key);
    }
  }
}
