/** The counting dictionaries of the scripts (`Counter()`, `defaultdict(int)`
    and a plain `dict` filled with `d[k] += 1`) and the ranking of their items
    by `sorted(d.items(), key=lambda x: x[1], reverse=True)`.

    A Python dictionary remembers the order in which its keys were first
    inserted, and that order decides how `sorted` leaves ties, so a counter is
    an association list in insertion order rather than a `map`. */
module Counters {

  datatype Entry = Entry(key: string, count: nat)

  type Counter = seq<Entry>

  /** The keys in insertion order (`d.keys()`). */
  function Keys(c: Counter): (ks: seq<string>)
    ensures |ks| == |c|
    ensures forall i :: 0 <= i < |c| ==> ks[i] == c[i].key
  {
    if c == [] then [] else [c[0].key] + Keys(c[1..])
  }

  /** No key twice, and only keys that were incremented at least once. */
  predicate Valid(c: Counter) {
    && (forall i, j :: 0 <= i < j < |c| ==> c[i].key != c[j].key)
    && (forall i :: 0 <= i < |c| ==> c[i].count >= 1)
  }

  /** `d[k]` of a `defaultdict(int)` or `Counter`: 0 for an absent key. */
  function Get(c: Counter, k: string): nat {
    if c == [] then 0 else if c[0].key == k then c[0].count else Get(c[1..], k)
  }

  /** Total of all counts (`sum(d.values())`). */
  function Sum(c: Counter): nat {
    if c == [] then 0 else c[0].count + Sum(c[1..])
  }

  lemma {:induction false} GetAbsent(c: Counter, k: string)
    requires k !in Keys(c)
    ensures Get(c, k) == 0
  {
    if c != [] {
      assert k != Keys(c)[0];
      assert Keys(c[1..]) == Keys(c)[1..];
      GetAbsent(c[1..], k);
    }
  }

  /** In a valid counter `Get` finds the one entry holding the key. */
  lemma {:induction false} GetAt(c: Counter, i: nat)
    requires Valid(c) && i < |c|
    ensures Get(c, c[i].key) == c[i].count
  {
    if i > 0 {
      assert c[0].key != c[i].key;
      GetAt(c[1..], i - 1);
    }
  }

  /** `d[k] += 1`: an existing key keeps its place, a new one goes last. */
  function Inc(c: Counter, k: string): (r: Counter)
    ensures Get(r, k) == Get(c, k) + 1
    ensures forall j :: j != k ==> Get(r, j) == Get(c, j)
    ensures Sum(r) == Sum(c) + 1
  {
    if c == [] then [Entry(k, 1)]
    else if c[0].key == k then [Entry(k, c[0].count + 1)] + c[1..]
    else
      var r := [c[0]] + Inc(c[1..], k);
      assert r[1..] == Inc(c[1..], k);
      r
  }

  /** Incrementing keeps the insertion order of the keys present and
      appends a new key at the end. */
  lemma {:induction false} IncKeys(c: Counter, k: string)
    ensures Keys(Inc(c, k)) == if k in Keys(c) then Keys(c) else Keys(c) + [k]
  {
    if c != [] && c[0].key != k {
      IncKeys(c[1..], k);
      assert Keys(c) == [c[0].key] + Keys(c[1..]);
      assert Inc(c, k)[1..] == Inc(c[1..], k);
    }
  }

  /** A valid counter stays valid with an entry for a new key in front. */
  lemma ValidCons(e: Entry, t: Counter)
    requires Valid(t) && e.count >= 1 && e.key !in Keys(t)
    ensures Valid([e] + t)
  {
    var r := [e] + t;
    assert forall j :: 0 < j < |r| ==> r[j] == t[j - 1];
    forall i, j | 0 <= i < j < |r| ensures r[i].key != r[j].key {
      if i == 0 {
        assert Keys(t)[j - 1] == t[j - 1].key;
      }
    }
  }

  /** The tail of a valid counter is valid and does not hold its head's key. */
  lemma ValidTail(c: Counter)
    requires Valid(c) && c != []
    ensures Valid(c[1..]) && c[0].key !in Keys(c[1..])
  {
    forall i | 0 <= i < |c| - 1 ensures Keys(c[1..])[i] != c[0].key {
      assert c[1..][i] == c[i + 1];
    }
  }

  lemma {:induction false} IncValid(c: Counter, k: string)
    requires Valid(c)
    ensures Valid(Inc(c, k))
  {
    if c == [] {
    } else if c[0].key == k {
      ValidTail(c);
      ValidCons(Entry(k, c[0].count + 1), c[1..]);
    } else {
      var t := Inc(c[1..], k);
      ValidTail(c);
      IncValid(c[1..], k);
      IncKeys(c[1..], k);
      assert c[0].key !in Keys(t) by {
        if k !in Keys(c[1..]) {
          assert c[0].key !in [k];
        }
      }
      ValidCons(c[0], t);
    }
  }

  /** Counting `ks` one key at a time from an empty dictionary. */
  function CountKeys(ks: seq<string>): Counter {
    if ks == [] then [] else Inc(CountKeys(ks[..|ks| - 1]), ks[|ks| - 1])
  }

  lemma CountKeysSnoc(ks: seq<string>, k: string)
    ensures CountKeys(ks + [k]) == Inc(CountKeys(ks), k)
  {
    assert (ks + [k])[..|ks|] == ks;
  }

  /** A counter built by counting `ks` holds each key with its number of
      occurrences, each distinct key once with a count of at least 1, and
      counts that total `|ks|`. */
  lemma {:induction false} CountKeysCounts(ks: seq<string>)
    ensures Valid(CountKeys(ks))
    ensures Sum(CountKeys(ks)) == |ks|
    ensures forall k :: Get(CountKeys(ks), k) == multiset(ks)[k]
    ensures forall k :: k in Keys(CountKeys(ks)) <==> k in ks
  {
    if ks != [] {
      var init := ks[..|ks| - 1];
      var k := ks[|ks| - 1];
      assert ks == init + [k];
      CountKeysCounts(init);
      IncValid(CountKeys(init), k);
      IncKeys(CountKeys(init), k);
    }
  }

  /** The distinct keys of `ks`, each where it first occurs. */
  function FirstOccurrences(ks: seq<string>): seq<string> {
    if ks == [] then []
    else
      var init := ks[..|ks| - 1];
      FirstOccurrences(init) + (if ks[|ks| - 1] in init then [] else [ks[|ks| - 1]])
  }

  /** The keys of a counter built by counting `ks` are the distinct keys of
      `ks` in the order of their first occurrence. */
  lemma {:induction false} CountKeysOrder(ks: seq<string>)
    ensures Keys(CountKeys(ks)) == FirstOccurrences(ks)
  {
    if ks != [] {
      var init := ks[..|ks| - 1];
      var k := ks[|ks| - 1];
      CountKeysOrder(init);
      CountKeysCounts(init);
      IncKeys(CountKeys(init), k);
      if k in init {
        assert k in Keys(CountKeys(init));
      } else {
        assert k !in Keys(CountKeys(init));
      }
    }
  }

  // ---------------------------------------------------------------------
  // sorted(d.items(), key=lambda x: x[1], reverse=True)

  predicate NonIncreasing(c: Counter) {
    forall i, j :: 0 <= i < j < |c| ==> c[i].count >= c[j].count
  }

  /** The entries with count `n`, in their order in `c`. */
  function WithCount(c: Counter, n: nat): Counter {
    if c == [] then []
    else (if c[0].count == n then [c[0]] else []) + WithCount(c[1..], n)
  }

  /** Puts `e` in front of the first entry whose count is not larger. */
  function InsertByCount(e: Entry, s: Counter): (r: Counter)
    requires NonIncreasing(s)
    ensures NonIncreasing(r)
    ensures multiset(r) == multiset(s) + multiset{e}
    ensures |r| == |s| + 1
    ensures r[0] == e || (s != [] && r[0] == s[0])
  {
    if s == [] || e.count >= s[0].count then [e] + s
    else
      var t := InsertByCount(e, s[1..]);
      assert s == [s[0]] + s[1..];
      [s[0]] + t
  }

  lemma WithCountCons(e: Entry, s: Counter, n: nat)
    ensures WithCount([e] + s, n) == (if e.count == n then [e] else []) + WithCount(s, n)
  {
    assert ([e] + s)[0] == e && ([e] + s)[1..] == s;
  }

  lemma {:induction false} InsertByCountStable(e: Entry, s: Counter, n: nat)
    requires NonIncreasing(s)
    ensures WithCount(InsertByCount(e, s), n) == (if e.count == n then [e] else []) + WithCount(s, n)
  {
    if s == [] || e.count >= s[0].count {
      WithCountCons(e, s, n);
    } else {
      var t := InsertByCount(e, s[1..]);
      InsertByCountStable(e, s[1..], n);
      WithCountCons(s[0], t, n);
      var here := if s[0].count == n then [s[0]] else [];
      var mine := if e.count == n then [e] else [];
      var rest := WithCount(s[1..], n);
      assert WithCount(s, n) == here + rest;
      if here == [] {
        assert [] + (mine + rest) == mine + rest;
        assert [] + rest == rest;
      } else {
        assert mine == [];
        assert [] + rest == rest;
      }
    }
  }

  /** A key of the tail of a counter is a key of the counter. */
  lemma KeysTail(s: Counter)
    requires s != []
    ensures forall k :: k in Keys(s[1..]) ==> k in Keys(s)
  {
    forall i | 0 <= i < |s| - 1 ensures Keys(s[1..])[i] == Keys(s)[i + 1] {
    }
  }

  /** Inserting an entry adds only that entry's key. */
  lemma KeyAbsentFromInsert(e: Entry, s: Counter, k: string)
    requires NonIncreasing(s) && k !in Keys(s) && k != e.key
    ensures k !in Keys(InsertByCount(e, s))
  {
    var r := InsertByCount(e, s);
    forall i | 0 <= i < |r| ensures Keys(r)[i] != k {
      assert r[i] in multiset(s) + multiset{e};
      if r[i] != e {
        assert r[i] in multiset(s);
        var j :| 0 <= j < |s| && s[j] == r[i];
        assert Keys(s)[j] == r[i].key;
      }
    }
  }

  lemma {:induction false} InsertByCountValid(e: Entry, s: Counter)
    requires NonIncreasing(s) && Valid(s)
    requires e.count >= 1 && e.key !in Keys(s)
    ensures Valid(InsertByCount(e, s))
  {
    if s == [] || e.count >= s[0].count {
      ValidCons(e, s);
    } else {
      ValidTail(s);
      KeysTail(s);
      InsertByCountValid(e, s[1..]);
      assert e.key != s[0].key by {
        assert Keys(s)[0] == s[0].key;
      }
      KeyAbsentFromInsert(e, s[1..], s[0].key);
      ValidCons(s[0], InsertByCount(e, s[1..]));
    }
  }

  /** Stable ranking by count, largest first: the same entries, ordered by
      non-increasing count. */
  function SortByCount(c: Counter): (r: Counter)
    ensures multiset(r) == multiset(c)
    ensures |r| == |c|
    ensures NonIncreasing(r)
  {
    if c == [] then []
    else
      assert c == [c[0]] + c[1..];
      InsertByCount(c[0], SortByCount(c[1..]))
  }

  /** `sorted` is stable and `reverse=True` keeps it so: entries of equal
      count stay in insertion order. */
  lemma {:induction false} SortByCountStable(c: Counter, n: nat)
    ensures WithCount(SortByCount(c), n) == WithCount(c, n)
  {
    if c != [] {
      SortByCountStable(c[1..], n);
      InsertByCountStable(c[0], SortByCount(c[1..]), n);
    }
  }

  /** A key absent from a counter is absent from any reordering of it. */
  lemma KeyAbsentFromPermutation(a: Counter, b: Counter, k: string)
    requires multiset(a) == multiset(b) && k !in Keys(a)
    ensures k !in Keys(b)
  {
    forall i | 0 <= i < |b| ensures Keys(b)[i] != k {
      assert b[i] in multiset(a);
      var j :| 0 <= j < |a| && a[j] == b[i];
      assert Keys(a)[j] == b[i].key;
    }
  }

  /** Ranking a valid counter gives a valid counter. */
  lemma {:induction false} SortByCountValid(c: Counter)
    requires Valid(c)
    ensures Valid(SortByCount(c))
  {
    if c != [] {
      ValidTail(c);
      SortByCountValid(c[1..]);
      var t := SortByCount(c[1..]);
      KeyAbsentFromPermutation(c[1..], t, c[0].key);
      InsertByCountValid(c[0], t);
    }
  }

  /** Each entry of a valid counter keeps its count in the ranking. */
  lemma RankingKeepsCounts(c: Counter, i: nat)
    requires Valid(c) && i < |c|
    ensures Get(SortByCount(c), c[i].key) == c[i].count
  {
    var r := SortByCount(c);
    SortByCountValid(c);
    assert c[i] in multiset(r);
    var j :| 0 <= j < |r| && r[j] == c[i];
    GetAt(r, j);
  }

  /** Ranking changes no count. */
  lemma SortByCountGet(c: Counter, k: string)
    requires Valid(c)
    ensures Get(SortByCount(c), k) == Get(c, k)
  {
    var r := SortByCount(c);
    if i :| 0 <= i < |c| && c[i].key == k {
      RankingKeepsCounts(c, i);
      GetAt(c, i);
    } else {
      assert k !in Keys(c);
      forall j | 0 <= j < |r| ensures Keys(r)[j] != k {
        assert r[j] in multiset(c);
      }
      GetAbsent(c, k);
      GetAbsent(r, k);
    }
  }
}
