/**
 * `Record<string, number>` as the TypeScript helpers use it: a list of
 * (key, value) entries in `Object.entries` order with distinct keys, where a
 * missing key reads as 0 (`record[key] || 0`).
 */
module NumericRecord {
  type Entry = (string, real)
  type Record = seq<Entry>

  function Value(e: Entry): real { e.1 }

  /** No key occurs twice, as in every JavaScript object. */
  predicate UniqueKeys(r: Record)
  {
    forall i, j :: 0 <= i < j < |r| ==> r[i].0 != r[j].0
  }

  /** The key of an entry. */
  function KeyOf(e: Entry): string { e.0 }

  /** Some entry has key `k`. */
  predicate HasKey(r: Record, k: string)
  {
    exists i :: 0 <= i < |r| && r[i].0 == k
  }

  /** `record[k] || 0`: the value stored under `k`, or 0. */
  function Get(r: Record, k: string): real
  {
    if |r| == 0 then 0.0 else if r[0].0 == k then r[0].1 else Get(r[1..], k)
  }

  /** `record[k] = (record[k] || 0) + v`: an existing key keeps its place, a new key goes last. */
  function Add(r: Record, k: string, v: real): (r': Record)
    ensures |r'| == if HasKey(r, k) then |r| else |r| + 1
  {
    if |r| == 0 then [(k, v)]
    else if r[0].0 == k then [(k, r[0].1 + v)] + r[1..]
    else
      assert HasKey(r, k) <==> HasKey(r[1..], k) by {
        if HasKey(r, k) {
          var i :| 0 <= i < |r| && r[i].0 == k;
          assert r[1..][i - 1].0 == k;
        }
        if HasKey(r[1..], k) {
          var i :| 0 <= i < |r[1..]| && r[1..][i].0 == k;
          assert r[i + 1].0 == k;
        }
      }
      [r[0]] + Add(r[1..], k, v)
  }

  /** Adding `v` under `k` changes the value under `k` by `v` and no other value. */
  lemma {:induction false} AddGet(r: Record, k: string, v: real, q: string)
    ensures Get(Add(r, k, v), q) == Get(r, q) + (if q == k then v else 0.0)
  {
    if |r| > 0 && r[0].0 != k {
      AddGet(r[1..], k, v, q);
      assert Add(r, k, v)[1..] == Add(r[1..], k, v);
    }
  }

  /** The keys after `Add` are the old keys and `k`. */
  lemma {:induction false} AddKeys(r: Record, k: string, v: real, q: string)
    ensures HasKey(Add(r, k, v), q) <==> HasKey(r, q) || q == k
  {
    var a := Add(r, k, v);
    if |r| == 0 {
      assert a[0].0 == k;
    } else if r[0].0 == k {
      assert forall i :: 0 <= i < |r| ==> a[i].0 == r[i].0;
    } else {
      AddKeys(r[1..], k, v, q);
      assert a == [r[0]] + Add(r[1..], k, v);
      if HasKey(a, q) {
        var i :| 0 <= i < |a| && a[i].0 == q;
        if i > 0 {
          assert Add(r[1..], k, v)[i - 1].0 == q;
          if HasKey(r[1..], q) {
            var j :| 0 <= j < |r[1..]| && r[1..][j].0 == q;
            assert r[j + 1].0 == q;
          }
        }
      }
      if HasKey(r, q) {
        var i :| 0 <= i < |r| && r[i].0 == q;
        if i > 0 {
          assert r[1..][i - 1].0 == q;
        }
      }
      if HasKey(r, q) || q == k {
        if q == k || !HasKey(r[1..], q) {
          if q != k {
            var i :| 0 <= i < |r| && r[i].0 == q;
            forall j | 1 <= j < |r| ensures r[j].0 != q {
              assert r[j] == r[1..][j - 1];
            }
            assert i == 0;
            assert a[0].0 == q;
          } else {
            var i :| 0 <= i < |Add(r[1..], k, v)| && Add(r[1..], k, v)[i].0 == q;
            assert a[i + 1].0 == q;
          }
        } else {
          var i :| 0 <= i < |Add(r[1..], k, v)| && Add(r[1..], k, v)[i].0 == q;
          assert a[i + 1].0 == q;
        }
      }
    }
  }

  /** `Add` keeps keys distinct. */
  lemma {:induction false} AddUnique(r: Record, k: string, v: real)
    requires UniqueKeys(r)
    ensures UniqueKeys(Add(r, k, v))
  {
    if |r| > 0 && r[0].0 != k {
      var tail := r[1..];
      AddUnique(tail, k, v);
      forall q ensures HasKey(Add(tail, k, v), q) <==> HasKey(tail, q) || q == k {
        AddKeys(tail, k, v, q);
      }
      var a := Add(r, k, v);
      forall i, j | 0 <= i < j < |a|
        ensures a[i].0 != a[j].0
      {
        if i == 0 {
          assert Add(tail, k, v)[j - 1].0 == a[j].0;
          assert HasKey(Add(tail, k, v), a[j].0);
          assert forall m :: 0 <= m < |tail| ==> tail[m].0 == r[m + 1].0;
        }
      }
    }
  }

  /** With distinct keys, reading an entry's key gives that entry's value. */
  lemma {:induction false} GetAt(r: Record, j: nat)
    requires UniqueKeys(r) && j < |r|
    ensures Get(r, r[j].0) == r[j].1
  {
    if j > 0 {
      assert r[0].0 != r[j].0;
      var tail := r[1..];
      assert UniqueKeys(tail) by {
        assert forall i :: 0 <= i < |tail| ==> tail[i] == r[i + 1];
      }
      GetAt(tail, j - 1);
    }
  }

  /** The accumulation loop over `entries`, in order. */
  function AddAll(r: Record, entries: seq<Entry>): Record
  {
    if |entries| == 0 then r
    else Add(AddAll(r, entries[..|entries| - 1]), entries[|entries| - 1].0, entries[|entries| - 1].1)
  }

  /** The sum of the values under `k` in `entries`, duplicates included. */
  function SumFor(entries: seq<Entry>, k: string): real
  {
    if |entries| == 0 then 0.0
    else SumFor(entries[..|entries| - 1], k) + (if entries[|entries| - 1].0 == k then entries[|entries| - 1].1 else 0.0)
  }

  /** After the loop the value under each key is its start value plus every value added under it. */
  lemma {:induction false} AddAllGet(r: Record, entries: seq<Entry>, q: string)
    ensures Get(AddAll(r, entries), q) == Get(r, q) + SumFor(entries, q)
  {
    if |entries| > 0 {
      var init := entries[..|entries| - 1];
      AddAllGet(r, init, q);
      AddGet(AddAll(r, init), entries[|entries| - 1].0, entries[|entries| - 1].1, q);
    }
  }

  /** After the loop the keys are the start keys and every key added. */
  lemma {:induction false} AddAllKeys(r: Record, entries: seq<Entry>, q: string)
    ensures HasKey(AddAll(r, entries), q) <==> HasKey(r, q) || exists j :: 0 <= j < |entries| && entries[j].0 == q
  {
    if |entries| > 0 {
      var init := entries[..|entries| - 1];
      AddAllKeys(r, init, q);
      AddKeys(AddAll(r, init), entries[|entries| - 1].0, entries[|entries| - 1].1, q);
      if exists j :: 0 <= j < |init| && init[j].0 == q {
        var j :| 0 <= j < |init| && init[j].0 == q;
        assert entries[j].0 == q;
      }
      if exists j :: 0 <= j < |entries| && entries[j].0 == q {
        var j :| 0 <= j < |entries| && entries[j].0 == q;
        if j < |init| {
          assert init[j].0 == q;
        }
      }
    }
  }

  lemma {:induction false} AddAllUnique(r: Record, entries: seq<Entry>)
    requires UniqueKeys(r)
    ensures UniqueKeys(AddAll(r, entries))
  {
    if |entries| > 0 {
      AddAllUnique(r, entries[..|entries| - 1]);
      AddUnique(AddAll(r, entries[..|entries| - 1]), entries[|entries| - 1].0, entries[|entries| - 1].1);
    }
  }

  /** In a record with distinct keys the sum under a key is its value. */
  lemma {:induction false} SumForUnique(r: Record, k: string)
    requires UniqueKeys(r)
    ensures SumFor(r, k) == Get(r, k)
  {
    if |r| > 0 {
      var init := r[..|r| - 1];
      assert UniqueKeys(init);
      SumForUnique(init, k);
      GetAppend(init, r[|r| - 1], k);
      if r[|r| - 1].0 == k {
        assert forall i :: 0 <= i < |init| ==> init[i] == r[i];
        assert init + [r[|r| - 1]] == r;
        NoKeyGet(init, k);
      } else {
        assert init + [r[|r| - 1]] == r;
        if !HasKey(init, k) {
          NoKeyGet(init, k);
        }
      }
    }
  }

  lemma {:induction false} GetAppend(r: Record, e: Entry, k: string)
    ensures Get(r + [e], k) == if HasKey(r, k) then Get(r, k) else if e.0 == k then e.1 else 0.0
  {
    if |r| > 0 {
      assert (r + [e])[1..] == r[1..] + [e];
      GetAppend(r[1..], e, k);
      if r[0].0 != k {
        assert HasKey(r, k) <==> HasKey(r[1..], k) by {
          if HasKey(r, k) {
            var i :| 0 <= i < |r| && r[i].0 == k;
            assert r[1..][i - 1].0 == k;
          }
          if HasKey(r[1..], k) {
            var i :| 0 <= i < |r[1..]| && r[1..][i].0 == k;
            assert r[i + 1].0 == k;
          }
        }
      }
    } else {
      assert [] + [e] == [e];
    }
  }

  lemma {:induction false} NoKeyGet(r: Record, k: string)
    requires !HasKey(r, k)
    ensures Get(r, k) == 0.0
  {
    if |r| > 0 {
      assert r[0].0 != k;
      assert forall i :: 0 <= i < |r[1..]| ==> r[1..][i] == r[i + 1];
      NoKeyGet(r[1..], k);
    }
  }

  /** The nested accumulation over several records: each record's entries in order, record after record. */
  function AccumulateAll(records: seq<Record>): Record
  {
    if |records| == 0 then [] else AddAll(AccumulateAll(records[..|records| - 1]), records[|records| - 1])
  }

  /** The sum of the values under `k` over all records. */
  function SumAcross(records: seq<Record>, k: string): real
  {
    if |records| == 0 then 0.0 else SumAcross(records[..|records| - 1], k) + SumFor(records[|records| - 1], k)
  }

  /** The accumulated value under a key is the sum of that key's values in all records. */
  lemma {:induction false} AccumulateAllGet(records: seq<Record>, k: string)
    ensures Get(AccumulateAll(records), k) == SumAcross(records, k)
    ensures UniqueKeys(AccumulateAll(records))
  {
    if |records| > 0 {
      AccumulateAllGet(records[..|records| - 1], k);
      AddAllGet(AccumulateAll(records[..|records| - 1]), records[|records| - 1], k);
      AddAllUnique(AccumulateAll(records[..|records| - 1]), records[|records| - 1]);
    }
  }

  /** The accumulated keys are exactly the keys of the records. */
  lemma {:induction false} AccumulateAllKeys(records: seq<Record>, k: string)
    ensures HasKey(AccumulateAll(records), k) <==> exists i :: 0 <= i < |records| && HasKey(records[i], k)
  {
    if |records| > 0 {
      var init := records[..|records| - 1];
      var last := records[|records| - 1];
      AccumulateAllKeys(init, k);
      AddAllKeys(AccumulateAll(init), last, k);
      if exists i :: 0 <= i < |init| && HasKey(init[i], k) {
        var i :| 0 <= i < |init| && HasKey(init[i], k);
        assert records[i] == init[i];
      }
      if exists i :: 0 <= i < |records| && HasKey(records[i], k) {
        var i :| 0 <= i < |records| && HasKey(records[i], k);
        if i < |init| {
          assert init[i] == records[i];
        }
      }
    }
  }

  /** `Object.values(record).reduce((sum, v) => sum + v, 0)`. */
  function Total(r: Record): real
  {
    if |r| == 0 then 0.0 else Total(r[..|r| - 1]) + r[|r| - 1].1
  }

  /** `Math.round`: the nearest integer, halves rounded up. */
  function Round(x: real): (n: int)
    ensures x - 0.5 < n as real <= x + 0.5
  {
    (x + 0.5).Floor
  }

  /** `s` is in non-increasing order of `key`. */
  predicate SortedDesc<T>(s: seq<T>, key: T -> real)
  {
    forall i, j :: 0 <= i < j < |s| ==> key(s[i]) >= key(s[j])
  }

  /** Puts `x` after every element whose key is at least its own. */
  function InsertDesc<T>(x: T, s: seq<T>, key: T -> real): seq<T>
  {
    if |s| == 0 then [x]
    else if key(s[0]) >= key(x) then [s[0]] + InsertDesc(x, s[1..], key)
    else [x] + s
  }

  /** Inserting adds exactly `x`. */
  lemma {:induction false} InsertDescCount<T>(x: T, s: seq<T>, key: T -> real)
    ensures multiset(InsertDesc(x, s, key)) == multiset(s) + multiset{x}
  {
    if |s| > 0 {
      assert s == [s[0]] + s[1..];
      if key(s[0]) >= key(x) {
        InsertDescCount(x, s[1..], key);
      }
    }
  }

  /** Every element after inserting is `x` or an element of `s`. */
  lemma {:induction false} InsertDescFrom<T>(x: T, s: seq<T>, key: T -> real)
    ensures forall j :: 0 <= j < |InsertDesc(x, s, key)| ==> InsertDesc(x, s, key)[j] == x || InsertDesc(x, s, key)[j] in s
  {
    if |s| > 0 && key(s[0]) >= key(x) {
      InsertDescFrom(x, s[1..], key);
      var rest := InsertDesc(x, s[1..], key);
      assert forall j :: 0 <= j < |rest| ==> rest[j] in s[1..] ==> rest[j] in s;
    }
  }

  /** Inserting into a sorted sequence keeps it sorted. */
  lemma {:induction false} InsertDescSorted<T>(x: T, s: seq<T>, key: T -> real)
    requires SortedDesc(s, key)
    ensures SortedDesc(InsertDesc(x, s, key), key)
  {
    if |s| > 0 && key(s[0]) >= key(x) {
      var tail := s[1..];
      assert SortedDesc(tail, key) by {
        assert forall i :: 0 <= i < |tail| ==> tail[i] == s[i + 1];
      }
      InsertDescSorted(x, tail, key);
      InsertDescFrom(x, tail, key);
      var rest := InsertDesc(x, tail, key);
      assert forall j :: 0 <= j < |rest| ==> key(s[0]) >= key(rest[j]) by {
        forall j | 0 <= j < |rest|
          ensures key(s[0]) >= key(rest[j])
        {
          if rest[j] != x {
            var m :| 0 <= m < |tail| && tail[m] == rest[j];
            assert s[m + 1] == rest[j];
          }
        }
      }
      var r := [s[0]] + rest;
      assert forall j :: 0 < j < |r| ==> r[j] == rest[j - 1];
    }
  }

  /**
   * `Array.prototype.sort` with the comparator `(a, b) => b.value - a.value`:
   * non-increasing by value and a permutation of the input. Insertion puts an
   * element after the equal ones already placed, as the stable JavaScript sort does.
   */
  function SortDesc<T>(s: seq<T>, key: T -> real): (r: seq<T>)
    ensures SortedDesc(r, key)
    ensures multiset(r) == multiset(s)
    ensures |r| == |s|
  {
    if |s| == 0 then []
    else
      assert s == s[..|s| - 1] + [s[|s| - 1]];
      var sorted := SortDesc(s[..|s| - 1], key);
      InsertDescSorted(s[|s| - 1], sorted, key);
      InsertDescCount(s[|s| - 1], sorted, key);
      InsertDesc(s[|s| - 1], sorted, key)
  }

  /** No two elements of `s` share a name. */
  predicate UniqueBy<T>(s: seq<T>, name: T -> string)
  {
    forall i, j :: 0 <= i < j < |s| ==> name(s[i]) != name(s[j])
  }

  /** In a sequence with distinct names no element occurs twice. */
  lemma {:induction false} UniqueByOnce<T>(s: seq<T>, name: T -> string, x: T)
    requires UniqueBy(s, name)
    ensures multiset(s)[x] <= 1
  {
    if |s| > 0 {
      var init := s[..|s| - 1];
      assert s == init + [s[|s| - 1]];
      assert UniqueBy(init, name);
      UniqueByOnce(init, name, x);
      if s[|s| - 1] == x {
        assert forall i :: 0 <= i < |init| ==> init[i] != x;
        assert x !in init;
      }
    }
  }

  /** An element at two positions occurs at least twice. */
  lemma Twice<T>(s: seq<T>, i: nat, j: nat)
    requires i < j < |s| && s[i] == s[j]
    ensures multiset(s)[s[i]] >= 2
  {
    assert s == s[..j] + [s[j]] + s[j + 1..];
    assert s[..j][i] == s[i];
  }

  /** Reordering keeps names distinct. */
  lemma PermutationUniqueBy<T>(a: seq<T>, b: seq<T>, name: T -> string)
    requires UniqueBy(a, name) && multiset(a) == multiset(b)
    ensures UniqueBy(b, name)
  {
    forall i, j | 0 <= i < j < |b|
      ensures name(b[i]) != name(b[j])
    {
      if b[i] == b[j] {
        Twice(b, i, j);
        UniqueByOnce(a, name, b[i]);
      } else {
        assert b[i] in multiset(a) && b[j] in multiset(a);
        var p :| 0 <= p < |a| && a[p] == b[i];
        var q :| 0 <= q < |a| && a[q] == b[j];
        assert p != q;
      }
    }
  }
}
