/**
 * The counting maps of the monitor's statistics (`BTreeMap<String, usize>`), as a
 * sequence of entries kept in strictly ascending key order: iterating the sequence is
 * iterating the map. `Bump` is `*map.entry(key).or_insert(0) += 1`.
 */
module SortedCounts {

  /** The ordering of Rust's `String`: lexicographic by character (UTF-8 byte order is code point order). */
  predicate Less(a: string, b: string)
    decreases |a|
  {
    if |a| == 0 then |b| > 0
    else if |b| == 0 then false
    else if a[0] == b[0] then Less(a[1..], b[1..])
    else a[0] < b[0]
  }

  lemma {:induction false} LessIrreflexive(a: string)
    ensures !Less(a, a)
    decreases |a|
  {
    if |a| > 0 {
      LessIrreflexive(a[1..]);
    }
  }

  lemma {:induction false} LessTransitive(a: string, b: string, c: string)
    requires Less(a, b) && Less(b, c)
    ensures Less(a, c)
    decreases |a|
  {
    if |a| > 0 && a[0] == b[0] && b[0] == c[0] {
      LessTransitive(a[1..], b[1..], c[1..]);
    }
  }

  lemma {:induction false} LessTotal(a: string, b: string)
    ensures a == b || Less(a, b) || Less(b, a)
    decreases |a|
  {
    if |a| > 0 && |b| > 0 && a[0] == b[0] {
      LessTotal(a[1..], b[1..]);
      if a[1..] == b[1..] {
        assert a == [a[0]] + a[1..] && b == [b[0]] + b[1..];
      }
    }
  }

  /** One entry of the map: a key and the number of times it was counted. */
  datatype Entry = Entry(key: string, count: nat)

  type Counts = seq<Entry>

  /** Keys strictly ascending, hence distinct: the shape of a BTreeMap's iteration. */
  ghost predicate Sorted(c: Counts) {
    forall i, j :: 0 <= i < j < |c| ==> Less(c[i].key, c[j].key)
  }

  function Keys(c: Counts): set<string>
    decreases |c|
  {
    if c == [] then {} else {c[0].key} + Keys(c[1..])
  }

  lemma {:induction false} KeysAt(c: Counts, k: string)
    ensures k in Keys(c) <==> exists i :: 0 <= i < |c| && c[i].key == k
    decreases |c|
  {
    if c != [] {
      KeysAt(c[1..], k);
      if k in Keys(c[1..]) {
        var i :| 0 <= i < |c[1..]| && c[1..][i].key == k;
        assert c[i + 1].key == k;
      }
      if exists i :: 0 <= i < |c| && c[i].key == k {
        var i :| 0 <= i < |c| && c[i].key == k;
        if i > 0 { assert c[1..][i - 1].key == k; }
      }
    }
  }

  /** A sorted map is its first entry below a sorted rest. */
  lemma SortedCons(e: Entry, c: Counts)
    ensures Sorted([e] + c) <==> Sorted(c) && AllAbove(e.key, c)
  {
    if Sorted([e] + c) {
      SortedConsSplit(e, c);
    }
    if Sorted(c) && AllAbove(e.key, c) {
      SortedConsJoin(e, c);
    }
  }

  /** Every key of `c` is above `key`. */
  ghost predicate AllAbove(key: string, c: Counts) {
    forall k :: k in Keys(c) ==> Less(key, k)
  }

  lemma SortedConsSplit(e: Entry, c: Counts)
    requires Sorted([e] + c)
    ensures Sorted(c) && AllAbove(e.key, c)
  {
    var r := [e] + c;
    assert r[0] == e;
    forall k | k in Keys(c) ensures Less(e.key, k) {
      KeysAt(c, k);
      var i :| 0 <= i < |c| && c[i].key == k;
      assert r[i + 1].key == k;
    }
    forall i, j | 0 <= i < j < |c| ensures Less(c[i].key, c[j].key) {
      assert r[i + 1] == c[i] && r[j + 1] == c[j];
    }
  }

  lemma SortedConsJoin(e: Entry, c: Counts)
    requires Sorted(c) && AllAbove(e.key, c)
    ensures Sorted([e] + c)
  {
    var r := [e] + c;
    assert r[0] == e;
    forall i, j | 0 <= i < j < |r| ensures Less(r[i].key, r[j].key) {
      if i == 0 {
        assert r[j] == c[j - 1];
        KeysAt(c, c[j - 1].key);
      } else {
        assert r[i] == c[i - 1] && r[j] == c[j - 1];
      }
    }
  }

  /** `map.get(key).copied().unwrap_or(0)`. */
  function Get(c: Counts, key: string): nat
    decreases |c|
  {
    if c == [] then 0 else if c[0].key == key then c[0].count else Get(c[1..], key)
  }

  /** The sum of the map's values. */
  function Sum(c: Counts): nat
    decreases |c|
  {
    if c == [] then 0 else c[0].count + Sum(c[1..])
  }

  /** `*map.entry(key).or_insert(0) += 1`, keeping the keys in order. */
  function Bump(c: Counts, key: string): Counts
    decreases |c|
  {
    if c == [] then [Entry(key, 1)]
    else if c[0].key == key then [Entry(key, c[0].count + 1)] + c[1..]
    else if Less(key, c[0].key) then [Entry(key, 1)] + c
    else [c[0]] + Bump(c[1..], key)
  }

  lemma {:induction false} GetAbsent(c: Counts, key: string)
    requires key !in Keys(c)
    ensures Get(c, key) == 0
    decreases |c|
  {
    if c != [] {
      GetAbsent(c[1..], key);
    }
  }

  /** A key below the first key of a sorted map is below every key, so it is absent. */
  lemma BelowFirst(c: Counts, key: string)
    requires Sorted(c) && c != [] && Less(key, c[0].key)
    ensures forall k :: k in Keys(c) ==> Less(key, k)
    ensures key !in Keys(c)
  {
    assert c == [c[0]] + c[1..];
    SortedCons(c[0], c[1..]);
    forall k | k in Keys(c) ensures Less(key, k) {
      if k != c[0].key {
        assert k in Keys(c[1..]);
        LessTransitive(key, c[0].key, k);
      }
    }
    LessIrreflexive(key);
  }

  lemma BumpSame(c: Counts, key: string)
    requires Sorted(c) && c != [] && c[0].key == key
    ensures Sorted(Bump(c, key))
    ensures Keys(Bump(c, key)) == Keys(c) + {key}
    ensures Get(Bump(c, key), key) == Get(c, key) + 1
    ensures forall k :: k != key ==> Get(Bump(c, key), k) == Get(c, k)
    ensures Sum(Bump(c, key)) == Sum(c) + 1
    ensures |Bump(c, key)| == |c| + (if key in Keys(c) then 0 else 1)
  {
    var r := Bump(c, key);
    assert c == [c[0]] + c[1..];
    assert r == [Entry(key, c[0].count + 1)] + c[1..];
    SortedCons(c[0], c[1..]);
    SortedCons(r[0], c[1..]);
  }

  lemma BumpBefore(c: Counts, key: string)
    requires Sorted(c) && c != [] && Less(key, c[0].key)
    ensures Sorted(Bump(c, key))
    ensures Keys(Bump(c, key)) == Keys(c) + {key}
    ensures Get(Bump(c, key), key) == Get(c, key) + 1
    ensures forall k :: k != key ==> Get(Bump(c, key), k) == Get(c, k)
    ensures Sum(Bump(c, key)) == Sum(c) + 1
    ensures |Bump(c, key)| == |c| + (if key in Keys(c) then 0 else 1)
  {
    BelowFirst(c, key);
    var r := Bump(c, key);
    assert r == [Entry(key, 1)] + c;
    GetAbsent(c, key);
    SortedCons(Entry(key, 1), c);
  }

  lemma BumpAfter(c: Counts, key: string)
    requires Sorted(c) && c != [] && c[0].key != key && !Less(key, c[0].key)
    requires Sorted(Bump(c[1..], key))
    requires Keys(Bump(c[1..], key)) == Keys(c[1..]) + {key}
    ensures Sorted(Bump(c, key))
    ensures Keys(Bump(c, key)) == Keys(c) + {key}
  {
    var t := Bump(c[1..], key);
    assert Bump(c, key) == [c[0]] + t;
    assert c == [c[0]] + c[1..];
    SortedCons(c[0], c[1..]);
    LessTotal(key, c[0].key);
    SortedCons(c[0], t);
  }

  /**
   * Counting a key keeps the map sorted, adds the key, raises its count by one,
   * leaves every other count alone, and raises the total by one.
   */
  lemma {:induction false} BumpSpec(c: Counts, key: string)
    requires Sorted(c)
    ensures Sorted(Bump(c, key))
    ensures Keys(Bump(c, key)) == Keys(c) + {key}
    ensures Get(Bump(c, key), key) == Get(c, key) + 1
    ensures forall k :: k != key ==> Get(Bump(c, key), k) == Get(c, k)
    ensures Sum(Bump(c, key)) == Sum(c) + 1
    ensures |Bump(c, key)| == |c| + (if key in Keys(c) then 0 else 1)
    decreases |c|
  {
    if c == [] {
    } else if c[0].key == key {
      BumpSame(c, key);
    } else if Less(key, c[0].key) {
      BumpBefore(c, key);
    } else {
      assert c == [c[0]] + c[1..];
      SortedCons(c[0], c[1..]);
      BumpSpec(c[1..], key);
      BumpAfter(c, key);
      var r := Bump(c, key);
      assert r == [c[0]] + Bump(c[1..], key);
      assert r[1..] == Bump(c[1..], key);
    }
  }
}
