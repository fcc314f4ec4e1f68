/**
 * Sequences of records keyed by an integer `Id`, the shape both in-memory services and the
 * page's copy of the task list share. `key` extracts the `Id`; every operation here is what
 * the services and the page do with JavaScript's `findIndex`, `Math.max`, `splice`, `map`
 * and `filter` over such a sequence.
 */
module Keyed {
  import opened Options

  /** `findIndex(r => r.Id === id)`: the index of the first record with that key, if any. */
  function IndexOf<T>(s: seq<T>, key: T -> int, id: int): (r: Option<nat>)
    ensures r.Some? ==> r.value < |s| && key(s[r.value]) == id
    ensures r.Some? ==> forall j :: 0 <= j < r.value ==> key(s[j]) != id
    ensures r.None? <==> forall j :: 0 <= j < |s| ==> key(s[j]) != id
  {
    if s == [] then None
    else if key(s[0]) == id then Some(0)
    else
      match IndexOf(s[1..], key, id)
      case None => None
      case Some(i) => Some(i + 1)
  }

  /** `Math.max(...s.map(key), 0)`. */
  function MaxKey<T>(s: seq<T>, key: T -> int): (m: int)
    ensures m >= 0
    ensures forall j :: 0 <= j < |s| ==> key(s[j]) <= m
    ensures m == 0 || exists j :: 0 <= j < |s| && key(s[j]) == m
  {
    if s == [] then 0
    else
      var rest := MaxKey(s[1..], key);
      if key(s[0]) > rest then key(s[0]) else rest
  }

  /** The key `create` hands out: one more than the largest key, counting 0 as present. */
  function NextKey<T>(s: seq<T>, key: T -> int): (k: int)
    ensures k >= 1
    ensures forall j :: 0 <= j < |s| ==> key(s[j]) < k
    ensures s == [] ==> k == 1
    ensures k == 1 || exists j :: 0 <= j < |s| && key(s[j]) == k - 1
  {
    MaxKey(s, key) + 1
  }

  /** `splice(i, 1)`: the sequence without its element at `i`. */
  function RemoveAt<T>(s: seq<T>, i: nat): (r: seq<T>)
    requires i < |s|
    ensures |r| == |s| - 1
    ensures forall j :: 0 <= j < i ==> r[j] == s[j]
    ensures forall j :: i <= j < |r| ==> r[j] == s[j + 1]
  {
    s[..i] + s[i + 1..]
  }

  /** `map(r => r.Id === id ? x : r)`: every record with key `id` replaced by `x`. */
  function ReplaceWhere<T>(s: seq<T>, key: T -> int, id: int, x: T): (r: seq<T>)
    ensures |r| == |s|
    ensures forall j :: 0 <= j < |s| && key(s[j]) == id ==> r[j] == x
    ensures forall j :: 0 <= j < |s| && key(s[j]) != id ==> r[j] == s[j]
  {
    if s == [] then []
    else [if key(s[0]) == id then x else s[0]] + ReplaceWhere(s[1..], key, id, x)
  }

  /** `filter(r => r.Id !== id)`: every record with key `id` dropped, the rest kept in order. */
  function RemoveWhere<T>(s: seq<T>, key: T -> int, id: int): (r: seq<T>)
    ensures |r| <= |s|
    ensures forall j :: 0 <= j < |r| ==> key(r[j]) != id
  {
    if s == [] then []
    else if key(s[0]) == id then RemoveWhere(s[1..], key, id)
    else [s[0]] + RemoveWhere(s[1..], key, id)
  }

  /** No two records share a key. */
  ghost predicate Unique<T>(s: seq<T>, key: T -> int) {
    forall i, j :: 0 <= i < j < |s| ==> key(s[i]) != key(s[j])
  }

  /** At most one record has the key `id`; other keys may repeat. */
  ghost predicate AtMostOnce<T>(s: seq<T>, key: T -> int, id: int) {
    forall i, j :: 0 <= i < j < |s| && key(s[i]) == id ==> key(s[j]) != id
  }

  /** `a` is `b` with some elements dropped: the rest appear in `b`'s order. */
  ghost predicate IsSubsequence<T>(a: seq<T>, b: seq<T>)
    decreases |b|
  {
    || a == []
    || (b != [] && ((a[0] == b[0] && IsSubsequence(a[1..], b[1..])) || IsSubsequence(a, b[1..])))
  }

  /** The page's `filter` keeps exactly the records whose key is not `id`. */
  lemma {:induction false} RemoveWhereMembers<T>(s: seq<T>, key: T -> int, id: int, x: T)
    ensures x in RemoveWhere(s, key, id) <==> x in s && key(x) != id
  {
    if s != [] {
      RemoveWhereMembers(s[1..], key, id, x);
      assert s == [s[0]] + s[1..];
    }
  }

  /** The page's `filter` keeps the surviving records in their order. */
  lemma {:induction false} RemoveWhereIsSubsequence<T>(s: seq<T>, key: T -> int, id: int)
    ensures IsSubsequence(RemoveWhere(s, key, id), s)
  {
    if s != [] {
      RemoveWhereIsSubsequence(s[1..], key, id);
      if key(s[0]) != id {
        assert ([s[0]] + RemoveWhere(s[1..], key, id))[1..] == RemoveWhere(s[1..], key, id);
      }
    }
  }

  /**
   * The page's `filter` is a tally over the list: one more record at the end is kept, once, exactly
   * when its key is not `id`. With `RemoveWhere(s, key, id) == []` for `s == []` this fixes how many
   * copies of each record survive.
   */
  lemma {:induction false} RemoveWhereAppend<T>(s: seq<T>, key: T -> int, id: int, x: T)
    ensures RemoveWhere(s + [x], key, id) == RemoveWhere(s, key, id) + (if key(x) == id then [] else [x])
  {
    if s == [] {
      assert [] + [x] == [x];
    } else {
      assert (s + [x])[1..] == s[1..] + [x];
      RemoveWhereAppend(s[1..], key, id, x);
    }
  }

  /** With no record keyed `id`, the page's `filter` keeps the whole list. */
  lemma {:induction false} RemoveWhereAbsent<T>(s: seq<T>, key: T -> int, id: int)
    requires IndexOf(s, key, id).None?
    ensures RemoveWhere(s, key, id) == s
  {
    if s != [] {
      RemoveWhereAbsent(s[1..], key, id);
    }
  }

  /**
   * When `id` occurs once, dropping every record keyed `id` (the page) is the same as splicing
   * out the first one (the service).
   */
  lemma {:induction false} RemoveWhereIsRemoveAt<T>(s: seq<T>, key: T -> int, id: int)
    requires AtMostOnce(s, key, id)
    requires IndexOf(s, key, id).Some?
    ensures RemoveWhere(s, key, id) == RemoveAt(s, IndexOf(s, key, id).value)
  {
    var i := IndexOf(s, key, id).value;
    if i == 0 {
      assert forall j :: 0 <= j < |s[1..]| ==> key(s[1..][j]) != id by {
        forall j | 0 <= j < |s[1..]| ensures key(s[1..][j]) != id {
          assert key(s[0]) == id;
        }
      }
      RemoveWhereAbsent(s[1..], key, id);
      assert RemoveAt(s, 0) == s[1..];
    } else {
      assert AtMostOnce(s[1..], key, id) by {
        forall a, b | 0 <= a < b < |s[1..]| && key(s[1..][a]) == id ensures key(s[1..][b]) != id {
          assert key(s[a + 1]) == id;
        }
      }
      assert IndexOf(s[1..], key, id) == Some(i - 1);
      RemoveWhereIsRemoveAt(s[1..], key, id);
      assert RemoveAt(s, i) == [s[0]] + RemoveAt(s[1..], i - 1);
    }
  }

  /** With no record keyed `id`, the page's `map` changes nothing. */
  lemma ReplaceWhereAbsent<T>(s: seq<T>, key: T -> int, id: int, x: T)
    requires IndexOf(s, key, id).None?
    ensures ReplaceWhere(s, key, id, x) == s
  {
  }

  /**
   * When `id` occurs once, replacing every record keyed `id` (the page) is the same as
   * assigning at the first matching index (the service).
   */
  lemma ReplaceWhereIsUpdateAt<T>(s: seq<T>, key: T -> int, id: int, x: T)
    requires AtMostOnce(s, key, id)
    requires IndexOf(s, key, id).Some?
    ensures ReplaceWhere(s, key, id, x) == s[IndexOf(s, key, id).value := x]
  {
    var i := IndexOf(s, key, id).value;
    forall j | 0 <= j < |s| && j != i ensures key(s[j]) != id {
      if j < i {
      } else {
        assert key(s[i]) == id;
      }
    }
  }

  /** Unique keys occur at most once each. */
  lemma UniqueAtMostOnce<T>(s: seq<T>, key: T -> int, id: int)
    requires Unique(s, key)
    ensures AtMostOnce(s, key, id)
  {
  }

  /** Appending a record whose key exceeds every existing key keeps the keys unique. */
  lemma UniqueAppend<T>(s: seq<T>, key: T -> int, x: T)
    requires Unique(s, key)
    requires forall j :: 0 <= j < |s| ==> key(s[j]) < key(x)
    ensures Unique(s + [x], key)
  {
  }

  /** Splicing a record out keeps the keys unique. */
  lemma UniqueRemoveAt<T>(s: seq<T>, key: T -> int, i: nat)
    requires Unique(s, key)
    requires i < |s|
    ensures Unique(RemoveAt(s, i), key)
  {
    var r := RemoveAt(s, i);
    forall a, b | 0 <= a < b < |r| ensures key(r[a]) != key(r[b]) {
      var a' := if a < i then a else a + 1;
      var b' := if b < i then b else b + 1;
      assert r[a] == s[a'] && r[b] == s[b'];
    }
  }

  /** Overwriting a record with one of the same key keeps the keys unique. */
  lemma UniqueUpdateAt<T>(s: seq<T>, key: T -> int, i: nat, x: T)
    requires Unique(s, key)
    requires i < |s| && key(x) == key(s[i])
    ensures Unique(s[i := x], key)
  {
  }

  /** Deleting a record never raises the key the next `create` hands out. */
  lemma {:induction false} NextKeyAfterRemove<T>(s: seq<T>, key: T -> int, i: nat)
    requires i < |s|
    ensures NextKey(RemoveAt(s, i), key) <= NextKey(s, key)
  {
    var r := RemoveAt(s, i);
    var m := MaxKey(r, key);
    if m != 0 {
      var j :| 0 <= j < |r| && key(r[j]) == m;
      assert r[j] == s[if j < i then j else j + 1];
    }
  }

  /**
   * Deleting the record with the largest key brings that key back for the next `create` exactly
   * when it is 1 or some other record holds the key one below it.
   */
  lemma FreedMaxReused<T>(s: seq<T>, key: T -> int, i: nat)
    requires i < |s| && key(s[i]) >= 1
    requires forall j :: 0 <= j < |s| && j != i ==> key(s[j]) < key(s[i])
    ensures NextKey(RemoveAt(s, i), key) == key(s[i]) <==>
            key(s[i]) == 1 || exists j :: 0 <= j < |s| && j != i && key(s[j]) == key(s[i]) - 1
  {
    var r := RemoveAt(s, i);
    var k := NextKey(r, key);
    if k == key(s[i]) && key(s[i]) != 1 {
      var j :| 0 <= j < |r| && key(r[j]) == k - 1;
      var j' := if j < i then j else j + 1;
      assert r[j] == s[j'];
    }
    if exists j :: 0 <= j < |s| && j != i && key(s[j]) == key(s[i]) - 1 {
      var j :| 0 <= j < |s| && j != i && key(s[j]) == key(s[i]) - 1;
      var jr := if j < i then j else j - 1;
      assert r[jr] == s[j];
    }
    forall j | 0 <= j < |r| ensures key(r[j]) < key(s[i]) {
      assert r[j] == s[if j < i then j else j + 1];
    }
  }

  /**
   * Creating a record, deleting it by its key and creating again hands out the same key: the
   * freshly created record is the only one with its key, so deleting it restores the sequence.
   */
  lemma CreateDeleteRestores<T>(s: seq<T>, key: T -> int, x: T)
    requires key(x) == NextKey(s, key)
    ensures IndexOf(s + [x], key, key(x)) == Some(|s|)
    ensures RemoveAt(s + [x], |s|) == s
    ensures NextKey(RemoveAt(s + [x], |s|), key) == key(x)
  {
    var t := s + [x];
    assert key(t[|s|]) == key(x);
    assert forall j :: 0 <= j < |s| ==> key(t[j]) != key(x);
    assert t[..|s|] == s;
  }
}
