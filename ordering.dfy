/**
 * Row ordering for the conversation store's `ORDER BY ... DESC` queries.
 * A row's sort key is its timestamp with its AUTOINCREMENT row id as the
 * tie-breaker, so rows written in the same second keep their insertion order.
 */
module Ordering {

  datatype Key = Key(time: int, rowId: int)

  /** Strictly earlier in (timestamp, row id) order. */
  predicate Before(a: Key, b: Key) {
    a.time < b.time || (a.time == b.time && a.rowId < b.rowId)
  }

  /** No row is followed by a newer one. */
  predicate NewestFirst<T>(s: seq<T>, key: T -> Key) {
    forall i, j :: 0 <= i < j < |s| ==> !Before(key(s[i]), key(s[j]))
  }

  /** No row is followed by an older one. */
  predicate OldestFirst<T>(s: seq<T>, key: T -> Key) {
    forall i, j :: 0 <= i < j < |s| ==> !Before(key(s[j]), key(s[i]))
  }

  /** Every row is strictly older than every row after it. */
  predicate StrictlyAscending<T>(s: seq<T>, key: T -> Key) {
    forall i, j :: 0 <= i < j < |s| ==> Before(key(s[i]), key(s[j]))
  }

  /** Puts `x` in front of the first row that is not newer than it. */
  function Insert<T>(x: T, s: seq<T>, key: T -> Key): (r: seq<T>)
    requires NewestFirst(s, key)
    ensures NewestFirst(r, key)
    ensures multiset(r) == multiset(s) + multiset{x}
    ensures |r| == |s| + 1
    ensures r[0] == x || (s != [] && r[0] == s[0])
    decreases |s|
  {
    if s == [] || !Before(key(x), key(s[0])) then
      ConsNewestFirst(x, s, key);
      [x] + s
    else
      var t := Insert(x, s[1..], key);
      assert s == [s[0]] + s[1..];
      assert !Before(key(s[0]), key(t[0]));
      ConsNewestFirst(s[0], t, key);
      [s[0]] + t
  }

  /** A row no older than the first of a newest-first sequence can go in front of it. */
  lemma ConsNewestFirst<T>(a: T, t: seq<T>, key: T -> Key)
    requires NewestFirst(t, key)
    requires t == [] || !Before(key(a), key(t[0]))
    ensures NewestFirst([a] + t, key)
  {
    var r := [a] + t;
    forall i, j | 0 <= i < j < |r| ensures !Before(key(r[i]), key(r[j])) {
      if i == 0 && j > 1 {
        assert !Before(key(t[0]), key(t[j - 1]));
      }
    }
  }

  /** The rows of `s` newest first, by insertion sort. */
  function SortNewestFirst<T>(s: seq<T>, key: T -> Key): (r: seq<T>)
    ensures NewestFirst(r, key)
    ensures multiset(r) == multiset(s)
    ensures |r| == |s|
    decreases |s|
  {
    if s == [] then []
    else
      assert s == s[..|s| - 1] + [s[|s| - 1]];
      Insert(s[|s| - 1], SortNewestFirst(s[..|s| - 1], key), key)
  }

  function Reverse<T>(s: seq<T>): (r: seq<T>)
    ensures |r| == |s|
    ensures forall k :: 0 <= k < |s| ==> r[k] == s[|s| - 1 - k]
  {
    seq(|s|, k requires 0 <= k < |s| => s[|s| - 1 - k])
  }

  /** SQLite's `LIMIT n`: the first `n` rows; a negative limit means no limit. */
  function Limit<T>(s: seq<T>, n: int): (r: seq<T>)
    ensures |r| <= |s| && r == s[..|r|]
    ensures |r| == if 0 <= n < |s| then n else |s|
  {
    if 0 <= n < |s| then s[..n] else s
  }

  lemma ReverseNewestFirst<T>(s: seq<T>, key: T -> Key)
    requires NewestFirst(s, key)
    ensures OldestFirst(Reverse(s), key)
  {
  }

  /** Reversing the first `n` rows gives the last `n` rows of the reversed sequence. */
  lemma ReverseOfPrefix<T>(s: seq<T>, n: nat)
    requires n <= |s|
    ensures Reverse(s[..n]) == Reverse(s)[|s| - n..]
  {
  }

  /** A sequence that is already strictly ascending sorts to its own reverse. */
  lemma {:induction false} SortOfAscending<T>(s: seq<T>, key: T -> Key)
    requires StrictlyAscending(s, key)
    ensures SortNewestFirst(s, key) == Reverse(s)
    decreases |s|
  {
    if s != [] {
      var init, x := s[..|s| - 1], s[|s| - 1];
      assert s == init + [x];
      assert StrictlyAscending(init, key);
      SortOfAscending(init, key);
      var r := Reverse(init);
      assert r == [] || Before(key(r[0]), key(x)) by {
        if r != [] {
          assert r[0] == s[|s| - 2];
        }
      }
      InsertInFront(x, r, key);
      ReverseSnoc(init, x);
    }
  }

  /** A row no older than the first row is inserted at the front. */
  lemma InsertInFront<T>(x: T, s: seq<T>, key: T -> Key)
    requires NewestFirst(s, key)
    requires s == [] || Before(key(s[0]), key(x))
    ensures Insert(x, s, key) == [x] + s
  {
    if s != [] {
      assert !Before(key(x), key(s[0]));
    }
  }

  lemma ReverseSnoc<T>(s: seq<T>, x: T)
    ensures Reverse(s + [x]) == [x] + Reverse(s)
  {
  }
}
