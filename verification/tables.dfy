/** Generic queries over a table held as a sequence of rows: the lookups,
    filters and updates the storage layer performs, and the key discipline
    (unique keys, autoincrement counters) its rows keep. */
module Tables {
  import opened Outcomes

  /** The first row satisfying `p` (a findFirst query) */
  function Find<T>(s: seq<T>, p: T -> bool): (r: Option<T>)
    ensures r.None? <==> forall i :: 0 <= i < |s| ==> !p(s[i])
    ensures r.Some? ==> r.value in s && p(r.value)
  {
    if |s| == 0 then None
    else if p(s[0]) then Some(s[0])
    else
      var r := Find(s[1..], p);
      assert forall i :: 1 <= i < |s| ==> s[i] == s[1..][i - 1];
      r
  }

  /** The rows satisfying `p`, in table order (a findMany query with a where
      clause): each matching row as often as the table holds it, no other row */
  function Filter<T(!new)>(s: seq<T>, p: T -> bool): (r: seq<T>)
    ensures |r| <= |s|
    ensures forall x :: x in r <==> x in s && p(x)
    ensures forall x :: multiset(r)[x] == if p(x) then multiset(s)[x] else 0
  {
    if |s| == 0 then []
    else
      var rest := Filter(s[1..], p);
      assert s == [s[0]] + s[1..];
      assert multiset(s) == multiset{s[0]} + multiset(s[1..]);
      assert forall x :: x in s <==> x == s[0] || x in s[1..];
      if p(s[0]) then [s[0]] + rest else rest
  }

  /** The table with every row satisfying `p` rewritten by `f` (an updateMany) */
  function UpdateWhere<T>(s: seq<T>, p: T -> bool, f: T -> T): (r: seq<T>)
    ensures |r| == |s|
    ensures forall i :: 0 <= i < |s| ==> r[i] == if p(s[i]) then f(s[i]) else s[i]
  {
    seq(|s|, i requires 0 <= i < |s| => if p(s[i]) then f(s[i]) else s[i])
  }

  /** The set of keys the table holds */
  function Keys<T, K>(s: seq<T>, key: T -> K): set<K> {
    set i | 0 <= i < |s| :: key(s[i])
  }

  /** No two rows share a key (a unique column) */
  predicate UniqueBy<T, K(==)>(s: seq<T>, key: T -> K) {
    forall i, j :: 0 <= i < j < |s| ==> key(s[i]) != key(s[j])
  }

  /** Every key is below the next value of an autoincrement counter */
  predicate KeysBelow<T>(s: seq<T>, key: T -> int, bound: int) {
    forall i :: 0 <= i < |s| ==> key(s[i]) < bound
  }

  /** The row with key `k` (a findUnique query) */
  function Lookup<T, K(==)>(s: seq<T>, key: T -> K, k: K): (r: Option<T>)
    ensures r.Some? <==> k in Keys(s, key)
    ensures r.Some? ==> r.value in s && key(r.value) == k
    ensures r.Some? && UniqueBy(s, key) ==>
              forall i :: 0 <= i < |s| && key(s[i]) == k ==> s[i] == r.value
  {
    Find(s, (x: T) => key(x) == k)
  }

  /** Inserting a row whose key the table lacks keeps the keys unique */
  lemma AppendUnique<T, K>(s: seq<T>, key: T -> K, x: T)
    requires UniqueBy(s, key)
    requires key(x) !in Keys(s, key)
    ensures UniqueBy(s + [x], key)
    ensures Keys(s + [x], key) == Keys(s, key) + {key(x)}
  {
    var t := s + [x];
    forall i, j | 0 <= i < j < |t|
      ensures key(t[i]) != key(t[j])
    {
      if j == |s| {
        assert key(t[i]) in Keys(s, key);
      }
    }
    forall k | k in Keys(t, key)
      ensures k in Keys(s, key) + {key(x)}
    {
      var i :| 0 <= i < |t| && key(t[i]) == k;
      if i < |s| {
        assert key(s[i]) in Keys(s, key);
      }
    }
    forall k | k in Keys(s, key) + {key(x)}
      ensures k in Keys(t, key)
    {
      if k == key(x) {
        assert key(t[|s|]) in Keys(t, key);
      } else {
        var i :| 0 <= i < |s| && key(s[i]) == k;
        assert key(t[i]) in Keys(t, key);
      }
    }
  }

  /** Inserting the counter's value and advancing the counter keeps every key
      below it, and that value was never used */
  lemma AppendFromCounter<T>(s: seq<T>, key: T -> int, x: T, next: int)
    requires KeysBelow(s, key, next)
    requires key(x) == next
    ensures next !in Keys(s, key)
    ensures KeysBelow(s + [x], key, next + 1)
  {
  }

  /** An update that never changes a row's key keeps the key set and its uniqueness */
  lemma UpdateKeepsKeys<T, K>(s: seq<T>, key: T -> K, p: T -> bool, f: T -> T)
    requires forall x :: key(f(x)) == key(x)
    ensures Keys(UpdateWhere(s, p, f), key) == Keys(s, key)
    ensures UniqueBy(s, key) ==> UniqueBy(UpdateWhere(s, p, f), key)
  {
    var t := UpdateWhere(s, p, f);
    assert forall i :: 0 <= i < |s| ==> key(t[i]) == key(s[i]);
    forall k | k in Keys(t, key)
      ensures k in Keys(s, key)
    {
      var i :| 0 <= i < |t| && key(t[i]) == k;
      assert key(s[i]) in Keys(s, key);
    }
    forall k | k in Keys(s, key)
      ensures k in Keys(t, key)
    {
      var i :| 0 <= i < |s| && key(s[i]) == k;
      assert key(t[i]) in Keys(t, key);
    }
  }

  /** An update that never changes a row's key keeps every key below the counter */
  lemma UpdateKeepsBound<T>(s: seq<T>, key: T -> int, p: T -> bool, f: T -> T, bound: int)
    requires forall x :: key(f(x)) == key(x)
    requires KeysBelow(s, key, bound)
    ensures KeysBelow(UpdateWhere(s, p, f), key, bound)
  {
  }
}
