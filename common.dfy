/** Small generic building blocks shared by the backend and the client models:
    an Option type (Python's None / JavaScript's null and undefined), the
    order-keeping `filter` of JavaScript arrays and Python comprehensions, and
    the "later entry wins" construction of a dictionary from a list of pairs
    (`Object.fromEntries`, a Python dict comprehension). */
module Common {

  datatype Option<+T> = None | Some(value: T)

  /** The outcome of a request handler: a value, or the HTTP error it raises. */
  datatype Result<+T, +E> = Ok(value: T) | Err(error: E)

  /** `m.get(k)` / `obj[k]`: the value at `k`, or None when the key is absent. */
  function Get<K, V>(m: map<K, V>, k: K): (r: Option<V>)
    ensures r.Some? <==> k in m
    ensures r.Some? ==> r.value == m[k]
  {
    if k in m then Some(m[k]) else None
  }

  /** `s.filter(p)`: the elements of `s` that satisfy `p`, in their original order. */
  function Filter<T>(s: seq<T>, p: T -> bool): (r: seq<T>)
    ensures |r| <= |s|
    ensures forall x :: x in r ==> x in s && p(x)
    ensures forall x :: x in s && p(x) ==> x in r
  {
    if s == [] then []
    else
      assert forall x :: x in s ==> x == s[0] || x in s[1..];
      (if p(s[0]) then [s[0]] else []) + Filter(s[1..], p)
  }

  /** Filtering a concatenation filters each part: the kept elements stay in
      their original relative order. */
  lemma {:induction false} FilterAppend<T>(a: seq<T>, b: seq<T>, p: T -> bool)
    ensures Filter(a + b, p) == Filter(a, p) + Filter(b, p)
  {
    if a == [] {
      assert a + b == b;
    } else {
      assert (a + b)[0] == a[0];
      assert (a + b)[1..] == a[1..] + b;
      FilterAppend(a[1..], b, p);
    }
  }

  /** Every element is kept exactly as often as it occurs, when it satisfies `p`. */
  lemma {:induction false} FilterCount<T>(s: seq<T>, p: T -> bool, x: T)
    ensures multiset(Filter(s, p))[x] == if p(x) then multiset(s)[x] else 0
  {
    if s != [] {
      FilterCount(s[1..], p, x);
      assert s == [s[0]] + s[1..];
      assert multiset(s) == multiset([s[0]]) + multiset(s[1..]);
    }
  }

  /** Filtering is the identity exactly when every element satisfies `p`. */
  lemma {:induction false} FilterKeepsAll<T>(s: seq<T>, p: T -> bool)
    ensures Filter(s, p) == s <==> forall i :: 0 <= i < |s| ==> p(s[i])
  {
    if s != [] {
      FilterKeepsAll(s[1..], p);
      if !p(s[0]) {
        assert |Filter(s, p)| == |Filter(s[1..], p)| <= |s| - 1;
      } else {
        assert forall i :: 1 <= i < |s| ==> s[i] == s[1..][i - 1];
      }
    }
  }

  /** `a` is `b` with some elements left out, the rest in their order. */
  ghost predicate IsSubsequence<T>(a: seq<T>, b: seq<T>)
    decreases |b|
  {
    if a == [] then true
    else if b == [] then false
    else (a[0] == b[0] && IsSubsequence(a[1..], b[1..])) || IsSubsequence(a, b[1..])
  }

  /** Filtering keeps an order-preserving subsequence. */
  lemma {:induction false} FilterIsSubsequence<T>(s: seq<T>, p: T -> bool)
    ensures IsSubsequence(Filter(s, p), s)
  {
    if s != [] {
      FilterIsSubsequence(s[1..], p);
      var r := Filter(s, p);
      if p(s[0]) {
        assert r[0] == s[0] && r[1..] == Filter(s[1..], p);
      } else {
        assert r == Filter(s[1..], p);
      }
    }
  }

  /** The values that are present, in order (`.filter(Boolean)` or
      `.filter(x => x != null)` over nullable values). */
  function Present<T>(s: seq<Option<T>>): (r: seq<T>)
    ensures |r| <= |s|
  {
    if s == [] then [] else (if s[0].Some? then [s[0].value] else []) + Present(s[1..])
  }

  /** A value is kept exactly when it was present. */
  lemma {:induction false} PresentSpec<T>(s: seq<Option<T>>)
    ensures forall x :: x in Present(s) <==> Some(x) in s
  {
    if s != [] {
      PresentSpec(s[1..]);
      assert forall o :: o in s <==> o == s[0] || o in s[1..];
    }
  }

  /** Maps each element, like `Array.prototype.map`. */
  function MapSeq<T, U>(s: seq<T>, f: T -> U): (r: seq<U>)
    ensures |r| == |s|
    ensures forall i :: 0 <= i < |s| ==> r[i] == f(s[i])
  {
    seq(|s|, i requires 0 <= i < |s| => f(s[i]))
  }

  /** `Object.fromEntries(entries)` or `{k: v for (k, v) in entries}`: a map in
      which a key that occurs several times keeps its last value. */
  function FromEntries<K, V>(entries: seq<(K, V)>): (m: map<K, V>)
    ensures m.Keys == set i | 0 <= i < |entries| :: entries[i].0
  {
    if entries == [] then map[]
    else
      var init := entries[..|entries| - 1];
      var last := entries[|entries| - 1];
      assert forall i :: 0 <= i < |init| ==> init[i] == entries[i];
      FromEntries(init)[last.0 := last.1]
  }

  /** The value kept for a key is the one of its last occurrence. */
  lemma {:induction false} FromEntriesLastWins<K, V>(entries: seq<(K, V)>, i: nat)
    requires i < |entries|
    requires forall j :: i < j < |entries| ==> entries[j].0 != entries[i].0
    ensures entries[i].0 in FromEntries(entries)
    ensures FromEntries(entries)[entries[i].0] == entries[i].1
  {
    if i < |entries| - 1 {
      var init := entries[..|entries| - 1];
      FromEntriesLastWins(init, i);
    }
  }

  /** Every value in the map is the value of some entry with that key. */
  lemma {:induction false} FromEntriesValue<K, V>(entries: seq<(K, V)>, k: K)
    requires k in FromEntries(entries)
    ensures exists i :: 0 <= i < |entries| && entries[i] == (k, FromEntries(entries)[k])
  {
    var init := entries[..|entries| - 1];
    var last := entries[|entries| - 1];
    if k != last.0 {
      FromEntriesValue(init, k);
      var i :| 0 <= i < |init| && init[i] == (k, FromEntries(init)[k]);
      assert entries[i] == init[i];
    } else {
      assert entries[|entries| - 1] == (k, FromEntries(entries)[k]);
    }
  }

  /** With distinct keys, every pair is found unchanged in the map. */
  lemma FromEntriesDistinct<K, V>(entries: seq<(K, V)>, i: nat)
    requires i < |entries|
    requires forall j, k :: 0 <= j < k < |entries| ==> entries[j].0 != entries[k].0
    ensures entries[i].0 in FromEntries(entries) && FromEntries(entries)[entries[i].0] == entries[i].1
  {
    FromEntriesLastWins(entries, i);
  }
}
