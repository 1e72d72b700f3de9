/**
 * The few JavaScript built-ins the mail client's logic relies on, written out
 * so that their edge cases are explicit: `String.prototype.indexOf`,
 * `String.prototype.slice`, comparing a one-character string with a
 * delimiter string, `new Set(array)`, the `countChar` utility, and a `Map`
 * that remembers insertion order.
 */
module Js {

  datatype Option<+T> = None | Some(value: T)

  /** `d` occurs in `s` starting at position `j`. */
  predicate OccursAt(s: string, d: string, j: nat)
  {
    j + |d| <= |s| && s[j..j + |d|] == d
  }

  /**
   * `s.indexOf(d, j)` for `j <= |s|`: the first position at or after `j`
   * where `d` occurs, or -1. JavaScript clamps a larger `j` to `|s|`, so
   * there `""` is found at `|s|`, while this gives -1; only the start 0 is
   * ever used.
   */
  function IndexFrom(s: string, d: string, j: nat): (r: int)
    ensures r == -1 || (j <= r && OccursAt(s, d, r))
    ensures r == -1 ==> forall k :: j <= k ==> !OccursAt(s, d, k)
    ensures r >= 0 ==> forall k :: j <= k < r ==> !OccursAt(s, d, k)
    decreases |s| - j
  {
    if j + |d| > |s| then -1
    else if s[j..j + |d|] == d then j
    else IndexFrom(s, d, j + 1)
  }

  /**
   * `s.indexOf(d)`: the first position of `d` in `s`, or -1 when `d` does
   * not occur. The empty string occurs at position 0 of every string.
   */
  function IndexOf(s: string, d: string): (r: int)
    ensures -1 <= r <= |s|
    ensures r >= 0 ==> OccursAt(s, d, r) && forall k :: 0 <= k < r ==> !OccursAt(s, d, k)
    ensures r == -1 <==> forall k :: 0 <= k ==> !OccursAt(s, d, k)
  {
    IndexFrom(s, d, 0)
  }

  /** `s.slice(k)`: the part of `s` after its first `k` characters; past the end of the string it yields the empty string. */
  function SliceFrom(s: string, k: nat): (r: string)
    ensures k <= |s| ==> s[..k] + r == s
    ensures k >= |s| ==> r == ""
  {
    if k <= |s| then s[k..] else ""
  }

  /**
   * `s[i] == d` where `s[i]` is the one-character string at position `i`:
   * true exactly when `d` is that one character.
   */
  function CharIs(s: string, i: nat, d: string): (b: bool)
    requires i < |s|
    ensures b <==> |d| == 1 && d[0] == s[i]
  {
    [s[i]] == d
  }

  /** The set built by `new Set(a)`, or by adding the elements of `a` one at a time. */
  function ToSet<T>(a: seq<T>): set<T>
  {
    set x | x in a
  }

  /** `new Set(a)` holds exactly the elements of `a`, and no more of them than `a` has positions. */
  lemma {:induction false} ToSetMembers<T>(a: seq<T>)
    ensures forall x :: x in ToSet(a) <==> x in a
    ensures |ToSet(a)| <= |a|
  {
    if a != [] {
      var t := a[..|a| - 1];
      ToSetMembers(t);
      assert a == t + [a[|a| - 1]];
      assert ToSet(a) == ToSet(t) + {a[|a| - 1]};
    }
  }

  lemma ToSetSnoc<T>(a: seq<T>, k: nat)
    requires k < |a|
    ensures ToSet(a[..k + 1]) == ToSet(a[..k]) + {a[k]}
  {
    assert a[..k + 1] == a[..k] + [a[k]];
  }

  /**
   * `countChar(s, d)` (src/utils/count-char is not part of this model): the
   * number of positions of `s` whose one-character string equals `d`. A
   * delimiter that is not exactly one character is therefore never counted.
   */
  function CountChar(s: string, d: string): (r: nat)
    ensures r <= |s|
    ensures |d| != 1 ==> r == 0
    ensures r == 0 <==> forall i :: 0 <= i < |s| ==> !CharIs(s, i, d)
  {
    if s == [] then 0
    else
      var rest := CountChar(s[1..], d);
      assert forall i :: 0 <= i < |s| - 1 ==> CharIs(s[1..], i, d) == CharIs(s, i + 1, d);
      assert forall i :: 1 <= i < |s| ==> CharIs(s, i, d) == CharIs(s[1..], i - 1, d);
      (if CharIs(s, 0, d) then 1 else 0) + rest
  }

  /** All elements of `s` are different. */
  predicate Distinct<T(==)>(s: seq<T>)
  {
    forall i, j :: 0 <= i < j < |s| ==> s[i] != s[j]
  }

  /**
   * A JavaScript `Map`: its entries, and its keys in the order in which
   * they were first set (the order in which `values()` enumerates them).
   */
  datatype OrderedMap<K(==), V> = OrderedMap(keys: seq<K>, entries: map<K, V>)
  {
    ghost predicate Valid()
    {
      Distinct(keys) && entries.Keys == ToSet(keys)
    }

    /** `m.set(k, v)`: a new key goes to the end; an existing key keeps its place. */
    function Set(k: K, v: V): (r: OrderedMap<K, V>)
      requires Valid()
      ensures r.Valid()
      ensures r.entries == entries[k := v]
      ensures r.keys == if k in entries then keys else keys + [k]
    {
      if k in entries then OrderedMap(keys, entries[k := v])
      else OrderedMap(keys + [k], entries[k := v])
    }

    /** `[...m.values()]`: one value per key, in insertion order. */
    function Values(): (r: seq<V>)
      requires Valid()
      ensures |r| == |keys|
      ensures forall i :: 0 <= i < |keys| ==> r[i] == entries[keys[i]]
    {
      seq(|keys|, i requires 0 <= i < |keys| => entries[keys[i]])
    }
  }

  function EmptyMap<K(==), V>(): (r: OrderedMap<K, V>)
    ensures r.Valid() && r.entries == map[]
  {
    OrderedMap([], map[])
  }

  /** A map with distinct keys in its key order has exactly as many keys as entries. */
  lemma {:induction false} KeyCount<K(!new), V>(m: OrderedMap<K, V>)
    requires m.Valid()
    ensures |m.keys| == |m.entries.Keys|
  {
    DistinctCard(m.keys);
  }

  lemma {:induction false} DistinctCard<T>(s: seq<T>)
    requires Distinct(s)
    ensures |ToSet(s)| == |s|
  {
    if s != [] {
      var t := s[..|s| - 1];
      assert Distinct(t);
      DistinctCard(t);
      assert s == t + [s[|s| - 1]];
      assert ToSet(s) == ToSet(t) + {s[|s| - 1]};
      assert s[|s| - 1] !in t;
    }
  }
}
