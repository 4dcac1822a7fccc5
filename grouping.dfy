/** Totals per key, the shape of every `record[key] = (record[key] || 0) + w`
    loop in the application: per budget, per category, per date and per month. */
module Grouping {
  import opened Options
  import opened Sums

  /** The weight an entry adds to key k: its own weight when its key is k. */
  function KeyedWeight<T>(key: T -> Option<string>, w: T -> int, k: string): T -> int {
    (x: T) => if key(x) == Some(k) then w(x) else 0
  }

  /** The total of the entries whose key is k. */
  function GroupTotal<T>(s: seq<T>, key: T -> Option<string>, w: T -> int, k: string): int {
    SumOf(s, KeyedWeight(key, w, k))
  }

  /** The keys that occur in the list (an entry with no key adds none). */
  function KeysOf<T>(s: seq<T>, key: T -> Option<string>): set<string>
    decreases |s|
  {
    if s == [] then {}
    else KeysOf(s[..|s| - 1], key) + (if key(s[|s| - 1]).Some? then {key(s[|s| - 1]).value} else {})
  }

  /** A key occurs exactly when some entry has it. */
  lemma {:induction false} KeysOfMembers<T>(s: seq<T>, key: T -> Option<string>, k: string)
    ensures k in KeysOf(s, key) <==> exists i :: 0 <= i < |s| && key(s[i]) == Some(k)
    decreases |s|
  {
    if s != [] {
      var init := s[..|s| - 1];
      KeysOfMembers(init, key, k);
      if exists i :: 0 <= i < |s| && key(s[i]) == Some(k) {
        var i :| 0 <= i < |s| && key(s[i]) == Some(k);
        if i < |init| {
          assert init[i] == s[i];
        }
      }
    }
  }

  /** A key that no entry has totals zero. */
  lemma {:induction false} GroupTotalAbsent<T>(s: seq<T>, key: T -> Option<string>, w: T -> int, k: string)
    requires k !in KeysOf(s, key)
    ensures GroupTotal(s, key, w, k) == 0
    decreases |s|
  {
    if s != [] {
      GroupTotalAbsent(s[..|s| - 1], key, w, k);
    }
  }

  /** Totals of weights that are never negative are never negative. */
  lemma {:induction false} GroupTotalNonNegative<T>(s: seq<T>, key: T -> Option<string>, w: T -> int, k: string)
    requires forall i :: 0 <= i < |s| ==> w(s[i]) >= 0
    ensures GroupTotal(s, key, w, k) >= 0
    decreases |s|
  {
    if s != [] {
      GroupTotalNonNegative(s[..|s| - 1], key, w, k);
    }
  }

  /** Totals of positive weights are positive for every key that occurs. */
  lemma {:induction false} GroupTotalPositive<T>(s: seq<T>, key: T -> Option<string>, w: T -> int, k: string)
    requires forall i :: 0 <= i < |s| ==> w(s[i]) > 0
    requires k in KeysOf(s, key)
    ensures GroupTotal(s, key, w, k) > 0
    decreases |s|
  {
    var init := s[..|s| - 1];
    GroupTotalNonNegative(init, key, w, k);
    if k in KeysOf(init, key) {
      GroupTotalPositive(init, key, w, k);
    }
  }

  /** The keyed entries' weights, whatever their key. */
  function KeyedOnly<T>(key: T -> Option<string>, w: T -> int): T -> int {
    (x: T) => if key(x).Some? then w(x) else 0
  }

  /** The sum of all values of a map. */
  ghost function SumValues(m: map<string, int>): int
    decreases |m.Keys|
  {
    if m == map[] then 0
    else
      var k :| k in m;
      m[k] + SumValues(m - {k})
  }

  lemma {:induction false} SumValuesRemove(m: map<string, int>, k: string)
    requires k in m
    ensures SumValues(m) == m[k] + SumValues(m - {k})
    decreases |m.Keys|
  {
    var j :| j in m && SumValues(m) == m[j] + SumValues(m - {j});
    if j != k {
      var mj, mk := m - {j}, m - {k};
      SumValuesRemove(mj, k);
      SumValuesRemove(mk, j);
      assert mj - {k} == mk - {j};
    }
  }

  /** Setting one key changes the sum by the change at that key. */
  lemma SumValuesUpdate(m: map<string, int>, k: string, v: int)
    ensures SumValues(m[k := v]) == SumValues(m) - (if k in m then m[k] else 0) + v
  {
    var m' := m[k := v];
    SumValuesRemove(m', k);
    assert m' - {k} == m - {k};
    if k in m {
      SumValuesRemove(m, k);
    } else {
      assert m - {k} == m;
    }
  }

  /** What a grouping loop holds after the first entries of the list: exactly
      their keys, each with the total of its entries, the totals adding up to the
      weight of the keyed entries. */
  ghost predicate Grouped<T>(m: map<string, int>, s: seq<T>, key: T -> Option<string>, w: T -> int) {
    && m.Keys == KeysOf(s, key)
    && (forall k :: k in m ==> m[k] == GroupTotal(s, key, w, k))
    && SumValues(m) == SumOf(s, KeyedOnly(key, w))
  }

  /** One pass of the loop: add the next entry's weight under its key. */
  function AddEntry<T>(m: map<string, int>, x: T, key: T -> Option<string>, w: T -> int): map<string, int> {
    if key(x).Some? then
      m[key(x).value := (if key(x).value in m then m[key(x).value] else 0) + w(x)]
    else m
  }

  lemma GroupedStep<T>(m: map<string, int>, s: seq<T>, x: T, key: T -> Option<string>, w: T -> int)
    requires Grouped(m, s, key, w)
    ensures Grouped(AddEntry(m, x, key, w), s + [x], key, w)
  {
    var s' := s + [x];
    var m' := AddEntry(m, x, key, w);
    LastStep(s, x, key, w);
    assert m'.Keys == KeysOf(s', key);
    if key(x).Some? {
      var kx := key(x).value;
      SumValuesUpdate(m, kx, (if kx in m then m[kx] else 0) + w(x));
      if kx !in m {
        GroupTotalAbsent(s, key, w, kx);
      }
    }
    assert SumValues(m') == SumOf(s', KeyedOnly(key, w));
    forall k | k in m'
      ensures m'[k] == GroupTotal(s', key, w, k)
    {
      TotalStep(s, x, key, w, k);
      if k !in m {
        GroupTotalAbsent(s, key, w, k);
      }
    }
  }

  /** Appending an entry adds its key and its keyed weight. */
  lemma LastStep<T>(s: seq<T>, x: T, key: T -> Option<string>, w: T -> int)
    ensures KeysOf(s + [x], key) == KeysOf(s, key) + (if key(x).Some? then {key(x).value} else {})
    ensures SumOf(s + [x], KeyedOnly(key, w)) == SumOf(s, KeyedOnly(key, w)) + (if key(x).Some? then w(x) else 0)
  {
    assert (s + [x])[..|s + [x]| - 1] == s;
  }

  /** Appending an entry adds its weight to its own key's total only. */
  lemma TotalStep<T>(s: seq<T>, x: T, key: T -> Option<string>, w: T -> int, k: string)
    ensures GroupTotal(s + [x], key, w, k) == GroupTotal(s, key, w, k) + (if key(x) == Some(k) then w(x) else 0)
  {
    assert (s + [x])[..|s + [x]| - 1] == s;
  }

  /** The step as a loop over a list takes it: entry i joins the first i. */
  lemma GroupedPrefixStep<T>(m: map<string, int>, s: seq<T>, i: int, key: T -> Option<string>, w: T -> int)
    requires 0 <= i < |s| && Grouped(m, s[..i], key, w)
    ensures Grouped(AddEntry(m, s[i], key, w), s[..i + 1], key, w)
  {
    GroupedStep(m, s[..i], s[i], key, w);
    assert s[..i + 1] == s[..i] + [s[i]];
  }

  /** Reading a key of a finished grouping with `|| 0`: a missing key reads as 0,
      which is also its total. */
  function Lookup(m: map<string, int>, k: string): int {
    if k in m then m[k] else 0
  }

  lemma LookupIsTotal<T>(m: map<string, int>, s: seq<T>, key: T -> Option<string>, w: T -> int, k: string)
    requires Grouped(m, s, key, w)
    ensures Lookup(m, k) == GroupTotal(s, key, w, k)
  {
    if k !in m {
      GroupTotalAbsent(s, key, w, k);
    }
  }
}
