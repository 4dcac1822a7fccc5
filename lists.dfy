/** The list edits behind every add, edit and delete handler: append with
    spread, `map` that swaps in the entry with the same id, and `filter` that drops
    the entries with an id. */
module ListEdits {
  import opened Options

  /** `filter`: the entries that satisfy p, in their order. */
  function Filter<T>(s: seq<T>, p: T -> bool): (r: seq<T>)
    ensures |r| <= |s|
    decreases |s|
  {
    if s == [] then [] else Filter(s[..|s| - 1], p) + (if p(s[|s| - 1]) then [s[|s| - 1]] else [])
  }

  /** The filtered list holds exactly the entries that satisfy p. */
  lemma {:induction false} FilterMembers<T>(s: seq<T>, p: T -> bool, x: T)
    ensures x in Filter(s, p) <==> x in s && p(x)
    decreases |s|
  {
    if s != [] {
      var init := s[..|s| - 1];
      FilterMembers(init, p, x);
      assert s == init + [s[|s| - 1]];
    }
  }

  /** Every kept element comes from the input and passes the test. */
  lemma FilterKept<T>(s: seq<T>, p: T -> bool)
    ensures forall i :: 0 <= i < |Filter(s, p)| ==> Filter(s, p)[i] in s && p(Filter(s, p)[i])
  {
    var r := Filter(s, p);
    forall i | 0 <= i < |r|
      ensures r[i] in s && p(r[i])
    {
      FilterMembers(s, p, r[i]);
    }
  }

  /** Filtering works piece by piece, so the kept entries stay in their order. */
  lemma {:induction false} FilterAppend<T>(a: seq<T>, b: seq<T>, p: T -> bool)
    ensures Filter(a + b, p) == Filter(a, p) + Filter(b, p)
    decreases |b|
  {
    if b == [] {
      assert a + b == a;
    } else {
      assert (a + b)[..|a + b| - 1] == a + b[..|b| - 1];
      FilterAppend(a, b[..|b| - 1], p);
    }
  }

  /** A filter that keeps everything changes nothing. */
  lemma {:induction false} FilterKeepsAll<T>(s: seq<T>, p: T -> bool)
    requires forall x :: x in s ==> p(x)
    ensures Filter(s, p) == s
    decreases |s|
  {
    if s != [] {
      assert forall x :: x in s[..|s| - 1] ==> x in s;
      FilterKeepsAll(s[..|s| - 1], p);
    }
  }

  /** Filters that agree on the list keep the same entries. */
  lemma {:induction false} FilterCongruent<T>(s: seq<T>, p: T -> bool, q: T -> bool)
    requires forall i :: 0 <= i < |s| ==> p(s[i]) == q(s[i])
    ensures Filter(s, p) == Filter(s, q)
    decreases |s|
  {
    if s != [] {
      FilterCongruent(s[..|s| - 1], p, q);
    }
  }

  /** `find`: the first entry that satisfies p, if any. */
  function Find<T>(s: seq<T>, p: T -> bool): (r: Option<T>)
    ensures r.None? <==> forall i :: 0 <= i < |s| ==> !p(s[i])
    ensures r.Some? ==> exists i :: 0 <= i < |s| && s[i] == r.value && p(r.value) && forall j :: 0 <= j < i ==> !p(s[j])
    decreases |s|
  {
    if s == [] then None
    else if p(s[0]) then Some(s[0])
    else
      var r := Find(s[1..], p);
      assert forall i :: 1 <= i < |s| ==> s[i] == s[1..][i - 1];
      r
  }

  function KeyIsNot<T>(key: T -> string, k: string): T -> bool {
    x => key(x) != k
  }

  /** Delete: drop every entry with key k. */
  function RemoveKey<T>(s: seq<T>, key: T -> string, k: string): seq<T> {
    Filter(s, KeyIsNot(key, k))
  }

  /** Delete keeps exactly the entries whose key is not k, in their order. */
  lemma RemoveKeyMembers<T>(s: seq<T>, key: T -> string, k: string, x: T)
    ensures x in RemoveKey(s, key, k) <==> x in s && key(x) != k
  {
    FilterMembers(s, KeyIsNot(key, k), x);
  }

  /** Add: the new entry goes last. */
  function Added<T>(s: seq<T>, x: T): (r: seq<T>)
    ensures |r| == |s| + 1 && r[..|s|] == s && r[|s|] == x
  {
    s + [x]
  }

  /** Edit: every entry with the new entry's key becomes the new entry; the length,
      the order and the other entries stay. */
  function Replaced<T>(s: seq<T>, key: T -> string, x: T): (r: seq<T>)
    ensures |r| == |s|
    ensures forall i :: 0 <= i < |s| ==> r[i] == if key(s[i]) == key(x) then x else s[i]
    decreases |s|
  {
    if s == [] then []
    else Replaced(s[..|s| - 1], key, x) + [if key(s[|s| - 1]) == key(x) then x else s[|s| - 1]]
  }

  // ---- How the edits combine ----

  /** Deleting the key of an entry just added leaves what deleting it before would have. */
  lemma RemoveAdded<T>(s: seq<T>, key: T -> string, x: T)
    ensures RemoveKey(Added(s, x), key, key(x)) == RemoveKey(s, key, key(x))
  {
    FilterAppend(s, [x], KeyIsNot(key, key(x)));
    assert Filter([x], KeyIsNot(key, key(x))) == [] by {
      assert [x][..0] == [];
    }
  }

  /** Deleting a key that no entry has changes nothing. */
  lemma RemoveAbsent<T(!new)>(s: seq<T>, key: T -> string, k: string)
    requires forall x :: x in s ==> key(x) != k
    ensures RemoveKey(s, key, k) == s
  {
    FilterKeepsAll(s, KeyIsNot(key, k));
  }

  /** Adding an entry with a fresh key and deleting that key gives the list back. */
  lemma AddThenRemove<T(!new)>(s: seq<T>, key: T -> string, x: T)
    requires forall y :: y in s ==> key(y) != key(x)
    ensures RemoveKey(Added(s, x), key, key(x)) == s
  {
    RemoveAdded(s, key, x);
    RemoveAbsent(s, key, key(x));
  }

  /** After a delete no entry has the key, and every other entry is still there. */
  lemma RemoveKeyAll<T(!new)>(s: seq<T>, key: T -> string, k: string)
    ensures forall x :: x in RemoveKey(s, key, k) <==> x in s && key(x) != k
  {
    forall x
      ensures x in RemoveKey(s, key, k) <==> x in s && key(x) != k
    {
      RemoveKeyMembers(s, key, k, x);
    }
  }

  /** Editing keeps every position's key. */
  lemma ReplacedKeys<T>(s: seq<T>, key: T -> string, x: T)
    ensures forall i :: 0 <= i < |s| ==> key(Replaced(s, key, x)[i]) == key(s[i])
  {
  }

  /** Editing twice with the same entry is editing once. */
  lemma ReplacedTwice<T>(s: seq<T>, key: T -> string, x: T)
    ensures Replaced(Replaced(s, key, x), key, x) == Replaced(s, key, x)
  {
    var r := Replaced(s, key, x);
    ReplacedKeys(s, key, x);
    assert forall i :: 0 <= i < |r| ==> Replaced(r, key, x)[i] == r[i];
  }

  /** Editing an entry whose key is not in the list changes nothing. */
  lemma ReplacedAbsent<T>(s: seq<T>, key: T -> string, x: T)
    requires forall y :: y in s ==> key(y) != key(x)
    ensures Replaced(s, key, x) == s
  {
    var r := Replaced(s, key, x);
    assert forall i :: 0 <= i < |s| ==> r[i] == s[i] by {
      forall i | 0 <= i < |s|
        ensures r[i] == s[i]
      {
        assert s[i] in s;
      }
    }
  }

  /** Deleting after editing is deleting: the edited entries go away either way. */
  lemma {:induction false} RemoveReplaced<T>(s: seq<T>, key: T -> string, x: T)
    ensures RemoveKey(Replaced(s, key, x), key, key(x)) == RemoveKey(s, key, key(x))
    decreases |s|
  {
    if s != [] {
      var init := s[..|s| - 1];
      var last := s[|s| - 1];
      var p := KeyIsNot(key, key(x));
      var e := if key(last) == key(x) then x else last;
      var ri := Replaced(init, key, x);
      RemoveReplaced(init, key, x);
      assert Replaced(s, key, x) == ri + [e];
      assert s == init + [last];
      FilterAppend(ri, [e], p);
      FilterAppend(init, [last], p);
      FilterSingleton(e, p);
      FilterSingleton(last, p);
    }
  }

  lemma FilterSingleton<T>(x: T, p: T -> bool)
    ensures Filter([x], p) == if p(x) then [x] else []
  {
    assert [x][..0] == [];
  }
}
