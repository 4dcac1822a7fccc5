/** `String.prototype.trim`, used by the category and goal forms. */
module Text {

  /** The characters `trim` removes: ECMAScript's WhiteSpace (tab, vertical tab,
      form feed, the byte-order mark and the space separators) and its
      LineTerminators. */
  predicate IsWhite(c: char) {
    || c == '\t' || c == '\n' || c == '\U{B}' || c == '\U{C}' || c == '\r' || c == ' '
    || c == '\U{A0}' || c == '\U{1680}' || ('\U{2000}' <= c <= '\U{200A}')
    || c == '\U{2028}' || c == '\U{2029}' || c == '\U{202F}' || c == '\U{205F}'
    || c == '\U{3000}' || c == '\U{FEFF}'
  }

  function TrimStart(s: string): (r: string)
    ensures |r| <= |s|
    ensures r == [] || !IsWhite(r[0])
    ensures forall i :: 0 <= i < |s| - |r| ==> IsWhite(s[i])
  {
    if s != [] && IsWhite(s[0]) then TrimStart(s[1..]) else s
  }

  function TrimEnd(s: string): (r: string)
    ensures |r| <= |s|
    ensures r == [] || !IsWhite(r[|r| - 1])
    ensures forall i :: |r| <= i < |s| ==> IsWhite(s[i])
  {
    if s != [] && IsWhite(s[|s| - 1]) then TrimEnd(s[..|s| - 1]) else s
  }

  /** What `TrimStart` keeps is a suffix of its input. */
  lemma {:induction false} TrimStartSuffix(s: string)
    ensures TrimStart(s) == s[|s| - |TrimStart(s)|..]
  {
    if s != [] && IsWhite(s[0]) {
      TrimStartSuffix(s[1..]);
      assert s[1..][|s| - 1 - |TrimStart(s[1..])|..] == s[|s| - |TrimStart(s)|..];
    }
  }

  /** What `TrimEnd` keeps is a prefix of its input. */
  lemma {:induction false} TrimEndPrefix(s: string)
    ensures TrimEnd(s) == s[..|TrimEnd(s)|]
  {
    if s != [] && IsWhite(s[|s| - 1]) {
      TrimEndPrefix(s[..|s| - 1]);
      assert s[..|s| - 1][..|TrimEnd(s)|] == s[..|TrimEnd(s)|];
    }
  }

  /** Every character of `s` before index `i` and from index `j` on is white. */
  predicate WhiteOutside(s: string, i: int, j: int)
    requires 0 <= i <= j <= |s|
  {
    && (forall k :: 0 <= k < i ==> IsWhite(s[k]))
    && (forall k :: j <= k < |s| ==> IsWhite(s[k]))
  }

  /** The text with its white characters at both ends removed: a slice of `s`
      with only white characters before and after it, empty exactly when the text
      is all white, and otherwise beginning and ending with characters that are
      not white. */
  function Trim(s: string): (r: string)
    ensures r == "" <==> forall i :: 0 <= i < |s| ==> IsWhite(s[i])
    ensures r != "" ==> !IsWhite(r[0]) && !IsWhite(r[|r| - 1])
    ensures exists i, j :: 0 <= i <= j <= |s| && r == s[i..j] && WhiteOutside(s, i, j)
  {
    TrimFacts(s);
    assert exists i, j ::
        0 <= i <= j <= |s| && TrimEnd(TrimStart(s)) == s[i..j] && WhiteOutside(s, i, j) by {
      TrimIsSlice(s);
      var i := |s| - |TrimStart(s)|;
      assert WhiteOutside(s, i, i + |TrimEnd(TrimStart(s))|);
    }
    TrimEnd(TrimStart(s))
  }

  /** The trimmed text is the slice of `s` between its leading and its trailing
      white characters. */
  lemma TrimIsSlice(s: string)
    ensures var i := |s| - |TrimStart(s)|;
      var j := i + |TrimEnd(TrimStart(s))|;
      && 0 <= i <= j <= |s|
      && TrimEnd(TrimStart(s)) == s[i..j]
      && WhiteOutside(s, i, j)
  {
    var t := TrimStart(s);
    TrimStartSuffix(s);
    TrimEndPrefix(t);
    SliceBetween(s, t, TrimEnd(t));
  }

  /** A prefix `r` of a suffix `t` of `s` is a slice of `s`; when what the suffix
      drops and what the prefix drops is white, only white lies around the slice. */
  lemma SliceBetween(s: string, t: string, r: string)
    requires |t| <= |s| && t == s[|s| - |t|..]
    requires |r| <= |t| && r == t[..|r|]
    requires forall k :: 0 <= k < |s| - |t| ==> IsWhite(s[k])
    requires forall k :: |r| <= k < |t| ==> IsWhite(t[k])
    ensures var i := |s| - |t|;
      && r == s[i..i + |r|]
      && WhiteOutside(s, i, i + |r|)
  {
    var i := |s| - |t|;
    var j := i + |r|;
    assert r == s[i..j];
    WhiteShift(s, i, |r|);
    assert WhiteOutside(s, i, j);
  }

  /** White characters from index `n` of a suffix of `s` are white characters of `s`. */
  lemma WhiteShift(s: string, i: nat, n: nat)
    requires i <= |s|
    requires forall k :: n <= k < |s| - i ==> IsWhite(s[i..][k])
    ensures forall k :: i + n <= k < |s| ==> IsWhite(s[k])
  {
    forall k | i + n <= k < |s|
      ensures IsWhite(s[k])
    {
      assert s[k] == s[i..][k - i];
    }
  }

  lemma TrimFacts(s: string)
    ensures var r := TrimEnd(TrimStart(s));
      && (r == "" <==> forall i :: 0 <= i < |s| ==> IsWhite(s[i]))
      && (r != "" ==> !IsWhite(r[0]))
  {
    var t := TrimStart(s);
    var r := TrimEnd(t);
    TrimStartSuffix(s);
    TrimEndPrefix(t);
    if r == "" {
      assert t == [];
    } else {
      assert r[0] == t[0];
    }
  }

  /** Trimming twice is trimming once. */
  lemma TrimIdempotent(s: string)
    ensures Trim(Trim(s)) == Trim(s)
  {
    var r := Trim(s);
    if r != "" {
      assert TrimStart(r) == r;
      assert TrimEnd(r) == r;
    }
  }
}
