/** The string primitives the application relies on: `trim`, `toLowerCase`,
    `includes` and the relational `<` on strings. */
module Text {

  /** The characters `String.prototype.trim` removes: the ECMAScript
      WhiteSpace and LineTerminator code points. */
  predicate IsSpace(c: char) {
    || c == '\t' || c == '\n' || c == '\U{B}' || c == '\U{C}' || c == '\r' || c == ' '
    || c == '\U{A0}' || c == '\U{1680}' || ('\U{2000}' <= c <= '\U{200A}')
    || c == '\U{2028}' || c == '\U{2029}' || c == '\U{202F}' || c == '\U{205F}'
    || c == '\U{3000}' || c == '\U{FEFF}'
  }

  predicate IsUpper(c: char) {
    'A' <= c <= 'Z'
  }

  function LowerChar(c: char): (d: char)
    ensures !IsUpper(d)
    ensures !IsUpper(c) ==> d == c
  {
    if IsUpper(c) then (c as int + 32) as char else c
  }

  /** `s.toLowerCase()`, restricted to the ASCII letters. */
  function Lower(s: string): (r: string)
    ensures |r| == |s|
    ensures forall i :: 0 <= i < |r| ==> !IsUpper(r[i])
    ensures forall i :: 0 <= i < |s| && !IsUpper(s[i]) ==> r[i] == s[i]
    ensures forall i :: 0 <= i < |s| && IsUpper(s[i]) ==> r[i] as int == s[i] as int + 32
  {
    seq(|s|, i requires 0 <= i < |s| => LowerChar(s[i]))
  }

  /** Lowering twice is lowering once. */
  lemma LowerIdempotent(s: string)
    ensures Lower(Lower(s)) == Lower(s)
  {
  }

  /** The first index at or after `i` that does not hold white space
      (`|s|` when there is none). */
  function SkipSpaces(s: string, i: nat): (k: nat)
    requires i <= |s|
    ensures i <= k <= |s|
    ensures forall j :: i <= j < k ==> IsSpace(s[j])
    ensures k == |s| || !IsSpace(s[k])
    decreases |s| - i
  {
    if i < |s| && IsSpace(s[i]) then SkipSpaces(s, i + 1) else i
  }

  /** The end of `s[lo..hi]` once its trailing white space is dropped. */
  function SkipSpacesBack(s: string, lo: nat, hi: nat): (k: nat)
    requires lo <= hi <= |s|
    ensures lo <= k <= hi
    ensures forall j :: k <= j < hi ==> IsSpace(s[j])
    ensures k == lo || !IsSpace(s[k - 1])
    decreases hi
  {
    if lo < hi && IsSpace(s[hi - 1]) then SkipSpacesBack(s, lo, hi - 1) else hi
  }

  /** True when neither end of `s` is white space. */
  predicate Trimmed(s: string) {
    s == [] || (!IsSpace(s[0]) && !IsSpace(s[|s| - 1]))
  }

  /** True when `s` is empty or white space only. */
  predicate IsBlank(s: string) {
    forall i :: 0 <= i < |s| ==> IsSpace(s[i])
  }

  /** `s.trim()`: the string without white space at either end. The result is
      a slice of `s` with only blanks cut off each side; it is empty exactly
      when `s` is blank, and a string that is already trimmed is returned
      unchanged. */
  function Trim(s: string): (r: string)
    ensures exists lo, hi :: 0 <= lo <= hi <= |s| && r == s[lo..hi] && IsBlank(s[..lo]) && IsBlank(s[hi..])
    ensures |r| <= |s|
    ensures Trimmed(r)
    ensures r == [] <==> IsBlank(s)
    ensures Trimmed(s) ==> r == s
  {
    var lo := SkipSpaces(s, 0);
    var hi := SkipSpacesBack(s, lo, |s|);
    assert hi == lo ==> IsBlank(s);
    s[lo..hi]
  }

  /** White space has no case: lowering keeps exactly the same positions
      blank. */
  lemma LowerKeepsSpaces(s: string)
    ensures forall i :: 0 <= i < |s| ==> (IsSpace(Lower(s)[i]) <==> IsSpace(s[i]))
  {
  }

  /** Trimming and lowering commute. */
  lemma TrimLower(s: string)
    ensures Trim(Lower(s)) == Lower(Trim(s))
  {
    var l := Lower(s);
    LowerKeepsSpaces(s);
    SkipSpacesLower(s, l, 0);
    var lo := SkipSpaces(s, 0);
    SkipSpacesBackLower(s, l, lo, |s|);
    var hi := SkipSpacesBack(s, lo, |s|);
    assert Trim(l) == l[lo..hi];
    assert Trim(s) == s[lo..hi];
    LowerSlice(s, lo, hi);
  }

  lemma LowerSlice(s: string, lo: nat, hi: nat)
    requires lo <= hi <= |s|
    ensures Lower(s[lo..hi]) == Lower(s)[lo..hi]
  {
  }

  lemma {:induction false} SkipSpacesLower(s: string, l: string, i: nat)
    requires |l| == |s| && i <= |s|
    requires forall j :: 0 <= j < |s| ==> (IsSpace(l[j]) <==> IsSpace(s[j]))
    ensures SkipSpaces(l, i) == SkipSpaces(s, i)
    decreases |s| - i
  {
    if i < |s| && IsSpace(s[i]) {
      SkipSpacesLower(s, l, i + 1);
    }
  }

  lemma {:induction false} SkipSpacesBackLower(s: string, l: string, lo: nat, hi: nat)
    requires |l| == |s| && lo <= hi <= |s|
    requires forall j :: 0 <= j < |s| ==> (IsSpace(l[j]) <==> IsSpace(s[j]))
    ensures SkipSpacesBack(l, lo, hi) == SkipSpacesBack(s, lo, hi)
    decreases hi
  {
    if lo < hi && IsSpace(s[hi - 1]) {
      SkipSpacesBackLower(s, l, lo, hi - 1);
    }
  }

  /** Trimming twice is trimming once. */
  lemma TrimIdempotent(s: string)
    ensures Trim(Trim(s)) == Trim(s)
  {
  }

  /** `hay.includes(needle)`: `needle` occurs as a contiguous piece of
      `hay`. The empty string occurs in every string, and a string occurs in
      itself. */
  predicate Contains(hay: string, needle: string): (r: bool)
    ensures r <==> exists k, e :: 0 <= k <= e <= |hay| && hay[k..e] == needle
    ensures needle == [] ==> r
    ensures needle == hay ==> r
  {
    assert hay[0..] == hay;
    ContainsPiece(hay, needle);
    exists k :: 0 <= k <= |hay| && needle <= hay[k..]
  }

  /** A prefix of a suffix is a contiguous piece, and back. */
  lemma ContainsPiece(hay: string, needle: string)
    ensures (exists k :: 0 <= k <= |hay| && needle <= hay[k..])
        <==> (exists k, e :: 0 <= k <= e <= |hay| && hay[k..e] == needle)
  {
    if k :| 0 <= k <= |hay| && needle <= hay[k..] {
      assert hay[k..k + |needle|] == needle;
    }
    if k, e :| 0 <= k <= e <= |hay| && hay[k..e] == needle {
      assert needle <= hay[k..];
    }
  }

  /** The relational `a < b` on strings: lexicographic by character, a proper
      prefix being smaller, and no string smaller than itself.
      `LexLessFirstDifference` characterises it by the first difference. */
  predicate LexLess(a: string, b: string): (r: bool)
    ensures a < b ==> r
    ensures r ==> a != b
  {
    if |b| == 0 then false
    else if |a| == 0 then true
    else if a[0] != b[0] then a[0] < b[0]
    else
      assert a < b ==> a[1..] < b[1..];
      LexLess(a[1..], b[1..])
  }

  /** `a < b` holds exactly when, at the first position where the two
      strings differ, `b` still has a character and `a` has either none or a
      smaller one. */
  lemma {:induction false} LexLessFirstDifference(a: string, b: string)
    ensures LexLess(a, b) <==> exists k :: 0 <= k <= |a| && k < |b| && a[..k] == b[..k] && (k == |a| || a[k] < b[k])
  {
    if |a| > 0 && |b| > 0 && a[0] == b[0] {
      LexLessFirstDifference(a[1..], b[1..]);
      LexLessShift(a, b);
    } else if |b| > 0 {
      assert a[..0] == b[..0];
    }
  }

  /** With equal first characters, a first difference of `a` and `b` is one
      position past a first difference of their tails, and back. */
  lemma LexLessShift(a: string, b: string)
    requires |a| > 0 && |b| > 0 && a[0] == b[0]
    ensures (exists k :: 0 <= k <= |a| && k < |b| && a[..k] == b[..k] && (k == |a| || a[k] < b[k]))
        <==> (exists k :: 0 <= k <= |a| - 1 && k < |b| - 1 && a[1..][..k] == b[1..][..k]
                && (k == |a| - 1 || a[1..][k] < b[1..][k]))
  {
    forall k | 0 < k <= |a| && k < |b|
      ensures a[..k] == b[..k] <==> a[1..][..k - 1] == b[1..][..k - 1]
    {
      assert a[..k] == [a[0]] + a[1..][..k - 1];
      assert b[..k] == [b[0]] + b[1..][..k - 1];
    }
  }

  lemma {:induction false} LexIrreflexive(a: string)
    ensures !LexLess(a, a)
  {
    if |a| > 0 {
      LexIrreflexive(a[1..]);
    }
  }

  lemma {:induction false} LexAsymmetric(a: string, b: string)
    requires LexLess(a, b)
    ensures !LexLess(b, a)
  {
    if |a| > 0 && |b| > 0 && a[0] == b[0] {
      LexAsymmetric(a[1..], b[1..]);
    }
  }

  lemma {:induction false} LexTransitive(a: string, b: string, c: string)
    requires LexLess(a, b) && LexLess(b, c)
    ensures LexLess(a, c)
  {
    if |a| > 0 && a[0] == b[0] && b[0] == c[0] {
      LexTransitive(a[1..], b[1..], c[1..]);
    }
  }

  /** Any two different strings are ordered one way or the other. */
  lemma {:induction false} LexTotal(a: string, b: string)
    requires a != b
    ensures LexLess(a, b) || LexLess(b, a)
  {
    if |a| > 0 && |b| > 0 && a[0] == b[0] {
      assert a == [a[0]] + a[1..] && b == [b[0]] + b[1..];
      LexTotal(a[1..], b[1..]);
    }
  }

  /** Exactly one of `a < b`, `a == b` and `b < a` holds. */
  lemma LexTrichotomy(a: string, b: string)
    ensures a == b <==> !LexLess(a, b) && !LexLess(b, a)
    ensures !(LexLess(a, b) && LexLess(b, a))
  {
    if a == b {
      LexIrreflexive(a);
    } else {
      LexTotal(a, b);
      if LexLess(a, b) { LexAsymmetric(a, b); }
    }
  }
}
