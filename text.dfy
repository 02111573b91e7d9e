/** String operations the log scripts take from Python's `str` and `re`:
    `split` and `join` on a one-character separator, `strip()`, `startswith`,
    the `in` substring test, and the character classes `\d`, `\w` and `\s`.
    Character classes are their ASCII parts; Python's Unicode extensions are
    not modelled. */
module Text {

  /** Python's `str.isspace()` on ASCII: tab, line feed, vertical tab, form
      feed, carriage return, the separators 0x1C..0x1F, and space. */
  predicate IsSpace(ch: char) {
    9 <= ch as int <= 13 || 28 <= ch as int <= 32
  }

  /** The regex class `\d`, restricted to ASCII. */
  predicate IsDigit(ch: char) {
    '0' <= ch <= '9'
  }

  /** The regex class `\w`, restricted to ASCII. */
  predicate IsWordChar(ch: char) {
    'a' <= ch <= 'z' || 'A' <= ch <= 'Z' || IsDigit(ch) || ch == '_'
  }

  // ---------------------------------------------------------------------
  // split / join

  /** Number of occurrences of `c` in `s`. */
  function Occurrences(s: string, c: char): nat {
    if s == [] then 0 else (if s[0] == c then 1 else 0) + Occurrences(s[1..], c)
  }

  /** `s.split(sep)`: the pieces between separators, never an empty list. */
  function Split(s: string, sep: char): (parts: seq<string>)
    ensures |parts| == Occurrences(s, sep) + 1
    ensures forall i :: 0 <= i < |parts| ==> sep !in parts[i]
  {
    if s == [] then [""]
    else
      var rest := Split(s[1..], sep);
      if s[0] == sep then [""] + rest
      else [[s[0]] + rest[0]] + rest[1..]
  }

  /** `sep.join(parts)`. */
  function Join(parts: seq<string>, sep: char): string {
    if parts == [] then ""
    else if |parts| == 1 then parts[0]
    else parts[0] + [sep] + Join(parts[1..], sep)
  }

  /** Splitting loses nothing: joining the pieces back gives the input. */
  lemma {:induction false} JoinSplit(s: string, sep: char)
    ensures Join(Split(s, sep), sep) == s
  {
    if s != [] {
      JoinSplit(s[1..], sep);
      var rest := Split(s[1..], sep);
      if s[0] == sep {
        assert Split(s, sep) == [""] + rest;
        assert ([""] + rest)[1..] == rest;
      } else {
        var parts := [[s[0]] + rest[0]] + rest[1..];
        assert Split(s, sep) == parts;
        if |rest| > 1 {
          assert parts[1..] == rest[1..];
          assert Join(rest, sep) == rest[0] + [sep] + Join(rest[1..], sep);
        }
      }
    }
  }

  lemma {:induction false} SplitNoSeparator(s: string, sep: char)
    requires sep !in s
    ensures Split(s, sep) == [s]
  {
    if s != [] {
      assert s[0] != sep;
      SplitNoSeparator(s[1..], sep);
      assert [s[0]] + s[1..] == s;
    }
  }

  lemma {:induction false} SplitAfterPiece(p: string, sep: char, t: string)
    requires sep !in p
    ensures Split(p + [sep] + t, sep) == [p] + Split(t, sep)
  {
    if p == [] {
      assert p + [sep] + t == [sep] + t;
      assert ([sep] + t)[1..] == t;
    } else {
      SplitAfterPiece(p[1..], sep, t);
      assert (p + [sep] + t)[1..] == p[1..] + [sep] + t;
      assert [p[0]] + p[1..] == p;
    }
  }

  /** Splitting a join of separator-free pieces gives the pieces back. */
  lemma {:induction false} SplitJoin(parts: seq<string>, sep: char)
    requires parts != []
    requires forall i :: 0 <= i < |parts| ==> sep !in parts[i]
    ensures Split(Join(parts, sep), sep) == parts
  {
    if |parts| == 1 {
      SplitNoSeparator(parts[0], sep);
    } else {
      SplitJoin(parts[1..], sep);
      SplitAfterPiece(parts[0], sep, Join(parts[1..], sep));
      assert [parts[0]] + parts[1..] == parts;
    }
  }

  // ---------------------------------------------------------------------
  // strip

  function StripLeft(s: string): (r: string)
    ensures |r| <= |s| && r == s[|s| - |r|..]
    ensures r == [] || !IsSpace(r[0])
    ensures forall i :: 0 <= i < |s| - |r| ==> IsSpace(s[i])
  {
    if s != [] && IsSpace(s[0]) then
      var r := StripLeft(s[1..]);
      assert s[1..][|s| - 1 - |r|..] == s[|s| - |r|..];
      r
    else s
  }

  function StripRight(s: string): (r: string)
    ensures |r| <= |s| && r == s[..|r|]
    ensures r == [] || !IsSpace(r[|r| - 1])
    ensures forall i :: |r| <= i < |s| ==> IsSpace(s[i])
  {
    if s != [] && IsSpace(s[|s| - 1]) then StripRight(s[..|s| - 1]) else s
  }

  /** `t`, found at position `b` of `s`, is what is left of `s` after
      removing leading and trailing whitespace: only whitespace comes
      before and after it, and it has no whitespace at either end. */
  predicate Trimmed(s: string, t: string, b: int) {
    && OccursAt(s, t, b)
    && (forall i :: 0 <= i < b ==> IsSpace(s[i]))
    && (forall i :: b + |t| <= i < |s| ==> IsSpace(s[i]))
    && (t == [] || (!IsSpace(t[0]) && !IsSpace(t[|t| - 1])))
  }

  /** `s.strip()`: the input without leading and trailing whitespace. */
  function Strip(s: string): (r: string)
    ensures |r| <= |s|
    ensures r == [] || (!IsSpace(r[0]) && !IsSpace(r[|r| - 1]))
    ensures forall c :: c in r ==> c in s
    ensures exists a :: Trimmed(s, r, a)
  {
    var l := StripLeft(s);
    var r := StripRight(l);
    StripSlice(s, l, r);
    r
  }

  lemma StripSlice(s: string, l: string, r: string)
    requires |l| <= |s| && l == s[|s| - |l|..]
    requires forall i :: 0 <= i < |s| - |l| ==> IsSpace(s[i])
    requires |r| <= |l| && r == l[..|r|]
    requires forall i :: |r| <= i < |l| ==> IsSpace(l[i])
    requires l == [] || !IsSpace(l[0])
    requires r == [] || !IsSpace(r[|r| - 1])
    ensures Trimmed(s, r, |s| - |l|)
    ensures forall c :: c in r ==> c in s
  {
    var a := |s| - |l|;
    assert forall i :: a <= i < |s| ==> s[i] == l[i - a];
    assert r != [] ==> r[0] == l[0];
  }

  /** Two trimmed slices of the same string are the same. */
  lemma TrimUnique(s: string, t: string, b: int, r: string, a: int)
    requires Trimmed(s, t, b) && Trimmed(s, r, a)
    ensures t == r
  {
    if t != [] {
      OccursAtIndex(s, t, b, 0);
      OccursAtIndex(s, t, b, |t| - 1);
    }
    if r != [] {
      OccursAtIndex(s, r, a, 0);
      OccursAtIndex(s, r, a, |r| - 1);
    }
    if t != [] && r != [] {
      assert a == b && |t| == |r|;
    }
  }

  /** `strip()` is determined by what it removes: a slice of `s` with only
      whitespace before and after it, and no whitespace at either end, is
      `Strip(s)`. */
  lemma StripUnique(s: string, t: string, b: int)
    requires Trimmed(s, t, b)
    ensures t == Strip(s)
  {
    var a :| Trimmed(s, Strip(s), a);
    TrimUnique(s, t, b, Strip(s), a);
  }

  // ---------------------------------------------------------------------
  // prefixes, substrings and fixed-shape patterns

  /** `s.startswith(p)`. */
  predicate StartsWith(s: string, p: string) {
    |p| <= |s| && s[..|p|] == p
  }

  /** Python's `p in s` on strings, by scanning start positions. */
  predicate Contains(s: string, p: string)
    decreases |s|
  {
    StartsWith(s, p) || (s != [] && Contains(s[1..], p))
  }

  /** `p` occurs in `s` at position `i`. */
  predicate OccursAt(s: string, p: string, i: int) {
    0 <= i <= |s| - |p| && s[i..i + |p|] == p
  }

  lemma OccursAtIndex(s: string, p: string, i: int, j: nat)
    requires OccursAt(s, p, i) && j < |p|
    ensures s[i + j] == p[j]
  {
    assert s[i..i + |p|][j] == s[i + j];
  }

  /** `p in s` means `p` occurs at some position of `s`. */
  lemma {:induction false} ContainsIff(s: string, p: string)
    ensures Contains(s, p) <==> exists i :: OccursAt(s, p, i)
  {
    if s == [] {
      if exists i :: OccursAt(s, p, i) {
        var i :| OccursAt(s, p, i);
        assert s[..|p|] == p;
      }
      if StartsWith(s, p) {
        assert OccursAt(s, p, 0);
      }
    } else {
      ContainsIff(s[1..], p);
      if StartsWith(s, p) {
        assert s[0..|p|] == s[..|p|];
        assert OccursAt(s, p, 0);
      }
      if Contains(s[1..], p) {
        var i :| OccursAt(s[1..], p, i);
        assert OccursAt(s, p, i + 1);
      }
      if exists i :: OccursAt(s, p, i) {
        var i :| OccursAt(s, p, i);
        if i > 0 {
          assert s[1..][i - 1..i - 1 + |p|] == s[i..i + |p|];
          assert OccursAt(s[1..], p, i - 1);
        } else {
          assert s[..|p|] == s[i..i + |p|];
        }
      }
    }
  }

  /** A pattern made of literal characters and `#`, which stands for `\d`. */
  predicate CharFits(ch: char, t: char) {
    if t == '#' then IsDigit(ch) else ch == t
  }

  /** `s` begins with a match of the fixed-width pattern `t`. */
  predicate FitsTemplate(s: string, t: string) {
    |t| <= |s| && forall i :: 0 <= i < |t| ==> CharFits(s[i], t[i])
  }
}
