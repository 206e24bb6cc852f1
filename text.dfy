/**
 * String helpers the preprocessor relies on: concatenation of child images,
 * the "ends in a space" test used for trailing whitespace, and
 * `String.prototype.trim` as JavaScript defines it.
 */
module Text {

  /** `pat` occurs in `s` starting at offset `i`. */
  predicate OccursAt(s: string, pat: string, i: int) {
    0 <= i && i + |pat| <= |s| && s[i..i + |pat|] == pat
  }

  /** The last character of `s` is a space (`s[s.length - 1] == ' '`; false for ""). */
  predicate EndsWithSpace(s: string) {
    |s| > 0 && s[|s| - 1] == ' '
  }

  /** The trailing-whitespace marker a listener records for an image. */
  function TrailingWhitespace(image: string): (w: string)
    ensures w == " " || w == ""
    ensures (w == " ") <==> EndsWithSpace(image)
  {
    if EndsWithSpace(image) then " " else ""
  }

  /** Concatenation of `parts` in order, as a loop of `+=` builds it. */
  function Concat(parts: seq<string>): string
  {
    if parts == [] then "" else Concat(parts[..|parts| - 1]) + parts[|parts| - 1]
  }

  lemma {:induction false} ConcatAppend(a: seq<string>, b: seq<string>)
    ensures Concat(a + b) == Concat(a) + Concat(b)
    decreases |b|
  {
    if b == [] {
      assert a + b == a;
    } else {
      var b' := b[..|b| - 1];
      assert (a + b)[..|a + b| - 1] == a + b';
      ConcatAppend(a, b');
    }
  }

  /** Concatenating one more part appends it. */
  lemma ConcatSnoc(parts: seq<string>, i: nat)
    requires i < |parts|
    ensures Concat(parts[..i + 1]) == Concat(parts[..i]) + parts[i]
  {
    assert parts[..i + 1][..i] == parts[..i];
  }

  /** Each part sits in the concatenation right after the parts before it. */
  lemma ConcatAt(parts: seq<string>, i: nat)
    requires i < |parts|
    ensures var off := |Concat(parts[..i])|;
      off + |parts[i]| <= |Concat(parts)| && Concat(parts)[off..off + |parts[i]|] == parts[i]
  {
    assert parts == parts[..i] + [parts[i]] + parts[i + 1..];
    ConcatAppend(parts[..i] + [parts[i]], parts[i + 1..]);
    ConcatAppend(parts[..i], [parts[i]]);
    assert Concat([parts[i]]) == parts[i] by {
      assert [parts[i]][..0] == [];
    }
  }

  /**
   * The characters `String.prototype.trim` removes: the ECMAScript
   * WhiteSpace (tab, vertical tab, form feed, space, no-break space,
   * byte-order mark and the Unicode space separators) and LineTerminator
   * (line feed, carriage return, line and paragraph separators) sets.
   */
  predicate IsJsWhitespace(c: char) {
    c == '\t' || c == '\n' || c == '\U{000B}' || c == '\U{000C}' || c == '\r' || c == ' '
    || c == '\U{00A0}' || c == '\U{1680}' || ('\U{2000}' <= c <= '\U{200A}')
    || c == '\U{2028}' || c == '\U{2029}' || c == '\U{202F}' || c == '\U{205F}'
    || c == '\U{3000}' || c == '\U{FEFF}'
  }

  predicate IsTrimmed(s: string) {
    s == [] || (!IsJsWhitespace(s[0]) && !IsJsWhitespace(s[|s| - 1]))
  }

  /** `s` with its leading whitespace removed: a suffix of `s`. */
  function TrimStart(s: string): (r: string)
    ensures |r| <= |s| && r == s[|s| - |r|..]
    ensures forall k :: 0 <= k < |s| - |r| ==> IsJsWhitespace(s[k])
    ensures r == [] || !IsJsWhitespace(r[0])
  {
    if s != [] && IsJsWhitespace(s[0]) then TrimStart(s[1..]) else s
  }

  /** `s` with its trailing whitespace removed: a prefix of `s`. */
  function TrimEnd(s: string): (r: string)
    ensures |r| <= |s| && r == s[..|r|]
    ensures forall k :: |r| <= k < |s| ==> IsJsWhitespace(s[k])
    ensures r == [] || !IsJsWhitespace(r[|r| - 1])
  {
    if s != [] && IsJsWhitespace(s[|s| - 1]) then TrimEnd(s[..|s| - 1]) else s
  }

  /**
   * `String.prototype.trim`: `s` without whitespace at either end (see
   * TrimInfix for where the result sits in `s`).
   */
  function Trim(s: string): (r: string)
    ensures |r| <= |s| && IsTrimmed(r)
  {
    var t := TrimStart(s);
    var r := TrimEnd(t);
    TrimBoth(s, t, r);
    r
  }

  /** The trimmed string is an infix of `s`, and everything dropped on either side is whitespace. */
  lemma TrimInfix(s: string)
    ensures var a := |s| - |TrimStart(s)|; var r := Trim(s);
      && OccursAt(s, r, a)
      && (forall k :: 0 <= k < a ==> IsJsWhitespace(s[k]))
      && (forall k :: a + |r| <= k < |s| ==> IsJsWhitespace(s[k]))
  {
    var t := TrimStart(s);
    TrimBoth(s, t, TrimEnd(t));
  }

  /** The facts about `Trim`, from those about its two halves. */
  lemma TrimBoth(s: string, t: string, r: string)
    requires |t| <= |s| && t == s[|s| - |t|..] && (t == [] || !IsJsWhitespace(t[0]))
    requires |r| <= |t| && r == t[..|r|] && (r == [] || !IsJsWhitespace(r[|r| - 1]))
    requires forall k :: |r| <= k < |t| ==> IsJsWhitespace(t[k])
    ensures IsTrimmed(r)
    ensures var a := |s| - |t|;
      && OccursAt(s, r, a)
      && (forall k :: a + |r| <= k < |s| ==> IsJsWhitespace(s[k]))
  {
    var a := |s| - |t|;
    assert t == s[a..] && r == t[..|r|];
    forall i | 0 <= i < |r| ensures s[a..a + |r|][i] == r[i] {
      assert r[i] == t[i] == s[a + i];
    }
    assert s[a..a + |r|] == r;
    forall k | a + |r| <= k < |s| ensures IsJsWhitespace(s[k]) {
      assert s[k] == t[k - a];
    }
    if r != [] {
      assert r[0] == t[0];
    }
  }

  /** Trimming twice is trimming once. */
  lemma {:induction false} TrimIdempotent(s: string)
    ensures Trim(Trim(s)) == Trim(s)
  {
    var r := Trim(s);
    assert TrimStart(r) == r;
    assert TrimEnd(r) == r;
  }
}
