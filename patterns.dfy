/**
 * The literal extraction patterns the preprocessor applies to token images.
 * Each is a regular expression of the shape `open(.+)close`; its match is
 * the leftmost occurrence of `open` followed, at least one character later,
 * by the LAST occurrence of `close` (the greedy `.+`). The link pattern
 * `\[(.+)\]\((.+)\)` has two greedy groups. Line terminators, which `.`
 * does not cross, are not modelled.
 */
module Patterns {
  import opened Wrappers
  import opened Text

  /** The first occurrence of `pat` in `s` at or after `lo`. */
  function FirstIndexOf(s: string, pat: string, lo: nat): (r: Option<nat>)
    decreases |s| - lo
    ensures r.Some? ==> (lo <= r.value && OccursAt(s, pat, r.value)
      && forall k :: lo <= k < r.value ==> !OccursAt(s, pat, k))
    ensures r.None? ==> forall k :: lo <= k ==> !OccursAt(s, pat, k)
  {
    if lo + |pat| > |s| then None
    else if OccursAt(s, pat, lo) then Some(lo)
    else FirstIndexOf(s, pat, lo + 1)
  }

  /** The last occurrence of `pat` in `s` starting between `lo` and `hi`. */
  function LastIndexOf(s: string, pat: string, lo: int, hi: int): (r: Option<int>)
    decreases if hi < lo then 0 else hi - lo + 1
    ensures r.Some? ==> (lo <= r.value <= hi && OccursAt(s, pat, r.value)
      && forall k :: r.value < k <= hi ==> !OccursAt(s, pat, k))
    ensures r.None? ==> forall k :: lo <= k <= hi ==> !OccursAt(s, pat, k)
  {
    if hi < lo then None
    else if OccursAt(s, pat, hi) then Some(hi)
    else LastIndexOf(s, pat, lo, hi - 1)
  }

  /**
   * `open(.+)close`: the text between the leftmost `open` and the last
   * `close` that leaves it non-empty; `None` when no such pair exists.
   */
  function Enclosed(s: string, open: string, close: string): (r: Option<string>)
    ensures r.Some? ==> |r.value| >= 1 && exists i :: (OccursAt(s, open, i)
      && (forall k :: 0 <= k < i ==> !OccursAt(s, open, k))
      && OccursAt(s, open + r.value + close, i)
      && forall k :: i + |open| + |r.value| < k ==> !OccursAt(s, close, k))
    ensures r.None? ==> forall i, j :: OccursAt(s, open, i) && OccursAt(s, close, j) ==> j <= i + |open|
  {
    match FirstIndexOf(s, open, 0)
    case None => None
    case Some(i) =>
      match LastIndexOf(s, close, i + |open| + 1, |s| - |close|)
      case None => None
      case Some(j) =>
        var t := s[i + |open|..j];
        assert s[i..i + |open + t + close|] == open + t + close by {
          assert s[i..i + |open|] == open;
          assert s[j..j + |close|] == close;
          assert s[i..i + |open + t + close|] == s[i..i + |open|] + t + s[j..j + |close|];
        }
        Some(t)
  }

  /** `[Title]` */
  function StatementReferenceTitle(image: string): Option<string> { Enclosed(image, "[", "]") }
  /** `[Title]:` */
  function StatementDefinitionTitle(image: string): Option<string> { Enclosed(image, "[", "]:") }
  /** `@[Title]` optionally followed by one whitespace character */
  function StatementMentionTitle(image: string): Option<string> { Enclosed(image, "@[", "]") }
  /** `<Title>` */
  function ArgumentReferenceTitle(image: string): Option<string> { Enclosed(image, "<", ">") }
  /** `<Title>:` */
  function ArgumentDefinitionTitle(image: string): Option<string> { Enclosed(image, "<", ">:") }
  /** `@<Title>` optionally followed by one whitespace character */
  function ArgumentMentionTitle(image: string): Option<string> { Enclosed(image, "@<", ">") }

  /**
   * `[text](url)`: the leftmost `[`, the last `)` as the end of the url and,
   * for the greedy first group, the last `](` that still leaves a non-empty url.
   */
  function MatchLink(s: string): (r: Option<(string, string)>)
    ensures r.Some? ==> |r.value.0| >= 1 && |r.value.1| >= 1
  {
    match FirstIndexOf(s, "[", 0)
    case None => None
    case Some(i) =>
      match LastIndexOf(s, ")", 0, |s| - 1)
      case None => None
      case Some(k) =>
        match LastIndexOf(s, "](", i + 2, k - 3)
        case None => None
        case Some(j) => Some((s[i + 1..j], s[j + 2..k]))
  }

  /** A matched link image contains the markup `[text](url)` it was taken from. */
  lemma MatchLinkOccurs(s: string)
    requires MatchLink(s).Some?
    ensures var text, url := MatchLink(s).value.0, MatchLink(s).value.1;
      exists i :: OccursAt(s, "[" + text + "](" + url + ")", i)
  {
    var i := FirstIndexOf(s, "[", 0).value;
    var k := LastIndexOf(s, ")", 0, |s| - 1).value;
    var j := LastIndexOf(s, "](", i + 2, k - 3).value;
    var text, url := s[i + 1..j], s[j + 2..k];
    assert MatchLink(s) == Some((text, url));
    OccursJoin(s, "[", text, i);
    OccursJoin(s, "[" + text, "](", i);
    OccursJoin(s, "[" + text + "](", url, i);
    OccursJoin(s, "[" + text + "](" + url, ")", i);
  }

  /** Two adjacent occurrences make an occurrence of the concatenation. */
  lemma OccursJoin(s: string, a: string, b: string, i: int)
    requires OccursAt(s, a, i) && OccursAt(s, b, i + |a|)
    ensures OccursAt(s, a + b, i)
  {
    assert s[i..i + |a + b|] == s[i..i + |a|] + s[i + |a|..i + |a| + |b|];
  }

  /**
   * A pattern applied to `open + t + close + rest` captures exactly `t`,
   * provided `close` does not occur again inside `close + rest`.
   */
  lemma {:induction false} EnclosedRoundTrip(open: string, t: string, close: string, rest: string)
    requires |open| >= 1 && |t| >= 1 && |close| >= 1
    requires forall k :: 0 < k ==> !OccursAt(close + rest, close, k)
    ensures Enclosed(open + t + close + rest, open, close) == Some(t)
  {
    var s := open + t + close + rest;
    var j0 := |open| + |t|;
    assert OccursAt(s, open, 0) by { assert s[..|open|] == open; }
    assert FirstIndexOf(s, open, 0) == Some(0);
    assert OccursAt(s, close, j0) by { assert s[j0..j0 + |close|] == close; }
    forall k | j0 < k ensures !OccursAt(s, close, k) {
      if OccursAt(s, close, k) {
        var tail := close + rest;
        assert s == (open + t) + tail;
        assert s[k..k + |close|] == tail[k - j0..k - j0 + |close|];
        assert OccursAt(tail, close, k - j0);
        assert false;
      }
    }
    var r := LastIndexOf(s, close, |open| + 1, |s| - |close|);
    assert r == Some(j0);
    assert s[|open|..j0] == t;
  }

  /** `[Title]` yields `Title`. */
  lemma StatementReferenceRoundTrip(t: string)
    requires |t| >= 1
    ensures StatementReferenceTitle("[" + t + "]") == Some(t)
  {
    EnclosedRoundTrip("[", t, "]", "");
    assert "[" + t + "]" + "" == "[" + t + "]";
  }

  /** `[Title]:` yields `Title`. */
  lemma StatementDefinitionRoundTrip(t: string)
    requires |t| >= 1
    ensures StatementDefinitionTitle("[" + t + "]:") == Some(t)
  {
    EnclosedRoundTrip("[", t, "]:", "");
    assert "[" + t + "]:" + "" == "[" + t + "]:";
  }

  /** `@[Title]`, with or without one trailing space, yields `Title`. */
  lemma StatementMentionRoundTrip(t: string, trailing: string)
    requires |t| >= 1 && (trailing == "" || trailing == " ")
    ensures StatementMentionTitle("@[" + t + "]" + trailing) == Some(t)
  {
    forall k | 0 < k ensures !OccursAt("]" + trailing, "]", k) {
      assert k + 1 <= |"]" + trailing| ==> k == 1 && ("]" + trailing)[1] == ' ';
    }
    EnclosedRoundTrip("@[", t, "]", trailing);
  }

  /** `<Title>:` yields `Title`. */
  lemma ArgumentDefinitionRoundTrip(t: string)
    requires |t| >= 1
    ensures ArgumentDefinitionTitle("<" + t + ">:") == Some(t)
  {
    EnclosedRoundTrip("<", t, ">:", "");
    assert "<" + t + ">:" + "" == "<" + t + ">:";
  }

  /** `<Title>` yields `Title`. */
  lemma ArgumentReferenceRoundTrip(t: string)
    requires |t| >= 1
    ensures ArgumentReferenceTitle("<" + t + ">") == Some(t)
  {
    EnclosedRoundTrip("<", t, ">", "");
    assert "<" + t + ">" + "" == "<" + t + ">";
  }

  /** `@<Title>`, with or without one trailing space, yields `Title`. */
  lemma ArgumentMentionRoundTrip(t: string, trailing: string)
    requires |t| >= 1 && (trailing == "" || trailing == " ")
    ensures ArgumentMentionTitle("@<" + t + ">" + trailing) == Some(t)
  {
    forall k | 0 < k ensures !OccursAt(">" + trailing, ">", k) {
      assert k + 1 <= |">" + trailing| ==> k == 1 && (">" + trailing)[1] == ' ';
    }
    EnclosedRoundTrip("@<", t, ">", trailing);
  }

  /** An occurrence with none before it is the first. */
  lemma FirstIndexOfIs(s: string, pat: string, lo: nat, j: nat)
    requires lo <= j && OccursAt(s, pat, j)
    requires forall k :: lo <= k < j ==> !OccursAt(s, pat, k)
    ensures FirstIndexOf(s, pat, lo) == Some(j)
  {
  }

  /** An occurrence with none after it, up to `hi`, is the last. */
  lemma LastIndexOfIs(s: string, pat: string, lo: int, hi: int, j: int)
    requires lo <= j <= hi && OccursAt(s, pat, j)
    requires forall k :: j < k <= hi ==> !OccursAt(s, pat, k)
    ensures LastIndexOf(s, pat, lo, hi) == Some(j)
  {
  }

  /**
   * `[text](url)`, with or without one trailing space, yields `text` and
   * `url` when `url` holds no `](`.
   */
  lemma LinkRoundTrip(text: string, url: string, trailing: string)
    requires |text| >= 1 && |url| >= 1 && (trailing == "" || trailing == " ")
    requires forall k :: !OccursAt(url, "](", k)
    ensures MatchLink("[" + text + "](" + url + ")" + trailing) == Some((text, url))
  {
    var s := "[" + text + "](" + url + ")" + trailing;
    var j0, k0 := 1 + |text|, 1 + |text| + 2 + |url|;
    LinkFirstOpen(s, text, url, trailing);
    LinkLastClose(s, text, url, trailing);
    LinkLastSeparator(s, text, url, trailing);
    LinkParts(s, text, url, trailing);
    MatchLinkAt(s, j0, k0);
  }

  /** The link match, once its three delimiters are located. */
  lemma MatchLinkAt(s: string, j: int, k: int)
    requires FirstIndexOf(s, "[", 0) == Some(0)
    requires LastIndexOf(s, ")", 0, |s| - 1) == Some(k)
    requires LastIndexOf(s, "](", 2, k - 3) == Some(j)
    ensures MatchLink(s) == Some((s[1..j], s[j + 2..k]))
  {
    var i := FirstIndexOf(s, "[", 0).value;
    assert i == 0 && i + 2 == 2 && i + 1 == 1;
  }

  /** The two groups of a link image, as slices. */
  lemma LinkParts(s: string, text: string, url: string, trailing: string)
    requires s == "[" + text + "](" + url + ")" + trailing
    ensures s[1..1 + |text|] == text
    ensures s[1 + |text| + 2..1 + |text| + 2 + |url|] == url
  {
  }

  /** A link image starts with its `[`. */
  lemma LinkFirstOpen(s: string, text: string, url: string, trailing: string)
    requires s == "[" + text + "](" + url + ")" + trailing
    ensures FirstIndexOf(s, "[", 0) == Some(0)
  {
    assert OccursAt(s, "[", 0) by { assert s[0..1] == [s[0]] == "["; }
    FirstIndexOfIs(s, "[", 0, 0);
  }

  /** The url's closing `)` is the last one in a link image. */
  lemma LinkLastClose(s: string, text: string, url: string, trailing: string)
    requires s == "[" + text + "](" + url + ")" + trailing
    requires trailing == "" || trailing == " "
    ensures LastIndexOf(s, ")", 0, |s| - 1) == Some(1 + |text| + 2 + |url|)
  {
    var k0 := 1 + |text| + 2 + |url|;
    assert s[k0] == ')';
    assert OccursAt(s, ")", k0) by { assert s[k0..k0 + 1] == [s[k0]]; }
    if trailing == " " {
      assert s[|s| - 1] == ' ';
      assert !OccursAt(s, ")", |s| - 1);
    }
    LastIndexOfIs(s, ")", 0, |s| - 1, k0);
  }

  /** Without `](` inside the url, the separator after `text` is the last one. */
  lemma LinkLastSeparator(s: string, text: string, url: string, trailing: string)
    requires s == "[" + text + "](" + url + ")" + trailing
    requires |text| >= 1 && |url| >= 1
    requires forall k :: !OccursAt(url, "](", k)
    ensures LastIndexOf(s, "](", 2, |text| + |url|) == Some(1 + |text|)
  {
    SeparatorAfterText(text, url, trailing);
    forall k | 1 + |text| < k <= |text| + |url| ensures !OccursAt(s, "](", k) {
      NoSeparatorAfter(text, url, trailing, k);
    }
    LastIndexOfIs(s, "](", 2, |text| + |url|, 1 + |text|);
  }

  /** The `](` that ends `text` in a link image. */
  lemma SeparatorAfterText(text: string, url: string, trailing: string)
    ensures OccursAt("[" + text + "](" + url + ")" + trailing, "](", 1 + |text|)
  {
    var s := "[" + text + "](" + url + ")" + trailing;
    assert s[1 + |text|] == ']' && s[2 + |text|] == '(';
    assert s[1 + |text|..3 + |text|] == "](";
  }

  /** A `](` starting after the one that ends `text` would lie inside the url. */
  lemma NoSeparatorAfter(text: string, url: string, trailing: string, k: int)
    requires forall k :: !OccursAt(url, "](", k)
    requires 1 + |text| < k <= |text| + |url|
    ensures !OccursAt("[" + text + "](" + url + ")" + trailing, "](", k)
  {
    var head := "[" + text + "](";
    var s := "[" + text + "](" + url + ")" + trailing;
    assert s == head + url + (")" + trailing);
    if k == |head| - 1 {
      assert s[k] == head[k] == '(';
    } else {
      assert s[k..k + 2] == url[k - |head|..k - |head| + 2];
      assert !OccursAt(url, "](", k - |head|);
    }
  }
}
