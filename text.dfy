/**
 * The few Python string operations the bot relies on, written out over
 * `seq<char>`: substring search (`str.find`, `in`), `str.rfind` for one
 * character, `str.strip()` with Python's whitespace set, `str.replace(old, "")`
 * and `str()` of an integer.
 */
module Text {
  import opened Wrappers

  /** `pat` occurs in `s` starting at index `i`. */
  predicate Occurs(s: string, pat: string, i: int) {
    0 <= i && i + |pat| <= |s| && s[i..i + |pat|] == pat
  }

  predicate Contains(s: string, pat: string) {
    exists i | 0 <= i <= |s| :: Occurs(s, pat, i)
  }

  /** Python's `s.find(pat)`, with `None` in place of -1: the first occurrence. */
  function IndexOf(s: string, pat: string): (r: Option<nat>)
    ensures r.Some? ==> Occurs(s, pat, r.value)
    ensures r.Some? ==> forall j :: 0 <= j < r.value ==> !Occurs(s, pat, j)
    ensures r.None? <==> !Contains(s, pat)
    decreases |s|
  {
    if |s| < |pat| then None
    else if s[..|pat|] == pat then Some(0)
    else
      ShiftOccurs(s, pat);
      match IndexOf(s[1..], pat)
      case None => None
      case Some(k) => Some(k + 1)
  }

  /** Past the first character, the occurrences in `s` are those in `s[1..]`, one place further on. */
  lemma ShiftOccurs(s: string, pat: string)
    requires s != []
    ensures forall j :: 1 <= j ==> (Occurs(s, pat, j) <==> Occurs(s[1..], pat, j - 1))
  {
    forall j | 1 <= j ensures Occurs(s, pat, j) <==> Occurs(s[1..], pat, j - 1) {
      OccursInSuffix(s, pat, 1, j - 1);
    }
  }

  /** An occurrence in a suffix is an occurrence in the whole text, `off` places further on. */
  lemma OccursInSuffix(s: string, pat: string, off: nat, j: int)
    requires off <= |s|
    ensures Occurs(s[off..], pat, j) <==> j >= 0 && Occurs(s, pat, j + off)
  {
    if 0 <= j && j + |pat| <= |s| - off {
      assert s[off..][j..j + |pat|] == s[j + off..j + off + |pat|];
    }
  }

  /** Occurrences of `x` and then `y` right after it make an occurrence of `x + y`. */
  lemma OccursConcat(s: string, x: string, y: string, i: int)
    requires Occurs(s, x, i) && Occurs(s, y, i + |x|)
    ensures Occurs(s, x + y, i)
  {
    assert s[i..i + |x| + |y|] == s[i..i + |x|] + s[i + |x|..i + |x| + |y|];
  }

  /**
   * When the pattern's first character appears nowhere else in it, the
   * pattern cannot overlap itself, so in `a + pat + b` with no occurrence
   * inside `a` the first occurrence is exactly the one after `a`.
   */
  lemma FirstAfter(a: string, pat: string, b: string)
    requires pat != [] && pat[0] !in pat[1..]
    requires !Contains(a, pat)
    ensures IndexOf(a + pat + b, pat) == Some(|a|)
  {
    var s := a + pat + b;
    assert s[|a|..|a| + |pat|] == pat;
    assert Occurs(s, pat, |a|);
    forall j | 0 <= j < |a| ensures !Occurs(s, pat, j) {
      if j + |pat| <= |a| {
        assert a[j..j + |pat|] == s[j..j + |pat|];
        assert !Occurs(a, pat, j);
      } else {
        var d := |a| - j;
        assert pat[1..][d - 1] == pat[d];
        assert pat[d] != pat[0];
        assert s[j..j + |pat|][d] == pat[0];
      }
    }
  }

  /** Python's `s.rfind(c)` for a single character, with `None` in place of -1. */
  function LastIndexOf(s: string, c: char): (r: Option<nat>)
    ensures r.Some? ==> r.value < |s| && s[r.value] == c
    ensures r.Some? ==> forall j :: r.value < j < |s| ==> s[j] != c
    ensures r.None? <==> c !in s
  {
    if s == [] then None
    else if s[|s| - 1] == c then Some(|s| - 1)
    else LastIndexOf(s[..|s| - 1], c)
  }

  /** The characters for which Python's `str.isspace()` holds. */
  predicate IsSpace(c: char) {
    ('\t' <= c <= '\r') || ('\U{1C}' <= c <= ' ') || c == '\U{85}' || c == '\U{A0}' ||
    c == '\U{1680}' || ('\U{2000}' <= c <= '\U{200A}') || c == '\U{2028}' || c == '\U{2029}' ||
    c == '\U{202F}' || c == '\U{205F}' || c == '\U{3000}'
  }

  /** Drops the leading whitespace: what is left is a suffix that starts with a non-space. */
  function TrimStart(s: string): (r: string)
    ensures |r| <= |s| && r == s[|s| - |r|..]
    ensures forall k {:trigger IsSpace(s[k])} :: 0 <= k < |s| - |r| ==> IsSpace(s[k])
    ensures r != [] ==> !IsSpace(r[0])
  {
    if s != [] && IsSpace(s[0]) then TrimStart(s[1..]) else s
  }

  /** Drops the trailing whitespace: what is left is a prefix that ends with a non-space. */
  function TrimEnd(s: string): (r: string)
    ensures |r| <= |s| && r == s[..|r|]
    ensures forall k {:trigger IsSpace(s[k])} :: |r| <= k < |s| ==> IsSpace(s[k])
    ensures r != [] ==> !IsSpace(r[|r| - 1])
  {
    if s != [] && IsSpace(s[|s| - 1]) then TrimEnd(s[..|s| - 1]) else s
  }

  /** `r` sits at index `i` of `s`, and everything before and after it is whitespace. */
  predicate StrippedAt(s: string, r: string, i: int) {
    0 <= i <= |s| - |r| && s[i..i + |r|] == r &&
    (forall k :: 0 <= k < i ==> IsSpace(s[k])) &&
    (forall k :: i + |r| <= k < |s| ==> IsSpace(s[k]))
  }

  /** Python's `s.strip()`: the slice of `s` between its leading and trailing whitespace. */
  function Strip(s: string): (r: string)
    ensures r != [] ==> !IsSpace(r[0]) && !IsSpace(r[|r| - 1])
    ensures r == [] <==> forall k {:trigger IsSpace(s[k])} :: 0 <= k < |s| ==> IsSpace(s[k])
    ensures Contains(s, r)
  {
    var t := TrimStart(s);
    var r := TrimEnd(t);
    assert Occurs(s, r, |s| - |t|);
    StripEmpty(s, t, r);
    r
  }

  /** Stripping removes only whitespace: what lies before and after the result is all whitespace. */
  lemma StripOnlySpace(s: string)
    ensures exists i :: StrippedAt(s, Strip(s), i)
  {
    StripAt(s, TrimStart(s), Strip(s));
  }

  /** Only whitespace lies outside the stripped text, which starts where the trimmed suffix does. */
  lemma StripAt(s: string, t: string, r: string)
    requires |t| <= |s| && t == s[|s| - |t|..]
    requires forall k :: 0 <= k < |s| - |t| ==> IsSpace(s[k])
    requires |r| <= |t| && r == t[..|r|]
    requires forall k :: |r| <= k < |t| ==> IsSpace(t[k])
    ensures StrippedAt(s, r, |s| - |t|)
  {
    var i := |s| - |t|;
    assert s[i..i + |r|] == r;
    forall k | i + |r| <= k < |s| ensures IsSpace(s[k]) {
      assert s[k] == t[k - i];
    }
  }

  lemma StripEmpty(s: string, t: string, r: string)
    requires t == TrimStart(s) && r == TrimEnd(t)
    ensures r == [] <==> forall k :: 0 <= k < |s| ==> IsSpace(s[k])
  {
    if t != [] {
      assert s[|s| - |t|] == t[0];
      assert r != [];
    }
  }

  /** Stripping keeps every character that is not whitespace. */
  lemma StripKeeps(s: string, k: nat)
    requires k < |s| && !IsSpace(s[k])
    ensures s[k] in Strip(s)
  {
    var t := TrimStart(s);
    var off := |s| - |t|;
    assert k >= off;
    assert t[k - off] == s[k];
    var r := TrimEnd(t);
    assert k - off < |r|;
    assert r[k - off] == s[k];
  }

  /** Stripping twice gives the same text as stripping once. */
  lemma StripIdempotent(s: string)
    ensures Strip(Strip(s)) == Strip(s)
  {
    var r := Strip(s);
    if r != [] {
      assert TrimStart(r) == r;
      assert TrimEnd(r) == r;
    }
  }

  /** Python's `s.replace(pat, "")`: every non-overlapping occurrence, scanned left to right, is removed. */
  function RemoveAll(s: string, pat: string): (r: string)
    requires pat != []
    ensures |r| <= |s|
    decreases |s|
  {
    if |s| < |pat| then s
    else if s[..|pat|] == pat then RemoveAll(s[|pat|..], pat)
    else [s[0]] + RemoveAll(s[1..], pat)
  }

  /** Removing a pattern never removes a character that the pattern does not contain. */
  lemma {:induction false} RemoveAllKeeps(s: string, pat: string, c: char)
    requires pat != [] && c !in pat && c in s
    ensures c in RemoveAll(s, pat)
    decreases |s|
  {
    if |s| < |pat| {
    } else if s[..|pat|] == pat {
      var k :| 0 <= k < |s| && s[k] == c;
      assert s[|pat|..][k - |pat|] == c;
      RemoveAllKeeps(s[|pat|..], pat, c);
    } else if s[0] != c {
      var k :| 0 <= k < |s| && s[k] == c;
      assert s[1..][k - 1] == c;
      RemoveAllKeeps(s[1..], pat, c);
    }
  }

  /** Text that does not contain the pattern comes back unchanged. */
  lemma {:induction false} RemoveAllAbsent(s: string, pat: string)
    requires pat != [] && !Contains(s, pat)
    ensures RemoveAll(s, pat) == s
    decreases |s|
  {
    if |s| >= |pat| {
      assert !Occurs(s, pat, 0);
      assert s[..|pat|] != pat;
      forall j | true ensures !Occurs(s[1..], pat, j) {
        assert Occurs(s[1..], pat, j) ==> Occurs(s, pat, j + 1);
      }
      RemoveAllAbsent(s[1..], pat);
    }
  }

  /** `n` is where the first occurrence of `pat` in `s` starts. */
  predicate FirstOccurrence(s: string, pat: string, n: nat) {
    Occurs(s, pat, n) && forall j :: 0 <= j < n ==> !Occurs(s, pat, j)
  }

  /**
   * The first occurrence of the pattern is removed and the scan resumes right
   * after it; with `RemoveAllAbsent` this pins `replace(pat, "")` down.
   */
  lemma {:induction false} RemoveAllFirst(s: string, pat: string, n: nat)
    requires pat != [] && FirstOccurrence(s, pat, n)
    ensures RemoveAll(s, pat) == s[..n] + RemoveAll(s[n + |pat|..], pat)
    decreases n
  {
    if n == 0 {
      RemoveAllAtStart(s, pat);
    } else {
      RemoveAllFirstStep(s, pat, n);
      var t := s[1..];
      RemoveAllFirst(t, pat, n - 1);
      KeptFirst(s, n, |pat|, RemoveAll(s, pat), RemoveAll(t, pat), RemoveAll(t[n - 1 + |pat|..], pat));
    }
  }

  /** The same, for the first occurrence as `str.find` reports it. */
  lemma RemoveAllAtIndex(s: string, pat: string, n: nat)
    requires pat != [] && IndexOf(s, pat) == Some(n)
    ensures n + |pat| <= |s|
    ensures RemoveAll(s, pat) == s[..n] + RemoveAll(s[n + |pat|..], pat)
  {
    RemoveAllFirst(s, pat, n);
  }

  lemma RemoveAllAtStart(s: string, pat: string)
    requires pat != [] && Occurs(s, pat, 0)
    ensures RemoveAll(s, pat) == s[..0] + RemoveAll(s[|pat|..], pat)
  {
    assert s[..|pat|] == pat;
    assert s[..0] == [];
  }

  /** Past a first character that starts no occurrence, the first occurrence is one place nearer. */
  lemma RemoveAllFirstStep(s: string, pat: string, n: nat)
    requires pat != [] && FirstOccurrence(s, pat, n) && n > 0
    ensures FirstOccurrence(s[1..], pat, n - 1)
    ensures RemoveAll(s, pat) == [s[0]] + RemoveAll(s[1..], pat)
  {
    assert !Occurs(s, pat, 0);
    assert s[..|pat|] != pat;
    forall j | 0 <= j ensures Occurs(s[1..], pat, j) <==> Occurs(s, pat, j + 1) {
      OccursInSuffix(s, pat, 1, j);
    }
  }

  /** Putting the kept first character back in front of the text kept from the rest. */
  lemma KeptFirst(s: string, n: nat, p: nat, x: string, y: string, z: string)
    requires 0 < n && n + p <= |s|
    requires x == [s[0]] + y && y == s[1..][..n - 1] + z
    ensures s[1..][n - 1 + p..] == s[n + p..]
    ensures x == s[..n] + z
  {
    assert [s[0]] + s[1..][..n - 1] == s[..n];
  }

  // ---------------------------------------------------------------------------
  // Delimited segments: the non-greedy `open(.*?)close` pattern of a regular
  // expression with DOTALL, searched (`re.search`) and removed (`re.sub`)
  // ---------------------------------------------------------------------------

  /** The first character of `pat` occurs nowhere else in it, so `pat` cannot overlap itself. */
  predicate SelfDisjoint(pat: string) {
    pat != [] && pat[0] !in pat[1..]
  }

  /** Some `open` in `text` is followed, later on, by a `close`. */
  predicate Tagged(text: string, open: string, close: string) {
    exists i, j | 0 <= i <= j <= |text| ::
      Occurs(text, open, i) && Occurs(text, close, j) && i + |open| <= j
  }

  /**
   * The first match's group: the text between the first `open` and the
   * next `close` after it. A later `open` cannot match where the first one
   * did not, so there is a match exactly when the text is tagged.
   */
  function FirstSegment(text: string, open: string, close: string): (r: Option<string>)
    requires close != []
    ensures r.None? <==> !Tagged(text, open, close)
    ensures r.Some? ==> Contains(text, open + r.value + close) && !Contains(r.value, close)
  {
    match IndexOf(text, open)
    case None => None
    case Some(i) =>
      var rest := text[i + |open|..];
      match IndexOf(rest, close)
      case None =>
        NoCloseAfterFirstOpen(text, open, close, i);
        None
      case Some(k) =>
        SegmentAtFirstOpen(text, open, close, i, k);
        Some(rest[..k])
  }

  lemma NoCloseAfterFirstOpen(text: string, open: string, close: string, i: nat)
    requires IndexOf(text, open) == Some(i)
    requires IndexOf(text[i + |open|..], close).None?
    ensures !Tagged(text, open, close)
  {
    forall a, b | 0 <= a <= b <= |text| && Occurs(text, open, a) && a + |open| <= b
      ensures !Occurs(text, close, b)
    {
      NoCloseAt(text, open, close, i, a, b);
    }
  }

  /** A `close` after some `open` would lie after the first `open` too. */
  lemma NoCloseAt(text: string, open: string, close: string, i: nat, a: nat, b: nat)
    requires IndexOf(text, open) == Some(i)
    requires IndexOf(text[i + |open|..], close).None?
    requires b <= |text| && Occurs(text, open, a) && a + |open| <= b
    ensures !Occurs(text, close, b)
  {
    assert i <= a;
    var d := b - (i + |open|);
    assert !Occurs(text[i + |open|..], close, d);
    OccursInSuffix(text, close, i + |open|, d);
  }

  lemma SegmentAtFirstOpen(text: string, open: string, close: string, i: nat, k: nat)
    requires close != []
    requires IndexOf(text, open) == Some(i)
    requires IndexOf(text[i + |open|..], close) == Some(k)
    ensures Tagged(text, open, close)
    ensures Contains(text, open + text[i + |open|..][..k] + close)
    ensures !Contains(text[i + |open|..][..k], close)
  {
    var rest := text[i + |open|..];
    OccursInSuffix(text, close, i + |open|, k);
    assert Occurs(text, close, i + |open| + k);
    SegmentOccurs(text, open, close, i, k);
    BeforeFirst(rest, close, k);
  }

  /** The first `open`, the text after it up to index `k`, and a `close` there, read as one occurrence. */
  lemma SegmentOccurs(text: string, open: string, close: string, i: nat, k: nat)
    requires Occurs(text, open, i) && i + |open| + k <= |text|
    requires Occurs(text, close, i + |open| + k)
    ensures Occurs(text, open + text[i + |open|..][..k] + close, i)
  {
    var p := text[i + |open|..][..k];
    assert Occurs(text, p, i + |open|) by {
      assert text[i + |open|..i + |open| + k] == p;
    }
    OccursConcat(text, open, p, i);
    OccursConcat(text, open + p, close, i);
  }

  /** The text before the first occurrence of a pattern does not contain it. */
  lemma BeforeFirst(s: string, pat: string, k: nat)
    requires pat != [] && IndexOf(s, pat) == Some(k)
    ensures !Contains(s[..k], pat)
  {
    forall j | 0 <= j <= k ensures !Occurs(s[..k], pat, j) {
      if j + |pat| <= k {
        assert !Occurs(s, pat, j);
        assert s[..k][j..j + |pat|] == s[j..j + |pat|];
      }
    }
  }

  /**
   * Every segment removed: scanning left to right, an `open` that has a
   * later `close` is dropped together with everything up to and including
   * the first such `close`; the scan resumes after the removed segment.
   */
  function RemoveSegments(text: string, open: string, close: string): (r: string)
    requires open != []
    ensures |r| <= |text|
    decreases |text|
  {
    if text == [] then []
    else if Occurs(text, open, 0) && IndexOf(text[|open|..], close).Some? then
      RemoveSegments(text[|open| + IndexOf(text[|open|..], close).value + |close|..], open, close)
    else [text[0]] + RemoveSegments(text[1..], open, close)
  }

  /** Text without any `open` is not tagged. */
  lemma UntaggedWithoutOpen(s: string, open: string, close: string)
    requires !Contains(s, open)
    ensures !Tagged(s, open, close)
  {
  }

  /**
   * Text with no `open` that a `close` follows (none at all, or only ones
   * left unclosed) comes through the removal unchanged.
   */
  lemma {:induction false} RemoveSegmentsUntagged(s: string, open: string, close: string)
    requires open != [] && !Tagged(s, open, close)
    ensures RemoveSegments(s, open, close) == s
    decreases |s|
  {
    if s != [] {
      NoSegmentAtStart(s, open, close);
      UntaggedTail(s, open, close);
      RemoveSegmentsUntagged(s[1..], open, close);
    }
  }

  /** A segment starting at the first character makes the text tagged. */
  lemma NoSegmentAtStart(s: string, open: string, close: string)
    ensures Occurs(s, open, 0) && IndexOf(s[|open|..], close).Some? ==> Tagged(s, open, close)
  {
    if Occurs(s, open, 0) && IndexOf(s[|open|..], close).Some? {
      var k := IndexOf(s[|open|..], close).value;
      OccursInSuffix(s, close, |open|, k);
      assert Occurs(s, close, |open| + k);
    }
  }

  /** A tagged suffix would make the whole text tagged. */
  lemma UntaggedTail(s: string, open: string, close: string)
    requires s != [] && !Tagged(s, open, close)
    ensures !Tagged(s[1..], open, close)
  {
    forall i, j | 0 <= i <= j <= |s[1..]| && Occurs(s[1..], open, i) && Occurs(s[1..], close, j)
      ensures i + |open| > j
    {
      OccursInSuffix(s, open, 1, i);
      OccursInSuffix(s, close, 1, j);
      assert !(Occurs(s, open, i + 1) && Occurs(s, close, j + 1) && i + 1 + |open| <= j + 1);
    }
  }

  /**
   * The first segment, and only it, is cut out: the text before it is
   * kept and the scan goes on in the text after it.
   */
  lemma RemoveSegmentsFirst(pre: string, p: string, post: string, open: string, close: string)
    requires SelfDisjoint(open) && SelfDisjoint(close)
    requires !Contains(pre, open) && !Contains(p, close)
    ensures RemoveSegments(pre + open + p + close + post, open, close) == pre + RemoveSegments(post, open, close)
  {
    var s := pre + open + p + close + post;
    var rest := open + p + close + post;
    Regroup(pre, open, p, close, post);
    FirstAfter(pre, open, p + close + post);
    KeepPrefix(s, pre, rest, open, close);
    CutAtStart(rest, open, p, close, post);
  }

  lemma Regroup(pre: string, open: string, p: string, close: string, post: string)
    ensures pre + open + p + close + post == pre + (open + p + close + post)
    ensures pre + open + p + close + post == pre + open + (p + close + post)
    ensures open + p + close + post == open + (p + close + post)
  {
  }

  /** `KeepBeforeFirst` stated for a text split into the part before the first `open` and the rest. */
  lemma KeepPrefix(s: string, pre: string, rest: string, open: string, close: string)
    requires open != [] && s == pre + rest && IndexOf(s, open) == Some(|pre|)
    ensures RemoveSegments(s, open, close) == pre + RemoveSegments(rest, open, close)
  {
    KeepBeforeFirst(s, open, close, |pre|);
    assert s[..|pre|] == pre && s[|pre|..] == rest;
  }

  /** Everything before the first `open` is kept as it is. */
  lemma {:induction false} KeepBeforeFirst(s: string, open: string, close: string, n: nat)
    requires open != [] && IndexOf(s, open) == Some(n)
    ensures RemoveSegments(s, open, close) == s[..n] + RemoveSegments(s[n..], open, close)
    decreases n
  {
    if n == 0 {
      assert s[..0] == [] && s[0..] == s;
    } else {
      IndexOfTail(s, open, n);
      KeepBeforeFirst(s[1..], open, close, n - 1);
      KeepStep(s, open, close, n);
    }
  }

  lemma KeepStep(s: string, open: string, close: string, n: nat)
    requires open != [] && IndexOf(s, open) == Some(n) && n > 0
    requires RemoveSegments(s[1..], open, close) == s[1..][..n - 1] + RemoveSegments(s[1..][n - 1..], open, close)
    ensures RemoveSegments(s, open, close) == s[..n] + RemoveSegments(s[n..], open, close)
  {
    var t := s[1..];
    RemoveSegmentsSkip(s, open, close);
    assert t[..n - 1] == s[1..n] && t[n - 1..] == s[n..];
    assert s[..n] == [s[0]] + s[1..n];
    ConsAppend(s[0], RemoveSegments(s, open, close), RemoveSegments(t, open, close), s[1..n], RemoveSegments(s[n..], open, close));
  }

  lemma ConsAppend(c: char, x: string, y: string, u: string, z: string)
    requires x == [c] + y && y == u + z
    ensures x == ([c] + u) + z
  {
  }

  /** A later first occurrence is one place nearer once the first character is dropped. */
  lemma IndexOfTail(s: string, pat: string, k: nat)
    requires IndexOf(s, pat) == Some(k) && k > 0
    ensures IndexOf(s[1..], pat) == Some(k - 1)
  {
    assert !Occurs(s, pat, 0);
  }

  /** A segment right at the start is cut out as a whole. */
  lemma CutAtStart(s: string, open: string, p: string, close: string, post: string)
    requires SelfDisjoint(open) && SelfDisjoint(close) && !Contains(p, close)
    requires s == open + p + close + post
    ensures RemoveSegments(s, open, close) == RemoveSegments(post, open, close)
  {
    assert s[..|open|] == open;
    assert s[|open|..] == p + close + post;
    FirstAfter(p, close, post);
    assert s[|open| + |p| + |close|..] == post;
  }

  /** Where no `open` starts, the first character is kept. */
  lemma RemoveSegmentsSkip(s: string, open: string, close: string)
    requires open != [] && s != []
    requires IndexOf(s, open) != Some(0)
    ensures RemoveSegments(s, open, close) == [s[0]] + RemoveSegments(s[1..], open, close)
  {
  }

  /** The segment between `pre` and `post` is the first one when `pre` has no `open`. */
  lemma FirstSegmentOf(pre: string, p: string, post: string, open: string, close: string)
    requires SelfDisjoint(open) && SelfDisjoint(close)
    requires !Contains(pre, open) && !Contains(p, close)
    ensures FirstSegment(pre + open + p + close + post, open, close) == Some(p)
  {
    var s := pre + open + p + close + post;
    var rest := p + close + post;
    Regroup(pre, open, p, close, post);
    FirstAfter(pre, open, rest);
    FirstAfter(p, close, post);
    assert rest[..|p|] == p;
    SegmentAfterPrefix(s, pre, open, rest, close, |p|);
  }

  lemma SegmentAfterPrefix(s: string, pre: string, open: string, rest: string, close: string, k: nat)
    requires close != [] && s == pre + open + rest
    requires IndexOf(s, open) == Some(|pre|)
    requires IndexOf(rest, close) == Some(k)
    ensures FirstSegment(s, open, close) == Some(rest[..k])
  {
    assert s[|pre| + |open|..] == rest;
    FirstSegmentAt(s, open, close, |pre|, k);
  }

  /** The segment found from the first `open` at `i` and the first `close` after it, `k` places on. */
  lemma FirstSegmentAt(text: string, open: string, close: string, i: nat, k: nat)
    requires close != []
    requires IndexOf(text, open) == Some(i)
    requires IndexOf(text[i + |open|..], close) == Some(k)
    ensures FirstSegment(text, open, close) == Some(text[i + |open|..][..k])
  {
  }

  /** The number a string of decimal digits denotes, most significant digit first. */
  function DecimalValue(ds: string): int {
    if ds == [] then 0
    else DecimalValue(ds[..|ds| - 1]) * 10 + (ds[|ds| - 1] as int - '0' as int)
  }

  /**
   * Python's `str(n)` for an integer: a minus sign exactly for negative
   * numbers, then the decimal digits of the magnitude, with no leading zero.
   */
  function IntToString(n: int): (r: string)
    ensures r != []
    ensures n >= 0 ==> (forall k :: 0 <= k < |r| ==> '0' <= r[k] <= '9') && DecimalValue(r) == n
    ensures n >= 0 ==> (r[0] == '0' <==> n == 0) && (n == 0 ==> r == "0")
    ensures n < 0 ==> r[0] == '-' && |r| >= 2 && r[1] != '0' && DecimalValue(r[1..]) == -n
    ensures n < 0 ==> forall k :: 1 <= k < |r| ==> '0' <= r[k] <= '9'
    decreases if n < 0 then 1 - n else n
  {
    if n < 0 then "-" + IntToString(-n)
    else if n < 10 then [Digit(n)]
    else
      var r := IntToString(n / 10) + [Digit(n % 10)];
      assert r[..|r| - 1] == IntToString(n / 10);
      r
  }

  function Digit(d: int): (c: char)
    requires 0 <= d < 10
    ensures '0' <= c <= '9' && c as int - '0' as int == d
  {
    (d + '0' as int) as char
  }
}
