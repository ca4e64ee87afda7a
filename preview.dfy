/**
 * `formatContent` from the search bar: the preview text shown for a hit.
 * Each `replace(/…/g, …)` is a left-to-right scan that, at each position,
 * either matches the pattern there (and continues after the match) or
 * copies one character. The passes run in the source's order.
 */
module Preview {
  import opened Text

  const Fence: string := "```"

  /**
   * `replace(/```[\s\S]*?```/g, '')`: a fence opens a block that the lazy
   * body closes at the next fence. An opening fence with no closing one is
   * kept as text.
   */
  function StripFences(s: string): (r: string)
    ensures |r| <= |s|
    decreases |s|
  {
    if s == [] then []
    else if StartsAt(s, 0, Fence) && FindFrom(s, Fence, 3) < |s| then
      StripFences(s[FindFrom(s, Fence, 3) + 3..])
    else
      [s[0]] + StripFences(s[1..])
  }

  /**
   * `replace(/d([^d]+)d/g, '$1')` for a single delimiter `d`: the group is
   * the run of other characters up to the next `d`, and must not be empty.
   */
  function Unwrap(s: string, d: char): (r: string)
    ensures |r| <= |s|
    decreases |s|
  {
    if s == [] then []
    else if s[0] == d && 1 < IndexOfFrom(s, d, 1) < |s| then
      var k := IndexOfFrom(s, d, 1);
      s[1..k] + Unwrap(s[k + 1..], d)
    else
      [s[0]] + Unwrap(s[1..], d)
  }

  /**
   * `replace(/dd([^d]+)dd/g, '$1')` for a doubled delimiter: the group runs
   * up to the next `d`, which must open a `dd`.
   */
  function Unwrap2(s: string, d: char): (r: string)
    ensures |r| <= |s|
    decreases |s|
  {
    if s == [] then []
    else if |s| >= 2 && s[0] == d && s[1] == d
         && 2 < IndexOfFrom(s, d, 2) < |s| - 1 && s[IndexOfFrom(s, d, 2) + 1] == d then
      var k := IndexOfFrom(s, d, 2);
      s[2..k] + Unwrap2(s[k + 2..], d)
    else
      [s[0]] + Unwrap2(s[1..], d)
  }

  /**
   * `replace(/\[([^\]]+)\]\([^)]+\)/g, '$1')`: `[text](url)` with a
   * non-empty text free of `]` and a non-empty url free of `)` becomes the
   * text.
   */
  function ReplaceLinks(s: string): (r: string)
    ensures |r| <= |s|
    decreases |s|
  {
    if s == [] then []
    else if s[0] == '[' && LinkEnd(s) < |s| then
      var k := IndexOfFrom(s, ']', 1);
      s[1..k] + ReplaceLinks(s[LinkEnd(s) + 1..])
    else
      [s[0]] + ReplaceLinks(s[1..])
  }

  /**
   * Where the `)` of a link that opens at the start of `s` is, or `|s|` when
   * no link opens there.
   */
  function LinkEnd(s: string): (m: nat)
    requires s != [] && s[0] == '['
    ensures m <= |s|
    ensures m < |s| ==> s[m] == ')' && 1 < IndexOfFrom(s, ']', 1) && IndexOfFrom(s, ']', 1) + 2 < m
  {
    var k := IndexOfFrom(s, ']', 1);
    if 1 < k && k + 1 < |s| && s[k + 1] == '(' then
      var m := IndexOfFrom(s, ')', k + 2);
      if k + 2 < m < |s| then m else |s|
    else
      |s|
  }

  /**
   * `replace(/<[^>]*>?/gm, '')`: a `<` and everything up to and including
   * the next `>` go; with no `>` after it, the rest of the text goes.
   */
  function StripTags(s: string): (r: string)
    ensures '<' !in r
    ensures forall c :: c in r ==> c in s
    decreases |s|
  {
    if s == [] then []
    else if s[0] == '<' then
      var k := IndexOfFrom(s, '>', 1);
      if k < |s| then StripTags(s[k + 1..]) else []
    else
      [s[0]] + StripTags(s[1..])
  }

  /** `formatContent(content)`. */
  function FormatContent(content: string): string {
    var noCode := StripFences(content);
    var noInlineCode := Unwrap(noCode, '`');
    var noBold := Unwrap2(Unwrap2(noInlineCode, '*'), '_');
    var noItalic := Unwrap(Unwrap(noBold, '*'), '_');
    var noLinks := ReplaceLinks(noItalic);
    var noTags := StripTags(noLinks);
    Trim(ReplaceWhitespaceRuns(noTags, ' '))
  }

  /* ---- The result ---- */

  /** A slice of single-spaced text is single-spaced. */
  lemma SingleSpacedSlice(s: string, a: nat, b: nat, rep: char)
    requires a <= b <= |s| && SingleSpaced(s, rep)
    ensures SingleSpaced(s[a..b], rep)
  {
    var t := s[a..b];
    assert forall i :: 0 <= i < |t| ==> t[i] == s[a + i];
  }

  /**
   * The preview has no whitespace at either end, every whitespace character
   * in it is a plain space and no two are adjacent, and it holds no `<`.
   */
  lemma FormatContentShape(content: string)
    ensures IsTrimmed(FormatContent(content))
    ensures SingleSpaced(FormatContent(content), ' ')
    ensures '<' !in FormatContent(content)
  {
    var noTags := StripTags(ReplaceLinks(Unwrap(Unwrap(Unwrap2(Unwrap2(Unwrap(StripFences(content), '`'), '*'), '_'), '*'), '_')));
    var spaced := ReplaceWhitespaceRuns(noTags, ' ');
    ReplaceWhitespaceRunsSpacing(noTags, ' ');
    ReplaceWhitespaceRunsChars(noTags, ' ');
    TrimSlice(spaced);
    SingleSpacedSlice(spaced, TrimOffset(spaced), TrimOffset(spaced) + |Trim(spaced)|, ' ');
    TrimChars(spaced);
  }

  /* ---- Text the passes leave alone ---- */

  lemma {:induction false} StripFencesPrefix(a: string, b: string)
    requires '`' !in a
    ensures StripFences(a + b) == a + StripFences(b)
  {
    if a != [] {
      var s := a + b;
      assert s[0] == a[0] && s[1..] == a[1..] + b;
      assert !StartsAt(s, 0, Fence) by {
        if |s| >= 3 {
          assert s[0..3][0] == s[0] != Fence[0];
        }
      }
      assert StripFences(s) == [a[0]] + StripFences(a[1..] + b);
      StripFencesPrefix(a[1..], b);
      ConcatAssoc([a[0]], a[1..], StripFences(b));
      assert a == [a[0]] + a[1..];
    } else {
      assert a + b == b;
    }
  }

  lemma {:induction false} UnwrapPrefix(a: string, b: string, d: char)
    requires d !in a
    ensures Unwrap(a + b, d) == a + Unwrap(b, d)
  {
    if a != [] {
      var s := a + b;
      assert s[0] == a[0] && s[1..] == a[1..] + b;
      UnwrapPrefix(a[1..], b, d);
      ConcatAssoc([a[0]], a[1..], Unwrap(b, d));
      assert a == [a[0]] + a[1..];
    } else {
      assert a + b == b;
    }
  }

  lemma {:induction false} Unwrap2Prefix(a: string, b: string, d: char)
    requires d !in a
    ensures Unwrap2(a + b, d) == a + Unwrap2(b, d)
  {
    if a != [] {
      var s := a + b;
      assert s[0] == a[0] && s[1..] == a[1..] + b;
      Unwrap2Prefix(a[1..], b, d);
      ConcatAssoc([a[0]], a[1..], Unwrap2(b, d));
      assert a == [a[0]] + a[1..];
    } else {
      assert a + b == b;
    }
  }

  lemma {:induction false} ReplaceLinksPrefix(a: string, b: string)
    requires '[' !in a
    ensures ReplaceLinks(a + b) == a + ReplaceLinks(b)
  {
    if a != [] {
      var s := a + b;
      assert s[0] == a[0] && s[1..] == a[1..] + b;
      ReplaceLinksPrefix(a[1..], b);
      ConcatAssoc([a[0]], a[1..], ReplaceLinks(b));
      assert a == [a[0]] + a[1..];
    } else {
      assert a + b == b;
    }
  }

  lemma {:induction false} StripTagsPrefix(a: string, b: string)
    requires '<' !in a
    ensures StripTags(a + b) == a + StripTags(b)
  {
    if a != [] {
      var s := a + b;
      assert s[0] == a[0] && s[1..] == a[1..] + b;
      StripTagsPrefix(a[1..], b);
      ConcatAssoc([a[0]], a[1..], StripTags(b));
      assert a == [a[0]] + a[1..];
    } else {
      assert a + b == b;
    }
  }

  /* ---- What each pass removes ---- */

  /**
   * A fenced block goes, fences and all, when its body holds no run of
   * three backticks, not even one that ends in the closing fence.
   */
  lemma FencedBlockRemoved(x: string, b: string)
    requires forall j :: 0 <= j < |x| ==> !StartsAt(x + Fence, j, Fence)
    ensures StripFences(Fence + x + Fence + b) == StripFences(b)
  {
    var s := Fence + x + Fence + b;
    var k := 3 + |x|;
    assert StartsAt(s, 0, Fence);
    assert StartsAt(s, k, Fence);
    forall j | 3 <= j < k ensures !StartsAt(s, j, Fence) {
      assert s[j..j + 3] == (x + Fence)[j - 3..j];
      assert !StartsAt(x + Fence, j - 3, Fence);
    }
    assert FindFrom(s, Fence, 3) == k;
    assert s[k + 3..] == b;
  }

  /** `d x d` becomes `x` when `x` is not empty and has no `d`. */
  lemma UnwrapPair(x: string, b: string, d: char)
    requires x != [] && d !in x
    ensures Unwrap([d] + x + [d] + b, d) == x + Unwrap(b, d)
  {
    var s := [d] + x + [d] + b;
    var k := 1 + |x|;
    forall j | 1 <= j < k ensures s[j] != d {
      assert s[j] == x[j - 1];
    }
    IndexOfFromIs(s, d, 1, k);
    assert s[1..k] == x && s[k + 1..] == b;
  }

  /** `dd x dd` becomes `x` when `x` is not empty and has no `d`. */
  lemma Unwrap2Pair(x: string, b: string, d: char)
    requires x != [] && d !in x
    ensures Unwrap2([d, d] + x + [d, d] + b, d) == x + Unwrap2(b, d)
  {
    var s := [d, d] + x + [d, d] + b;
    var k := 2 + |x|;
    forall j | 2 <= j < k ensures s[j] != d {
      assert s[j] == x[j - 2];
    }
    IndexOfFromIs(s, d, 2, k);
    assert s[k + 1] == d;
    assert s[2..k] == x && s[k + 2..] == b;
  }

  /** `[t](u)` becomes `t` when `t` has no `]`, `u` has no `)`, and neither is empty. */
  lemma LinkReplaced(t: string, u: string, b: string)
    requires t != [] && ']' !in t && u != [] && ')' !in u
    ensures ReplaceLinks("[" + t + "](" + u + ")" + b) == t + ReplaceLinks(b)
  {
    var s := "[" + t + "](" + u + ")" + b;
    var k := 1 + |t|;
    var m := k + 2 + |u|;
    forall j | 1 <= j < k ensures s[j] != ']' {
      assert s[j] == t[j - 1];
    }
    IndexOfFromIs(s, ']', 1, k);
    forall j | k + 2 <= j < m ensures s[j] != ')' {
      assert s[j] == u[j - k - 2];
    }
    IndexOfFromIs(s, ')', k + 2, m);
    assert s[k + 1] == '(' && s[m] == ')';
    assert LinkEnd(s) == m;
    assert s[1..k] == t && s[m + 1..] == b;
  }

  /** A tag `<x>` goes when `x` has no `>`. */
  lemma TagRemoved(x: string, b: string)
    requires '>' !in x
    ensures StripTags("<" + x + ">" + b) == StripTags(b)
  {
    var s := "<" + x + ">" + b;
    var k := 1 + |x|;
    forall j | 1 <= j < k ensures s[j] != '>' {
      assert s[j] == x[j - 1];
    }
    IndexOfFromIs(s, '>', 1, k);
    assert s[k + 1..] == b;
  }

  /** A `<` with no `>` after it takes the rest of the text with it. */
  lemma UnclosedTagDropsRest(x: string)
    requires '>' !in x
    ensures StripTags("<" + x) == []
  {
    var s := "<" + x;
    forall j | 1 <= j < |s| ensures s[j] != '>' {
      assert s[j] == x[j - 1];
    }
    IndexOfFromIs(s, '>', 1, |s|);
  }

  /* ---- Whole previews ---- */

  /** Text with no markup character, trimmed and single-spaced. */
  predicate PlainText(s: string) {
    && '`' !in s && '*' !in s && '_' !in s && '[' !in s && '<' !in s
    && IsTrimmed(s) && SingleSpaced(s, ' ')
  }

  /** The passes after the bold markers leave plain text as it is. */
  lemma LatePassesKeepPlain(s: string)
    requires PlainText(s)
    ensures Trim(ReplaceWhitespaceRuns(StripTags(ReplaceLinks(Unwrap(Unwrap(s, '*'), '_'))), ' ')) == s
  {
    assert s + [] == s;
    UnwrapPrefix(s, [], '*');
    UnwrapPrefix(s, [], '_');
    ReplaceLinksPrefix(s, []);
    StripTagsPrefix(s, []);
    ReplaceWhitespaceRunsSingleSpaced(s);
    TrimOfTrimmed(s);
  }

  /** A preview is its own preview: plain, trimmed, single-spaced text comes back unchanged. */
  lemma FormatContentOfPlainText(s: string)
    requires PlainText(s)
    ensures FormatContent(s) == s
  {
    assert s + [] == s;
    StripFencesPrefix(s, []);
    UnwrapPrefix(s, [], '`');
    Unwrap2Prefix(s, [], '*');
    Unwrap2Prefix(s, [], '_');
    LatePassesKeepPlain(s);
  }

  /** The preview of bold plain text is the text. */
  lemma FormatContentOfBold(x: string)
    requires x != [] && PlainText(x)
    ensures FormatContent("**" + x + "**") == x
  {
    var s := "**" + x + "**";
    assert s == ['*', '*'] + x + ['*', '*'] + [];
    assert '`' !in s;
    assert s + [] == s && x + [] == x;
    StripFencesPrefix(s, []);
    UnwrapPrefix(s, [], '`');
    Unwrap2Pair(x, [], '*');
    Unwrap2Prefix(x, [], '_');
    LatePassesKeepPlain(x);
  }
}
