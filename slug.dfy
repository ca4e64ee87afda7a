/**
 * `slugify` from the indexing script: turns a section heading into the URL
 * fragment that follows `#` in a record id.
 *
 * The source lower-cases, applies Unicode NFD normalisation, trims, deletes
 * periods, turns each whitespace run into `-`, deletes everything that is not
 * a word character or `-`, and collapses runs of hyphens.
 */
module Slug {
  import opened Text

  /** The characters a slug is made of. */
  predicate IsSlugChar(c: char) {
    IsLowerAscii(c) || '0' <= c <= '9' || c == '_' || c == '-'
  }

  /** No two adjacent hyphens. */
  predicate NoDoubleHyphen(s: string) {
    forall i :: 0 <= i < |s| - 1 ==> !(s[i] == '-' && s[i + 1] == '-')
  }

  /** `replace(/[^\w-]+/g, '')`: keeps the word characters and hyphens, in order. */
  function KeepWordCharsAndHyphens(s: string): (r: string)
    ensures forall c :: c in r ==> c in s && (IsWordChar(c) || c == '-')
    ensures forall c :: IsWordChar(c) || c == '-' ==> multiset(r)[c] == multiset(s)[c]
  {
    if s == [] then []
    else
      assert s == [s[0]] + s[1..];
      if IsWordChar(s[0]) || s[0] == '-' then [s[0]] + KeepWordCharsAndHyphens(s[1..])
      else KeepWordCharsAndHyphens(s[1..])
  }

  /** What is left of `s` after its leading hyphens. */
  function DropHyphens(s: string): (r: string)
    ensures |r| <= |s| && r == s[|s| - |r|..]
    ensures r == [] || r[0] != '-'
  {
    if s != [] && s[0] == '-' then DropHyphens(s[1..]) else s
  }

  /**
   * `replace(/--+/g, '-')`: every run of two or more hyphens becomes one.
   * `CollapseHyphensKeeps` shows everything other than hyphens is kept, in
   * order.
   */
  function CollapseHyphens(s: string): (r: string)
    ensures NoDoubleHyphen(r)
    ensures s != [] && s[0] != '-' ==> r != [] && r[0] == s[0]
    ensures forall c :: c in r ==> c in s
    ensures '-' in r <==> '-' in s
    decreases |s|
  {
    if s == [] then []
    else if |s| >= 2 && s[0] == '-' && s[1] == '-' then ['-'] + CollapseHyphens(DropHyphens(s))
    else [s[0]] + CollapseHyphens(s[1..])
  }

  lemma {:induction false} DropHyphensKeeps(s: string)
    ensures RemoveChar(DropHyphens(s), '-') == RemoveChar(s, '-')
  {
    if s != [] && s[0] == '-' {
      DropHyphensKeeps(s[1..]);
    }
  }

  /** Collapsing hyphen runs keeps every other character, in order. */
  lemma {:induction false} CollapseHyphensKeeps(s: string)
    ensures RemoveChar(CollapseHyphens(s), '-') == RemoveChar(s, '-')
    decreases |s|
  {
    if s == [] {
    } else if |s| >= 2 && s[0] == '-' && s[1] == '-' {
      var rest := CollapseHyphens(DropHyphens(s));
      CollapseHyphensKeeps(DropHyphens(s));
      DropHyphensKeeps(s);
      assert (['-'] + rest)[1..] == rest;
    } else {
      var rest := CollapseHyphens(s[1..]);
      CollapseHyphensKeeps(s[1..]);
      assert ([s[0]] + rest)[1..] == rest;
    }
  }

  /** `slugify(text)`. */
  function Slugify(text: string): string {
    CollapseHyphens(KeepWordCharsAndHyphens(ReplaceWhitespaceRuns(RemoveChar(Trim(LowerAll(text)), '.'), '-')))
  }

  /**
   * A slug is made only of lower-case ASCII letters, digits, `_` and `-`, and
   * no two of its hyphens are adjacent.
   */
  lemma SlugifyShape(text: string)
    ensures forall i :: 0 <= i < |Slugify(text)| ==> IsSlugChar(Slugify(text)[i])
    ensures NoDoubleHyphen(Slugify(text))
  {
    var lowered := LowerAll(text);
    var trimmed := Trim(lowered);
    TrimChars(lowered);
    var spaced := ReplaceWhitespaceRuns(RemoveChar(trimmed, '.'), '-');
    ReplaceWhitespaceRunsChars(RemoveChar(trimmed, '.'), '-');
    var kept := KeepWordCharsAndHyphens(spaced);
    assert forall c :: c in kept ==> !IsUpperAscii(c) by {
      forall c | c in kept ensures !IsUpperAscii(c) {
        if c != '-' {
          assert c in trimmed;
          var k :| 0 <= k < |lowered| && lowered[k] == c;
        }
      }
    }
    var slug := Slugify(text);
    forall i | 0 <= i < |slug| ensures IsSlugChar(slug[i]) {
      assert slug[i] in kept;
    }
  }

  lemma {:induction false} KeepWordCharsAndHyphensOfSlug(s: string)
    requires forall i :: 0 <= i < |s| ==> IsSlugChar(s[i])
    ensures KeepWordCharsAndHyphens(s) == s
  {
    if s != [] {
      KeepWordCharsAndHyphensOfSlug(s[1..]);
    }
  }

  lemma {:induction false} CollapseHyphensNoDouble(s: string)
    requires NoDoubleHyphen(s)
    ensures CollapseHyphens(s) == s
  {
    if s != [] {
      CollapseHyphensNoDouble(s[1..]);
    }
  }

  /**
   * A slug is its own slug, so slugifying a heading twice gives the same
   * fragment as slugifying it once.
   */
  lemma SlugifyIdempotent(text: string)
    ensures Slugify(Slugify(text)) == Slugify(text)
  {
    var s := Slugify(text);
    SlugifyShape(text);
    assert LowerAll(s) == s;
    assert NoWhitespace(s) by {
      forall i | 0 <= i < |s| ensures !IsWhitespace(s[i]) {
        assert IsSlugChar(s[i]);
      }
    }
    TrimOfTrimmed(s);
    assert '.' !in s by {
      forall i | 0 <= i < |s| ensures s[i] != '.' {
        assert IsSlugChar(s[i]);
      }
    }
    ReplaceWhitespaceRunsNoWhitespace(s, '-');
    KeepWordCharsAndHyphensOfSlug(s);
    CollapseHyphensNoDouble(s);
  }
  /* ---- What a slug keeps ---- */

  lemma WhitespaceIsNotWordChar(c: char)
    requires IsWhitespace(c)
    ensures !IsWordChar(c)
  {
  }

  /** The word characters of `s`, in order. */
  function WordChars(s: string): (r: string)
    ensures forall i :: 0 <= i < |r| ==> IsWordChar(r[i])
  {
    if s == [] then []
    else if IsWordChar(s[0]) then [s[0]] + WordChars(s[1..])
    else WordChars(s[1..])
  }

  lemma {:induction false} WordCharsAppend(a: string, b: string)
    ensures WordChars(a + b) == WordChars(a) + WordChars(b)
  {
    if a == [] {
      assert a + b == b;
    } else {
      assert (a + b)[0] == a[0] && (a + b)[1..] == a[1..] + b;
      WordCharsAppend(a[1..], b);
      ConcatAssoc([a[0]], WordChars(a[1..]), WordChars(b));
    }
  }

  lemma {:induction false} WordCharsOfTrim(s: string)
    ensures WordChars(Trim(s)) == WordChars(s)
    decreases |s|
  {
    if s == [] {
    } else if IsWhitespace(s[0]) {
      WordCharsOfTrim(s[1..]);
      WhitespaceIsNotWordChar(s[0]);
      assert WordChars(s) == WordChars(s[1..]);
    } else if IsWhitespace(s[|s| - 1]) {
      var t := s[..|s| - 1];
      WordCharsOfTrim(t);
      assert s == t + [s[|s| - 1]];
      WordCharsAppend(t, [s[|s| - 1]]);
      WhitespaceIsNotWordChar(s[|s| - 1]);
      assert WordChars([s[|s| - 1]]) == [];
    }
  }

  lemma {:induction false} WordCharsOfRemoveChar(s: string, c: char)
    requires !IsWordChar(c)
    ensures WordChars(RemoveChar(s, c)) == WordChars(s)
  {
    if s != [] {
      WordCharsOfRemoveChar(s[1..], c);
      if s[0] != c {
        assert ([s[0]] + RemoveChar(s[1..], c))[1..] == RemoveChar(s[1..], c);
      }
    }
  }

  lemma {:induction false} WordCharsOfTrimStart(s: string)
    ensures WordChars(TrimStart(s)) == WordChars(s)
  {
    if s != [] && IsWhitespace(s[0]) {
      WordCharsOfTrimStart(s[1..]);
      WhitespaceIsNotWordChar(s[0]);
      assert WordChars(s) == WordChars(s[1..]);
    }
  }

  lemma {:induction false} WordCharsOfReplaceWhitespaceRuns(s: string, rep: char)
    requires !IsWordChar(rep)
    ensures WordChars(ReplaceWhitespaceRuns(s, rep)) == WordChars(s)
    decreases |s|
  {
    if s == [] {
    } else if IsWhitespace(s[0]) {
      var t := TrimStart(s);
      WordCharsOfReplaceWhitespaceRuns(t, rep);
      WordCharsOfTrimStart(s);
      WhitespaceIsNotWordChar(s[0]);
      assert ([rep] + ReplaceWhitespaceRuns(t, rep))[1..] == ReplaceWhitespaceRuns(t, rep);
    } else {
      WordCharsOfReplaceWhitespaceRuns(s[1..], rep);
      assert ([s[0]] + ReplaceWhitespaceRuns(s[1..], rep))[1..] == ReplaceWhitespaceRuns(s[1..], rep);
    }
  }

  lemma {:induction false} WordCharsOfKept(s: string)
    ensures WordChars(KeepWordCharsAndHyphens(s)) == WordChars(s)
  {
    if s != [] {
      WordCharsOfKept(s[1..]);
      if IsWordChar(s[0]) || s[0] == '-' {
        assert ([s[0]] + KeepWordCharsAndHyphens(s[1..]))[1..] == KeepWordCharsAndHyphens(s[1..]);
      }
    }
  }

  lemma {:induction false} WordCharsOfDropHyphens(s: string)
    ensures WordChars(DropHyphens(s)) == WordChars(s)
  {
    if s != [] && s[0] == '-' {
      WordCharsOfDropHyphens(s[1..]);
    }
  }

  lemma {:induction false} WordCharsOfCollapsed(s: string)
    ensures WordChars(CollapseHyphens(s)) == WordChars(s)
    decreases |s|
  {
    if s == [] {
    } else if |s| >= 2 && s[0] == '-' && s[1] == '-' {
      var rest := CollapseHyphens(DropHyphens(s));
      WordCharsOfCollapsed(DropHyphens(s));
      WordCharsOfDropHyphens(s);
      assert (['-'] + rest)[1..] == rest;
    } else {
      var rest := CollapseHyphens(s[1..]);
      WordCharsOfCollapsed(s[1..]);
      assert ([s[0]] + rest)[1..] == rest;
    }
  }

  /**
   * The slug keeps every letter, digit and underscore of the lower-cased
   * heading, in order: only whitespace, periods, hyphens and the other
   * characters are rewritten or dropped.
   */
  lemma SlugifyKeepsWordChars(text: string)
    ensures WordChars(Slugify(text)) == WordChars(LowerAll(text))
  {
    var lowered := LowerAll(text);
    var trimmed := Trim(lowered);
    var dotless := RemoveChar(trimmed, '.');
    var spaced := ReplaceWhitespaceRuns(dotless, '-');
    var kept := KeepWordCharsAndHyphens(spaced);
    WordCharsOfTrim(lowered);
    WordCharsOfRemoveChar(trimmed, '.');
    WordCharsOfReplaceWhitespaceRuns(dotless, '-');
    WordCharsOfKept(spaced);
    WordCharsOfCollapsed(kept);
  }
}
