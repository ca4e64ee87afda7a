/** A value that may be absent (`null` in the indexing script). */
module Wrappers {
  datatype Option<+T> = None | Some(value: T)
}

/**
 * The JavaScript string primitives the indexing script and the preview
 * formatter rely on: the `\s`, `\w` and line-terminator character classes,
 * `trim`, `indexOf`/`lastIndexOf`, ASCII case mapping, decimal rendering of a
 * number in a template literal, and the `replace(/\s+/g, ...)` rewrite that
 * both `slugify` and `formatContent` use.
 *
 * The model covers strings whose characters all lie in the Basic
 * Multilingual Plane. There one `char` is one UTF-16 code unit of a
 * JavaScript string, so `|s|` is `s.length`.
 */
module Text {

  /** `\s` in a JavaScript regular expression; also exactly the set `trim` removes. */
  predicate IsWhitespace(c: char) {
    c == '\t' || c == '\n' || c == '\U{0B}' || c == '\U{0C}' || c == '\r' || c == ' '
    || c == '\U{A0}' || c == '\U{1680}' || ('\U{2000}' <= c <= '\U{200A}')
    || c == '\U{2028}' || c == '\U{2029}' || c == '\U{202F}' || c == '\U{205F}'
    || c == '\U{3000}' || c == '\U{FEFF}'
  }

  /** The characters `.` does not match and after which a multiline `^` matches. */
  predicate IsLineTerminator(c: char) {
    c == '\n' || c == '\r' || c == '\U{2028}' || c == '\U{2029}'
  }

  lemma LineTerminatorIsWhitespace(c: char)
    requires IsLineTerminator(c)
    ensures IsWhitespace(c)
  {
  }

  /** `\w`: ASCII letters, digits and the underscore. */
  predicate IsWordChar(c: char) {
    'a' <= c <= 'z' || 'A' <= c <= 'Z' || '0' <= c <= '9' || c == '_'
  }

  predicate IsUpperAscii(c: char) { 'A' <= c <= 'Z' }

  predicate IsLowerAscii(c: char) { 'a' <= c <= 'z' }

  function ToLower(c: char): (d: char)
    ensures !IsUpperAscii(d)
    ensures !IsUpperAscii(c) ==> d == c
  {
    if IsUpperAscii(c) then (c as int - 'A' as int + 'a' as int) as char else c
  }

  function ToUpper(c: char): (d: char)
    ensures !IsLowerAscii(d)
    ensures !IsLowerAscii(c) ==> d == c
  {
    if IsLowerAscii(c) then (c as int - 'a' as int + 'A' as int) as char else c
  }

  /** `toLowerCase`, on the ASCII letters. */
  function LowerAll(s: string): (r: string)
    ensures |r| == |s|
    ensures forall i :: 0 <= i < |s| ==> r[i] == ToLower(s[i])
  {
    seq(|s|, i requires 0 <= i < |s| => ToLower(s[i]))
  }

  predicate NoWhitespace(s: string) {
    forall i :: 0 <= i < |s| ==> !IsWhitespace(s[i])
  }

  /** No leading and no trailing whitespace. */
  predicate IsTrimmed(s: string) {
    s == [] || (!IsWhitespace(s[0]) && !IsWhitespace(s[|s| - 1]))
  }

  /** `trimStart`: the suffix left after the leading whitespace. */
  function TrimStart(s: string): (r: string)
    ensures |r| <= |s| && r == s[|s| - |r|..]
    ensures r == [] || !IsWhitespace(r[0])
    ensures forall i :: 0 <= i < |s| - |r| ==> IsWhitespace(s[i])
  {
    if s != [] && IsWhitespace(s[0]) then TrimStart(s[1..]) else s
  }

  /** `trimEnd`: the prefix left before the trailing whitespace. */
  function TrimEnd(s: string): (r: string)
    ensures |r| <= |s| && r == s[..|r|]
    ensures r == [] || !IsWhitespace(r[|r| - 1])
    ensures forall i :: |r| <= i < |s| ==> IsWhitespace(s[i])
  {
    if s != [] && IsWhitespace(s[|s| - 1]) then TrimEnd(s[..|s| - 1]) else s
  }

  /**
   * `trim`: drops the leading whitespace and the trailing whitespace.
   * `TrimSlice` shows the result is the slice of `s` between the two.
   */
  function Trim(s: string): (r: string)
    ensures IsTrimmed(r)
    ensures |r| <= |s|
    decreases |s|
  {
    if s == [] then []
    else if IsWhitespace(s[0]) then Trim(s[1..])
    else if IsWhitespace(s[|s| - 1]) then Trim(s[..|s| - 1])
    else s
  }

  /** The number of leading whitespace characters: where `Trim(s)` starts inside `s`. */
  function TrimOffset(s: string): (n: nat)
    ensures n <= |s|
    decreases |s|
  {
    if s != [] && IsWhitespace(s[0]) then 1 + TrimOffset(s[1..]) else 0
  }

  /**
   * `Trim(s)` is the slice of `s` after its leading whitespace and before its
   * trailing whitespace, and everything it removes is whitespace.
   */
  lemma {:induction false} TrimSlice(s: string)
    ensures TrimOffset(s) + |Trim(s)| <= |s|
    ensures Trim(s) == s[TrimOffset(s)..TrimOffset(s) + |Trim(s)|]
    ensures forall i :: 0 <= i < TrimOffset(s) ==> IsWhitespace(s[i])
    ensures forall i :: TrimOffset(s) + |Trim(s)| <= i < |s| ==> IsWhitespace(s[i])
    decreases |s|
  {
    if s == [] {
    } else if IsWhitespace(s[0]) {
      var t := s[1..];
      TrimSlice(t);
      assert Trim(s) == Trim(t) && TrimOffset(s) == TrimOffset(t) + 1;
      assert t[TrimOffset(t)..TrimOffset(t) + |Trim(t)|] == s[TrimOffset(s)..TrimOffset(s) + |Trim(s)|];
      assert forall i :: 0 < i < |s| ==> s[i] == t[i - 1];
    } else if IsWhitespace(s[|s| - 1]) {
      var t := s[..|s| - 1];
      assert t[0] == s[0];
      TrimSlice(t);
      assert Trim(s) == Trim(t) && TrimOffset(s) == 0 && TrimOffset(t) == 0;
      assert t[..|Trim(t)|] == s[..|Trim(s)|];
      assert forall i :: 0 <= i < |t| ==> s[i] == t[i];
    } else {
      assert TrimOffset(s) == 0;
    }
  }

  /** Trimming keeps every character that is not whitespace. */
  lemma TrimKeeps(s: string, p: nat)
    requires p < |s| && !IsWhitespace(s[p])
    ensures s[p] in Trim(s)
  {
    TrimSlice(s);
    assert Trim(s)[p - TrimOffset(s)] == s[p];
  }

  /** Every character `trim` keeps comes from its input. */
  lemma TrimChars(s: string)
    ensures forall c :: c in Trim(s) ==> c in s
  {
    TrimSlice(s);
    forall c | c in Trim(s) ensures c in s {
      var k :| 0 <= k < |Trim(s)| && Trim(s)[k] == c;
      assert s[TrimOffset(s) + k] == c;
    }
  }

  lemma TrimOfTrimmed(s: string)
    requires IsTrimmed(s)
    ensures Trim(s) == s
  {
  }

  /** A string that is empty or all whitespace trims to the empty string, and only such a string. */
  lemma {:induction false} TrimEmptyIffBlank(s: string)
    ensures Trim(s) == [] <==> forall i :: 0 <= i < |s| ==> IsWhitespace(s[i])
  {
    TrimSlice(s);
    if Trim(s) != [] {
      assert s[TrimOffset(s)] == Trim(s)[0];
    }
  }

  /** Trailing whitespace after a trimmed, non-empty text is all that `trim` removes. */
  lemma {:induction false} TrimTrailing(x: string, w: string)
    requires x != [] && IsTrimmed(x)
    requires forall i :: 0 <= i < |w| ==> IsWhitespace(w[i])
    ensures Trim(x + w) == x
    decreases |w|
  {
    if w == [] {
      assert x + w == x;
      TrimOfTrimmed(x);
    } else {
      var s := x + w;
      assert s[0] == x[0] && s[|s| - 1] == w[|w| - 1];
      assert s[..|s| - 1] == x + w[..|w| - 1];
      TrimTrailing(x, w[..|w| - 1]);
    }
  }

  /** `s.indexOf(c, from)`, with "not found" as `|s|`. */
  function IndexOfFrom(s: string, c: char, from: nat): (k: nat)
    requires from <= |s|
    ensures from <= k <= |s|
    ensures k < |s| ==> s[k] == c
    ensures forall j :: from <= j < k ==> s[j] != c
    decreases |s| - from
  {
    if from == |s| || s[from] == c then from else IndexOfFrom(s, c, from + 1)
  }

  /** The first `c` from `from` on is at `k`. */
  lemma IndexOfFromIs(s: string, c: char, from: nat, k: nat)
    requires from <= k <= |s| && (k < |s| ==> s[k] == c)
    requires forall j :: from <= j < k ==> s[j] != c
    ensures IndexOfFrom(s, c, from) == k
  {
  }

  /**
   * `s.lastIndexOf(c, from)`: the last position at or before `from` that holds
   * `c`, or -1.
   */
  function LastIndexOf(s: string, c: char, from: nat): (k: int)
    ensures -1 <= k < |s| && k <= from
    ensures k >= 0 ==> s[k] == c
    ensures forall j :: k < j <= from && j < |s| ==> s[j] != c
    decreases from
  {
    if from >= |s| then
      (if |s| == 0 then -1 else LastIndexOf(s, c, |s| - 1))
    else if s[from] == c then from
    else if from == 0 then -1
    else LastIndexOf(s, c, from - 1)
  }

  /**
   * `s.slice(a, b)` for non-negative `a` and `b`: both are clamped to the
   * length, and the result is empty unless `a` is below `b`.
   */
  function Slice(s: string, a: nat, b: nat): (r: string)
    ensures |r| <= |s|
    ensures a <= b <= |s| ==> r == s[a..b]
  {
    var e := if b < |s| then b else |s|;
    if a < e then s[a..e] else []
  }

  /** A slice of `s[p..]` is the same slice of `s`, moved by `p`. */
  lemma DropSlice<T>(s: seq<T>, p: nat, x: nat, y: nat)
    requires p <= |s| && x <= y <= |s| - p
    ensures s[p + x..p + y] == s[p..][x..y]
  {
    forall i | 0 <= i < y - x
      ensures s[p + x..p + y][i] == s[p..][x..y][i]
    {
      assert s[p..][x..y][i] == s[p..][x + i] == s[p + x + i];
    }
  }

  lemma ConcatAssoc<T>(a: seq<T>, b: seq<T>, c: seq<T>)
    ensures a + b + c == a + (b + c)
  {
  }

  /** `p` occurs in `s` at position `k`. */
  predicate StartsAt(s: string, k: nat, p: string) {
    k + |p| <= |s| && s[k..k + |p|] == p
  }

  /** `s.indexOf(p, from)` for a non-empty `p`, with "not found" as `|s|`. */
  function FindFrom(s: string, p: string, from: nat): (k: nat)
    requires p != [] && from <= |s|
    ensures from <= k <= |s|
    ensures k < |s| ==> StartsAt(s, k, p)
    ensures forall j :: from <= j < k ==> !StartsAt(s, j, p)
    decreases |s| - from
  {
    if from == |s| || StartsAt(s, from, p) then from else FindFrom(s, p, from + 1)
  }

  /** The first line terminator at or after `from`, or `|s|`: where `.` stops matching. */
  function LineEnd(s: string, from: nat): (k: nat)
    requires from <= |s|
    ensures from <= k <= |s|
    ensures k < |s| ==> IsLineTerminator(s[k])
    ensures forall j :: from <= j < k ==> !IsLineTerminator(s[j])
    decreases |s| - from
  {
    if from == |s| || IsLineTerminator(s[from]) then from else LineEnd(s, from + 1)
  }

  /** The first character at or after `from` that is not whitespace, or `|s|`: where a greedy `\s*` stops. */
  function WhitespaceEnd(s: string, from: nat): (k: nat)
    requires from <= |s|
    ensures from <= k <= |s|
    ensures k < |s| ==> !IsWhitespace(s[k])
    ensures forall j :: from <= j < k ==> IsWhitespace(s[j])
    decreases |s| - from
  {
    if from == |s| || !IsWhitespace(s[from]) then from else WhitespaceEnd(s, from + 1)
  }

  /** `FindFrom` stops at or before any occurrence from `from` on. */
  lemma FindFromFinds(s: string, p: string, from: nat, k: nat)
    requires p != [] && from <= k && StartsAt(s, k, p)
    ensures FindFrom(s, p, from) <= k < |s|
  {
  }

  /** `LineEnd` finds the first line terminator. */
  lemma LineEndIs(s: string, from: nat, k: nat)
    requires from <= k < |s| && IsLineTerminator(s[k])
    requires forall j :: from <= j < k ==> !IsLineTerminator(s[j])
    ensures LineEnd(s, from) == k
  {
  }

  /** The decimal digit for `d`; the digit's distance from `'0'` gives `d` back. */
  function DigitChar(d: nat): (c: char)
    requires d < 10
    ensures '0' <= c <= '9'
    ensures c as int - '0' as int == d
  {
    ('0' as int + d) as char
  }

  /** A natural number as a template literal prints it. */
  function NatToString(n: nat): (s: string)
    ensures |s| >= 1
    ensures n >= 10 ==> |s| >= 2
    ensures forall i :: 0 <= i < |s| ==> '0' <= s[i] <= '9'
    decreases n
  {
    if n < 10 then [DigitChar(n)] else NatToString(n / 10) + [DigitChar(n % 10)]
  }

  /** Different numbers print differently. */
  lemma {:induction false} NatToStringInjective(a: nat, b: nat)
    requires NatToString(a) == NatToString(b)
    ensures a == b
    decreases a
  {
    var s := NatToString(a);
    if a >= 10 && b >= 10 {
      var pa, pb := NatToString(a / 10), NatToString(b / 10);
      assert s == pa + [DigitChar(a % 10)] && s == pb + [DigitChar(b % 10)];
      assert pa == s[..|s| - 1] == pb;
      NatToStringInjective(a / 10, b / 10);
      assert a % 10 == b % 10 by {
        assert DigitChar(a % 10) == s[|s| - 1] == DigitChar(b % 10);
      }
    } else if a < 10 && b < 10 {
      assert DigitChar(a) == s[0] == DigitChar(b);
    }
  }

  /** Drop every occurrence of `c` (`s.replace(/c/g, '')`). */
  function RemoveChar(s: string, c: char): (r: string)
    ensures c !in r
    ensures forall d :: d in r ==> d in s
    ensures c !in s ==> r == s
    ensures multiset(r) == multiset(s)[c := 0]
  {
    if s == [] then []
    else
      assert s == [s[0]] + s[1..];
      if s[0] == c then RemoveChar(s[1..], c)
      else [s[0]] + RemoveChar(s[1..], c)
  }

  /**
   * `s.replace(/\s+/g, rep)`: every maximal run of whitespace becomes one
   * `rep` and nothing else changes.
   */
  function ReplaceWhitespaceRuns(s: string, rep: char): string
    decreases |s|
  {
    if s == [] then []
    else if IsWhitespace(s[0]) then [rep] + ReplaceWhitespaceRuns(TrimStart(s), rep)
    else [s[0]] + ReplaceWhitespaceRuns(s[1..], rep)
  }

  /** Every whitespace character is `rep`, and no two whitespace characters are adjacent. */
  predicate SingleSpaced(r: string, rep: char) {
    && (forall i :: 0 <= i < |r| && IsWhitespace(r[i]) ==> r[i] == rep)
    && (forall i :: 0 <= i < |r| - 1 && IsWhitespace(r[i]) ==> !IsWhitespace(r[i + 1]))
  }

  /** After the rewrite every whitespace run is a single `rep`. */
  lemma {:induction false} ReplaceWhitespaceRunsSpacing(s: string, rep: char)
    ensures SingleSpaced(ReplaceWhitespaceRuns(s, rep), rep)
    decreases |s|
  {
    if s != [] {
      var r := ReplaceWhitespaceRuns(s, rep);
      var t := if IsWhitespace(s[0]) then TrimStart(s) else s[1..];
      var rt := ReplaceWhitespaceRuns(t, rep);
      ReplaceWhitespaceRunsSpacing(t, rep);
      if t != [] && IsWhitespace(s[0]) {
        assert rt[0] == t[0];
      }
      assert r == [if IsWhitespace(s[0]) then rep else s[0]] + rt;
      forall i | 0 <= i < |r| && IsWhitespace(r[i]) ensures r[i] == rep {
        if i > 0 { assert r[i] == rt[i - 1]; }
      }
      forall i | 0 <= i < |r| - 1 && IsWhitespace(r[i]) ensures !IsWhitespace(r[i + 1]) {
        assert r[i + 1] == rt[i];
        if i > 0 {
          assert r[i] == rt[i - 1];
        } else if IsWhitespace(s[0]) {
          assert !IsWhitespace(t[0]);
        }
      }
    }
  }

  /** Every character the rewrite leaves, other than `rep`, comes from the input. */
  lemma {:induction false} ReplaceWhitespaceRunsChars(s: string, rep: char)
    ensures forall d :: d in ReplaceWhitespaceRuns(s, rep) && d != rep ==> d in s
    decreases |s|
  {
    if s != [] {
      var r := ReplaceWhitespaceRuns(s, rep);
      var t := if IsWhitespace(s[0]) then TrimStart(s) else s[1..];
      ReplaceWhitespaceRunsChars(t, rep);
      assert r == [if IsWhitespace(s[0]) then rep else s[0]] + ReplaceWhitespaceRuns(t, rep);
      assert forall d :: d in t ==> d in s by {
        assert t == s[|s| - |t|..];
      }
    }
  }

  /** The non-whitespace characters of `s`, in order. */
  function Visible(s: string): string {
    if s == [] then []
    else if IsWhitespace(s[0]) then Visible(s[1..])
    else [s[0]] + Visible(s[1..])
  }

  lemma {:induction false} VisibleOfBlank(s: string)
    requires forall i :: 0 <= i < |s| ==> IsWhitespace(s[i])
    ensures Visible(s) == []
  {
    if s != [] {
      VisibleOfBlank(s[1..]);
    }
  }

  lemma {:induction false} VisibleOfTrimStart(s: string)
    ensures Visible(TrimStart(s)) == Visible(s)
  {
    if s != [] && IsWhitespace(s[0]) {
      VisibleOfTrimStart(s[1..]);
    }
  }

  /**
   * Collapsing whitespace runs into a whitespace character keeps every
   * visible character, in order.
   */
  lemma {:induction false} ReplaceWhitespaceRunsKeepsVisible(s: string, rep: char)
    requires IsWhitespace(rep)
    ensures Visible(ReplaceWhitespaceRuns(s, rep)) == Visible(s)
    decreases |s|
  {
    if s == [] {
    } else if IsWhitespace(s[0]) {
      var t := TrimStart(s);
      ReplaceWhitespaceRunsKeepsVisible(t, rep);
      VisibleOfTrimStart(s);
      assert ([rep] + ReplaceWhitespaceRuns(t, rep))[1..] == ReplaceWhitespaceRuns(t, rep);
    } else {
      ReplaceWhitespaceRunsKeepsVisible(s[1..], rep);
      assert ([s[0]] + ReplaceWhitespaceRuns(s[1..], rep))[1..] == ReplaceWhitespaceRuns(s[1..], rep);
    }
  }

  /** Text without whitespace is left as it is. */
  lemma {:induction false} ReplaceWhitespaceRunsNoWhitespace(s: string, rep: char)
    requires NoWhitespace(s)
    ensures ReplaceWhitespaceRuns(s, rep) == s
  {
    if s != [] {
      ReplaceWhitespaceRunsNoWhitespace(s[1..], rep);
    }
  }

  /** Text that is already single-spaced with plain spaces is left as it is. */
  lemma {:induction false} ReplaceWhitespaceRunsSingleSpaced(s: string)
    requires forall i :: 0 <= i < |s| && IsWhitespace(s[i]) ==> s[i] == ' '
    requires forall i :: 0 <= i < |s| - 1 && IsWhitespace(s[i]) ==> !IsWhitespace(s[i + 1])
    ensures ReplaceWhitespaceRuns(s, ' ') == s
  {
    if s != [] {
      if IsWhitespace(s[0]) {
        assert TrimStart(s) == s[1..] by {
          if |s| > 1 { assert !IsWhitespace(s[1]); }
        }
      }
      ReplaceWhitespaceRunsSingleSpaced(s[1..]);
    }
  }

  /** A character that is not whitespace is copied, and the rest is rewritten. */
  lemma ReplaceWhitespaceRunsCons(c: char, t: string, rep: char)
    requires !IsWhitespace(c)
    ensures ReplaceWhitespaceRuns([c] + t, rep) == [c] + ReplaceWhitespaceRuns(t, rep)
  {
    var ct := [c] + t;
    assert ct[0] == c && ct[1..] == t;
  }

  /** A whitespace-free prefix passes through the whitespace rewrite unchanged. */
  lemma {:induction false} ReplaceWhitespaceRunsPrefix(a: string, b: string, rep: char)
    requires NoWhitespace(a)
    ensures ReplaceWhitespaceRuns(a + b, rep) == a + ReplaceWhitespaceRuns(b, rep)
  {
    if a != [] {
      assert a + b == [a[0]] + (a[1..] + b) by {
        ConcatAssoc([a[0]], a[1..], b);
        assert [a[0]] + a[1..] == a;
      }
      ReplaceWhitespaceRunsCons(a[0], a[1..] + b, rep);
      ReplaceWhitespaceRunsPrefix(a[1..], b, rep);
      ConcatAssoc([a[0]], a[1..], ReplaceWhitespaceRuns(b, rep));
      assert [a[0]] + a[1..] == a;
    } else {
      assert a + b == b;
    }
  }

}
