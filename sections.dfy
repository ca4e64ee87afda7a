/**
 * `splitMdxByHeadings` from the indexing script: a page is cut before every
 * line that opens with one to six `#` and a whitespace character; each piece
 * is trimmed, its first line must be a heading `#… title`, and the rest,
 * trimmed, is the section's content. Pieces whose first line is not a
 * heading are dropped.
 */
module Sections {
  import opened Wrappers
  import opened Text

  /** One section of a page: the heading's level and text, and the text under it. */
  datatype Section = Section(level: nat, title: string, content: string)

  /** The level and the text of a heading line. */
  datatype Heading = Heading(level: nat, title: string)

  /* ---- Cutting the page ---- */

  /** The number of `#` characters from `q` on. */
  function HashRun(s: string, q: nat): (n: nat)
    requires q <= |s|
    ensures q + n <= |s|
    ensures forall i :: q <= i < q + n ==> s[i] == '#'
    ensures q + n == |s| || s[q + n] != '#'
    decreases |s| - q
  {
    if q < |s| && s[q] == '#' then 1 + HashRun(s, q + 1) else 0
  }

  /**
   * `#{1,6}\s` at `q`. A run of more than six `#` does not match: whatever
   * part of it the group takes, the next character is a `#`, not `\s`.
   */
  predicate HeadingAt(s: string, q: nat)
    requires q <= |s|
  {
    var n := HashRun(s, q);
    1 <= n <= 6 && q + n < |s| && IsWhitespace(s[q + n])
  }

  /** `^` under the `m` flag: the start of the text or of a line. */
  predicate LineStart(s: string, q: nat)
    requires q <= |s|
  {
    q == 0 || IsLineTerminator(s[q - 1])
  }

  /** Where the lookahead `(?=^#{1,6}\s)` succeeds. */
  predicate IsCut(s: string, q: nat)
    requires q <= |s|
  {
    LineStart(s, q) && HeadingAt(s, q)
  }

  /** The first cut at or after `from`, or `|s|`. */
  function NextCut(s: string, from: nat): (c: nat)
    requires from <= |s|
    ensures from <= c <= |s|
    decreases |s| - from
  {
    if from == |s| || IsCut(s, from) then from else NextCut(s, from + 1)
  }

  /** The cut `NextCut` finds is one, and there is none before it. */
  lemma {:induction false} NextCutIs(s: string, from: nat)
    requires from <= |s|
    ensures NextCut(s, from) < |s| ==> IsCut(s, NextCut(s, from))
    ensures forall j :: from <= j < NextCut(s, from) ==> !IsCut(s, j)
    decreases |s| - from
  {
    if !(from == |s| || IsCut(s, from)) {
      NextCutIs(s, from + 1);
    }
  }

  /**
   * `mdx.split(/(?=^#{1,6}\s)/m)`. The lookahead consumes nothing, so a
   * match where the current piece starts splits nothing: the search for the
   * end of a piece starts one character after its start. The empty text is
   * one empty piece.
   */
  function Segments(s: string): (r: seq<string>)
    ensures |r| >= 1
    decreases |s|
  {
    if |s| <= 1 then [s]
    else
      var c := NextCut(s, 1);
      if c == |s| then [s] else [s[..c]] + Segments(s[c..])
  }

  /** A position with no cut between `from` and it that is a cut or the end is the cut `NextCut` finds. */
  lemma {:induction false} NextCutFirst(s: string, from: nat, k: nat)
    requires from <= k <= |s| && (k == |s| || IsCut(s, k))
    requires forall j :: from <= j < k ==> !IsCut(s, j)
    ensures NextCut(s, from) == k
    decreases k - from
  {
    if from < k {
      NextCutFirst(s, from + 1, k);
    }
  }

  /** The pieces joined back together. */
  function Concat(pieces: seq<string>): string {
    if pieces == [] then [] else pieces[0] + Concat(pieces[1..])
  }

  /* ---- Reading one piece ---- */

  /** No line terminator from `j` to the end of `line`. */
  predicate NoTerminatorFrom(line: string, j: nat)
    requires j <= |line|
  {
    forall i :: j <= i < |line| ==> !IsLineTerminator(line[i])
  }

  /**
   * `\s+(.+)$` once the hashes end at `h`: the greedy `\s+` first ends at
   * `j` and gives back one character at a time, down to `h + 1`; `(.+)$`
   * needs a non-empty rest without line terminators.
   */
  function TitleFrom(line: string, h: nat, j: nat): (r: Option<string>)
    requires h < j <= |line|
    ensures r.Some? ==> var k := |line| - |r.value|;
      && h < k <= j && r.value != [] && r.value == line[k..] && NoTerminatorFrom(line, k)
    decreases j
  {
    if j < |line| && NoTerminatorFrom(line, j) then Some(line[j..])
    else if j == h + 1 then None
    else TitleFrom(line, h, j - 1)
  }

  /** `line.match(/^(#{1,6})\s+(.+)$/)`, as the level and the captured title. */
  function ParseHeadingLine(line: string): (r: Option<Heading>)
    ensures r.Some? ==> 1 <= r.value.level <= 6 && r.value.title != []
  {
    var h := HashRun(line, 0);
    if h < 1 || h > 6 then None
    else
      var w := WhitespaceEnd(line, h);
      if w == h then None
      else
        match TitleFrom(line, h, w)
        case None => None
        case Some(t) => Some(Heading(h, t))
  }

  /** `lines[0]` of `text.split('\n')`. */
  function FirstLine(text: string): (line: string)
    ensures |line| <= |text| && line == text[..|line|]
    ensures forall i :: 0 <= i < |line| ==> line[i] != '\n'
  {
    text[..IndexOfFrom(text, '\n', 0)]
  }

  /** `lines.slice(1).join('\n')`: everything after the first `\n`. */
  function AfterFirstLine(text: string): string {
    var nl := IndexOfFrom(text, '\n', 0);
    if nl < |text| then text[nl + 1..] else []
  }

  /** The section a piece gives, or `null` when its first line is not a heading. */
  function ParseSegment(segment: string): (r: Option<Section>)
    ensures r.Some? ==> 1 <= r.value.level <= 6 && r.value.title != [] && IsTrimmed(r.value.content)
  {
    var t := Trim(segment);
    match ParseHeadingLine(FirstLine(t))
    case None => None
    case Some(h) => Some(Section(h.level, h.title, Trim(AfterFirstLine(t))))
  }

  /** `sections.map(...)`: each piece read on its own. */
  function ParseSegments(segments: seq<string>): (r: seq<Option<Section>>)
    ensures |r| == |segments|
    ensures forall i :: 0 <= i < |r| ==> r[i] == ParseSegment(segments[i])
  {
    seq(|segments|, i requires 0 <= i < |segments| => ParseSegment(segments[i]))
  }

  /** `filter(Boolean)`: the values present, in order. */
  function Present<T>(options: seq<Option<T>>): (r: seq<T>)
    ensures |r| <= |options|
  {
    if options == [] then []
    else if options[0].Some? then [options[0].value] + Present(options[1..])
    else Present(options[1..])
  }

  /** Every index one further on. */
  function Shift(s: seq<nat>): (r: seq<nat>)
    ensures |r| == |s| && forall k :: 0 <= k < |s| ==> r[k] == s[k] + 1
  {
    seq(|s|, k requires 0 <= k < |s| => s[k] + 1)
  }
  /** Where the present values are: the positions `filter(Boolean)` keeps, in order. */
  function Origins<T>(options: seq<Option<T>>): (idx: seq<nat>)
    ensures forall k :: 0 <= k < |idx| ==> idx[k] < |options|
  {
    if options == [] then []
    else (if options[0].Some? then [0] else []) + Shift(Origins(options[1..]))
  }
  /** `splitMdxByHeadings(mdx)`. */
  function SplitMdxByHeadings(mdx: string): seq<Section> {
    Present(ParseSegments(Segments(mdx)))
  }

  /* ---- The heading pattern ---- */

  /**
   * The heading pattern read directly: `n` hashes, one to six of them, then
   * whitespace up to `j`, at least one character of it, then a non-empty
   * rest of the line without line terminators.
   */
  predicate IsHeadingLine(line: string, n: nat, j: nat) {
    && 1 <= n <= 6 && n < j < |line|
    && (forall i :: 0 <= i < n ==> line[i] == '#')
    && (forall i :: n <= i < j ==> IsWhitespace(line[i]))
    && NoTerminatorFrom(line, j)
  }

  /** A run of exactly `n` hashes from `q`. */
  lemma {:induction false} HashRunIs(s: string, q: nat, n: nat)
    requires q + n <= |s| && forall i :: q <= i < q + n ==> s[i] == '#'
    requires q + n == |s| || s[q + n] != '#'
    ensures HashRun(s, q) == n
    decreases n
  {
    if n > 0 {
      HashRunIs(s, q + 1, n - 1);
    }
  }

  /** The parser's answer is a reading of the line as a heading. */
  lemma ParseHeadingLineSound(line: string)
    requires ParseHeadingLine(line).Some?
    ensures var hd := ParseHeadingLine(line).value;
      && IsHeadingLine(line, hd.level, |line| - |hd.title|)
      && hd.title == line[|line| - |hd.title|..]
  {
    var h := HashRun(line, 0);
    var w := WhitespaceEnd(line, h);
    assert TitleFrom(line, h, w).Some?;
  }

  lemma {:induction false} TitleFromFinds(line: string, h: nat, j: nat, from: nat)
    requires h < j <= from <= |line| && j < |line| && NoTerminatorFrom(line, j)
    ensures TitleFrom(line, h, from).Some?
    ensures |TitleFrom(line, h, from).value| <= |line| - j
    decreases from
  {
    if !(from < |line| && NoTerminatorFrom(line, from)) {
      assert from != j;
      TitleFromFinds(line, h, j, from - 1);
    }
  }

  /**
   * Every line that reads as a heading is parsed as one, at the same level;
   * the parser's whitespace run is the longest, so its title is the
   * shortest reading.
   */
  lemma ParseHeadingLineComplete(line: string, n: nat, j: nat)
    requires IsHeadingLine(line, n, j)
    ensures ParseHeadingLine(line).Some?
    ensures ParseHeadingLine(line).value.level == n
    ensures |ParseHeadingLine(line).value.title| <= |line| - j
  {
    var h := HashRun(line, 0);
    HashRunIs(line, 0, n);
    var w := WhitespaceEnd(line, h);
    TitleFromFinds(line, h, j, w);
  }

  /* ---- The pieces ---- */

  lemma ConcatCons(head: string, rest: seq<string>)
    ensures Concat([head] + rest) == head + Concat(rest)
  {
    assert ([head] + rest)[1..] == rest;
  }

  /** Nothing of the page is lost or reordered by the split: the pieces join back to it. */
  lemma {:induction false} SegmentsConcat(s: string)
    ensures Concat(Segments(s)) == s
    decreases |s|
  {
    if |s| <= 1 || NextCut(s, 1) == |s| {
      assert Segments(s) == [s];
      assert Concat([s]) == s + Concat([]);
      assert s + [] == s;
    } else {
      var c := NextCut(s, 1);
      assert Segments(s) == [s[..c]] + Segments(s[c..]);
      SegmentsConcat(s[c..]);
      ConcatCons(s[..c], Segments(s[c..]));
      assert s[..c] + s[c..] == s;
    }
  }

  /** A heading that fits before `k` is still one in the first `k` characters. */
  lemma HashRunPrefix(s: string, q: nat, k: nat)
    requires q < k <= |s|
    ensures HashRun(s[..k], q) == (if q + HashRun(s, q) <= k then HashRun(s, q) else k - q)
    decreases k - q
  {
    if s[q] == '#' && q + 1 < k {
      HashRunPrefix(s, q + 1, k);
    }
  }

  /** Dropping the first `c` characters shifts every hash run by `c`. */
  lemma {:induction false} HashRunSuffix(s: string, c: nat, q: nat)
    requires c + q <= |s|
    ensures HashRun(s[c..], q) == HashRun(s, c + q)
    decreases |s| - q
  {
    if c + q < |s| && s[c + q] == '#' {
      HashRunSuffix(s, c, q + 1);
    }
  }

  /** A piece that starts at a heading marker keeps that marker whole. */
  lemma FirstSegmentHeading(t: string)
    requires |t| > 0 && HeadingAt(t, 0)
    ensures |Segments(t)[0]| > 0 && HeadingAt(Segments(t)[0], 0)
  {
    if |t| > 1 && NextCut(t, 1) < |t| {
      var c := NextCut(t, 1);
      NextCutIs(t, 1);
      var n := HashRun(t, 0);
      forall q | 1 <= q <= n ensures !IsCut(t, q) {
        assert t[q - 1] == '#';
      }
      HashRunPrefix(t, 0, c);
      assert Segments(t)[0] == t[..c];
    }
  }

  /**
   * The pieces are cut exactly at the headings: every piece but the first
   * opens with a heading marker, and no piece holds one at the start of a
   * later line.
   */
  lemma {:induction false} SegmentsCuts(s: string)
    ensures forall i :: 0 < i < |Segments(s)| ==> |Segments(s)[i]| > 0 && HeadingAt(Segments(s)[i], 0)
    ensures forall i, q :: 0 <= i < |Segments(s)| && 1 <= q < |Segments(s)[i]| ==> !IsCut(Segments(s)[i], q)
    decreases |s|
  {
    var segs := Segments(s);
    if |s| <= 1 {
    } else {
      var c := NextCut(s, 1);
      NextCutIs(s, 1);
      if c == |s| {
        forall q | 1 <= q < |s| ensures !IsCut(s, q) {
        }
      } else {
        var t := s[c..];
        var rest := Segments(t);
        SegmentsCuts(t);
        assert segs == [s[..c]] + rest;
        forall q | 1 <= q < c ensures !IsCut(s[..c], q) {
          HashRunPrefix(s, q, c);
          assert !IsCut(s, q);
        }
        assert HeadingAt(t, 0) by {
          assert IsCut(s, c);
          HashRunSuffix(s, c, 0);
        }
        assert HeadingAt(rest[0], 0) by {
          FirstSegmentHeading(t);
        }
      }
    }
  }

  /* ---- The sections ---- */

  /** `filter(Boolean)` keeps exactly the values at `Origins`, in their order. */
  lemma {:induction false} PresentAtOrigins<T>(options: seq<Option<T>>)
    ensures |Origins(options)| == |Present(options)|
    ensures forall k :: 0 <= k < |Origins(options)| ==> options[Origins(options)[k]] == Some(Present(options)[k])
  {
    if options != [] {
      var tail := options[1..];
      PresentAtOrigins(tail);
      var rest := Origins(tail);
      var idx := Origins(options);
      var r := Present(options);
      if options[0].Some? {
        assert idx == [0] + Shift(rest);
        assert r == [options[0].value] + Present(tail);
        forall k | 0 <= k < |idx| ensures options[idx[k]] == Some(r[k]) {
          if k > 0 {
            assert idx[k] == rest[k - 1] + 1;
            assert options[idx[k]] == tail[rest[k - 1]];
          }
        }
      } else {
        assert idx == Shift(rest);
        forall k | 0 <= k < |idx| ensures options[idx[k]] == Some(r[k]) {
          assert options[idx[k]] == tail[rest[k]];
        }
      }
    }
  }
  /** The kept positions increase: the order of the input is kept. */
  lemma {:induction false} OriginsIncrease<T>(options: seq<Option<T>>)
    ensures forall k, m :: 0 <= k < m < |Origins(options)| ==> Origins(options)[k] < Origins(options)[m]
  {
    if options != [] {
      OriginsIncrease(options[1..]);
    }
  }
  /** Every present value is kept: its position is one of the `Origins`. */
  lemma {:induction false} OriginOf<T>(options: seq<Option<T>>, i: nat) returns (k: nat)
    requires i < |options| && options[i].Some?
    ensures k < |Origins(options)| && Origins(options)[k] == i
  {
    var tail := options[1..];
    var d := if options[0].Some? then 1 else 0;
    var head: seq<nat> := if options[0].Some? then [0] else [];
    assert Origins(options) == head + Shift(Origins(tail));
    if i == 0 {
      k := 0;
    } else {
      assert tail[i - 1] == options[i];
      var k' := OriginOf(tail, i - 1);
      k := k' + d;
    }
  }

  /**
   * The sections are the pieces whose first line is a heading, in page
   * order: section `k` is what piece `Origins(..)[k]` gives, and those
   * pieces are in page order.
   */
  lemma SectionsInPageOrder(mdx: string)
    ensures var parsed := ParseSegments(Segments(mdx)); var idx := Origins(parsed);
      && |idx| == |SplitMdxByHeadings(mdx)|
      && (forall k :: 0 <= k < |idx| ==>
            idx[k] < |Segments(mdx)| && ParseSegment(Segments(mdx)[idx[k]]) == Some(SplitMdxByHeadings(mdx)[k]))
      && (forall k, m :: 0 <= k < m < |idx| ==> idx[k] < idx[m])
  {
    PresentAtOrigins(ParseSegments(Segments(mdx)));
    OriginsIncrease(ParseSegments(Segments(mdx)));
  }

  /** No piece whose first line is a heading is dropped: piece `i` is section `k`. */
  lemma HeadingPieceKept(mdx: string, i: nat) returns (k: nat)
    requires i < |Segments(mdx)| && ParseSegment(Segments(mdx)[i]).Some?
    ensures k < |SplitMdxByHeadings(mdx)| && SplitMdxByHeadings(mdx)[k] == ParseSegment(Segments(mdx)[i]).value
  {
    var parsed := ParseSegments(Segments(mdx));
    k := OriginOf(parsed, i);
    PresentAtOrigins(parsed);
  }

  /** A first line that ends in a line terminator is never a heading: `(.+)$` cannot take it. */
  lemma LineEndingInTerminator(line: string)
    requires |line| > 0 && IsLineTerminator(line[|line| - 1])
    ensures ParseHeadingLine(line) == None
  {
    if ParseHeadingLine(line).Some? {
      ParseHeadingLineSound(line);
    }
  }

  /**
   * A page with Windows line endings loses its headings: the first line of
   * `# title\r\nbody` keeps its `\r`, so the piece gives no section when
   * anything but whitespace follows.
   */
  lemma CarriageReturnHeadingDropped(title: string, body: string, k: nat)
    requires '\n' !in title
    requires k < |body| && !IsWhitespace(body[k])
    ensures ParseSegment("# " + title + "\r\n" + body) == None
  {
    var seg := "# " + title + "\r\n" + body;
    var e := |title| + 3;
    assert seg[e] == '\n' && seg[e - 1] == '\r' && seg[0] == '#';
    assert seg[e + 1 + k] == body[k];
    TrimSlice(seg);
    var t := Trim(seg);
    assert TrimOffset(seg) == 0;
    assert |t| > e + 1 + k;
    assert t[..e + 1] == seg[..e + 1];
    assert forall i :: 0 <= i < e ==> t[i] != '\n' by {
      forall i | 0 <= i < e ensures t[i] != '\n' {
        if 2 <= i < e - 1 {
          assert t[i] == title[i - 2];
        }
      }
    }
    assert IndexOfFrom(t, '\n', 0) == e;
    LineEndingInTerminator(FirstLine(t));
  }

  /* ---- Writing sections back ---- */

  /** `n` hash characters. */
  function Hashes(n: nat): (r: string)
    ensures |r| == n && forall i :: 0 <= i < n ==> r[i] == '#'
  {
    seq(n, _ => '#')
  }

  /** A section written as markdown: the heading line, then the content, each ended by `\n`. */
  function RenderSection(sec: Section): string {
    Hashes(sec.level) + " " + sec.title + "\n" + sec.content + "\n"
  }

  /** The sections written one after the other. */
  function Render(secs: seq<Section>): string {
    if secs == [] then [] else RenderSection(secs[0]) + Render(secs[1..])
  }

  /** Each section written on its own. */
  function RenderEach(secs: seq<Section>): (r: seq<string>)
    ensures |r| == |secs| && forall i :: 0 <= i < |secs| ==> r[i] == RenderSection(secs[i])
  {
    seq(|secs|, i requires 0 <= i < |secs| => RenderSection(secs[i]))
  }

  /** No line of `content` would itself open a section. */
  predicate NoHeadingLine(content: string) {
    forall q :: 0 <= q < |content| && LineStart(content, q) ==> !HeadingAt(content + "\n", q)
  }

  /**
   * A section that reads back as itself: a level from 1 to 6, a title on
   * one line with no whitespace at either end, and trimmed content with no
   * line of its own that opens a section.
   */
  predicate WellFormed(sec: Section) {
    && 1 <= sec.level <= 6
    && sec.title != [] && IsTrimmed(sec.title) && NoTerminatorFrom(sec.title, 0)
    && IsTrimmed(sec.content) && NoHeadingLine(sec.content)
  }

  /** `a` holds `sec` written out: where each of its parts sits. */
  predicate Laid(a: string, sec: Section) {
    var l := sec.level; var t := |sec.title|; var c := |sec.content|;
    && |a| == l + t + c + 3
    && (forall i :: 0 <= i < l ==> a[i] == '#')
    && a[l] == ' ' && a[l + 1 + t] == '\n' && a[|a| - 1] == '\n'
    && (forall i :: 0 <= i < t ==> a[l + 1 + i] == sec.title[i])
    && (forall i :: 0 <= i < c ==> a[l + 2 + t + i] == sec.content[i])
  }

  lemma RenderLayout(sec: Section)
    ensures Laid(RenderSection(sec), sec)
  {
  }

  /** A heading line `#… title` is read back as its level and title. */
  lemma ParseWrittenHeading(line: string, level: nat, title: string)
    requires 1 <= level <= 6 && title != [] && IsTrimmed(title) && NoTerminatorFrom(title, 0)
    requires |line| == level + 1 + |title| && line[level] == ' '
    requires forall i :: 0 <= i < level ==> line[i] == '#'
    requires forall i :: 0 <= i < |title| ==> line[level + 1 + i] == title[i]
    ensures ParseHeadingLine(line) == Some(Heading(level, title))
  {
    HashRunIs(line, 0, level);
    assert line[level + 1] == title[0];
    assert WhitespaceEnd(line, level) == level + 1;
    assert line[level + 1..] == title;
  }

  /** Trimming a written section drops only the line breaks after its last text. */
  lemma TrimLaid(a: string, sec: Section) returns (kept: nat)
    requires WellFormed(sec) && Laid(a, sec)
    ensures kept == (if sec.content != [] then |a| - 1 else sec.level + 1 + |sec.title|)
    ensures Trim(a) == a[..kept]
  {
    var c := |sec.content|;
    kept := if c > 0 then |a| - 1 else sec.level + 1 + |sec.title|;
    assert !IsWhitespace(a[kept - 1]) by {
      if c > 0 {
        assert a[kept - 1] == sec.content[c - 1];
      } else {
        assert a[kept - 1] == sec.title[|sec.title| - 1];
      }
    }
    assert a == a[..kept] + a[kept..];
    TrimTrailing(a[..kept], a[kept..]);
  }

  /** The first line break of a trimmed written section ends its heading line. */
  lemma FirstBreakLaid(a: string, sec: Section, kept: nat)
    requires WellFormed(sec) && Laid(a, sec)
    requires kept == (if sec.content != [] then |a| - 1 else sec.level + 1 + |sec.title|)
    ensures IndexOfFrom(a[..kept], '\n', 0) == sec.level + 1 + |sec.title|
  {
    var x := a[..kept];
    var l := sec.level;
    forall i | 0 <= i < l + 1 + |sec.title| ensures x[i] != '\n' {
      if l < i {
        assert x[i] == sec.title[i - l - 1];
      }
    }
  }

  /** The heading line of a written section reads back as its level and title. */
  lemma HeadingLaid(a: string, sec: Section, kept: nat)
    requires WellFormed(sec) && Laid(a, sec)
    requires kept == (if sec.content != [] then |a| - 1 else sec.level + 1 + |sec.title|)
    ensures ParseHeadingLine(FirstLine(a[..kept])) == Some(Heading(sec.level, sec.title))
  {
    var e := sec.level + 1 + |sec.title|;
    FirstBreakLaid(a, sec, kept);
    ParseWrittenHeading(a[..kept][..e], sec.level, sec.title);
  }

  /** What follows the heading line of a written section, trimmed, is its content. */
  lemma ContentLaid(a: string, sec: Section, kept: nat)
    requires WellFormed(sec) && Laid(a, sec)
    requires kept == (if sec.content != [] then |a| - 1 else sec.level + 1 + |sec.title|)
    ensures Trim(AfterFirstLine(a[..kept])) == sec.content
  {
    var e := sec.level + 1 + |sec.title|;
    FirstBreakLaid(a, sec, kept);
    if sec.content != [] {
      assert a[..kept][e + 1..] == sec.content;
    }
    TrimOfTrimmed(sec.content);
  }

  /** A well-formed section, written and read back, is itself. */
  lemma ParseRendered(sec: Section)
    requires WellFormed(sec)
    ensures ParseSegment(RenderSection(sec)) == Some(sec)
  {
    var a := RenderSection(sec);
    RenderLayout(sec);
    var kept := TrimLaid(a, sec);
    HeadingLaid(a, sec, kept);
    ContentLaid(a, sec, kept);
  }

  /** A heading marker inside content that ends with a line break is one in the content alone. */
  lemma ContentHeading(s: string, off: nat, c: string, q: nat)
    requires off + |c| < |s| && s[off + |c|] == '\n' && q < |c|
    requires forall i :: 0 <= i < |c| ==> s[off + i] == c[i]
    ensures HeadingAt(s, off + q) ==> HeadingAt(c + "\n", q)
  {
    if HeadingAt(s, off + q) {
      var n := HashRun(s, off + q);
      assert q + n <= |c|;
      var c' := c + "\n";
      assert forall i :: q <= i <= q + n ==> c'[i] == s[off + i];
      HashRunIs(c', q, n);
    }
  }

  /** Inside a written section, with anything after it, no position but the first is a cut. */
  lemma NoCutInLaid(s: string, a: string, sec: Section)
    requires WellFormed(sec) && Laid(a, sec)
    requires |a| <= |s| && forall i :: 0 <= i < |a| ==> s[i] == a[i]
    ensures forall j :: 1 <= j < |a| ==> !IsCut(s, j)
  {
    var l := sec.level;
    var e := l + 1 + |sec.title|;
    var c := sec.content;
    forall j | 1 <= j < |a| ensures !IsCut(s, j) {
      if j <= e {
        if l < j - 1 {
          assert s[j - 1] == sec.title[j - 2 - l];
        }
      } else if j == |a| - 1 {
        assert s[j] == '\n';
      } else {
        var q := j - (e + 1);
        assert q < |c|;
        assert q > 0 ==> s[j - 1] == c[q - 1];
        assert LineStart(s, j) ==> LineStart(c, q);
        ContentHeading(s, e + 1, c, q);
      }
    }
  }

  /** A written section opens with a heading marker. */
  lemma HeadingAtLaid(s: string, a: string, sec: Section)
    requires WellFormed(sec) && Laid(a, sec)
    requires |a| <= |s| && forall i :: 0 <= i < |a| ==> s[i] == a[i]
    ensures HeadingAt(s, 0)
  {
    HashRunIs(s, 0, sec.level);
  }

  /** A written section followed by text that opens with a heading marker, or by nothing, is one piece. */
  lemma SegmentsStep(s: string, a: string, b: string, sec: Section)
    requires WellFormed(sec) && Laid(a, sec) && s == a + b
    requires b != [] ==> HeadingAt(b, 0)
    ensures Segments(s) == [a] + (if b == [] then [] else Segments(b))
  {
    NoCutInLaid(s, a, sec);
    if b == [] {
      assert s == a;
      NextCutFirst(s, 1, |s|);
    } else {
      HashRunSuffix(s, |a|, 0);
      assert s[|a|..] == b && s[..|a|] == a;
      assert IsCut(s, |a|);
      NextCutFirst(s, 1, |a|);
    }
  }

  /** Written well-formed sections open with a heading marker. */
  lemma RenderOpensWithHeading(secs: seq<Section>)
    requires secs != [] && WellFormed(secs[0])
    ensures HeadingAt(Render(secs), 0)
  {
    var a := RenderSection(secs[0]);
    RenderLayout(secs[0]);
    assert Render(secs) == a + Render(secs[1..]);
    HeadingAtLaid(Render(secs), a, secs[0]);
  }

  /** Written one after the other, well-formed sections are cut back into their own texts. */
  lemma {:induction false} SegmentsOfRender(secs: seq<Section>)
    requires forall i :: 0 <= i < |secs| ==> WellFormed(secs[i])
    ensures Segments(Render(secs)) == if secs == [] then [[]] else RenderEach(secs)
  {
    if secs != [] {
      var a := RenderSection(secs[0]);
      var b := Render(secs[1..]);
      RenderLayout(secs[0]);
      if secs[1..] != [] {
        RenderOpensWithHeading(secs[1..]);
        SegmentsOfRender(secs[1..]);
      }
      SegmentsStep(Render(secs), a, b, secs[0]);
      var each := RenderEach(secs);
      var rest := RenderEach(secs[1..]);
      assert forall i :: 1 <= i < |each| ==> each[i] == rest[i - 1];
      assert each == [a] + rest;
    }
  }

  /** When every option holds a value, `filter(Boolean)` gives the values. */
  lemma {:induction false} PresentOfAll<T>(options: seq<Option<T>>, values: seq<T>)
    requires |options| == |values| && forall i :: 0 <= i < |options| ==> options[i] == Some(values[i])
    ensures Present(options) == values
  {
    if options != [] {
      PresentOfAll(options[1..], values[1..]);
      assert values == [values[0]] + values[1..];
    }
  }

  /** The empty page is one empty piece, which gives no section. */
  lemma EmptyPageHasNoSections()
    ensures SplitMdxByHeadings([]) == []
  {
    assert Segments([]) == [[]];
    assert ParseSegment([]) == None;
    assert ParseSegments([[]]) == [None];
  }

  /**
   * Well-formed sections written as markdown are split back into the same
   * sections, in the same order.
   */
  lemma SplitRenderRoundTrip(secs: seq<Section>)
    requires forall i :: 0 <= i < |secs| ==> WellFormed(secs[i])
    ensures SplitMdxByHeadings(Render(secs)) == secs
  {
    if secs == [] {
      EmptyPageHasNoSections();
    } else {
      SegmentsOfRender(secs);
      var parsed := ParseSegments(RenderEach(secs));
      forall i | 0 <= i < |secs| ensures parsed[i] == Some(secs[i]) {
        ParseRendered(secs[i]);
      }
      PresentOfAll(parsed, secs);
    }
  }
}
