/**
 * The front-matter readers of the indexing script, `extractTitle` and
 * `extractId`, and the pure steps of turning a markdown file into a
 * document: the title made from the file name, the document id, and the
 * file-name tests of the directory walk.
 *
 * Both readers match
 *   ^---[\s\S]*?\n<key>:\s*["']?(.*?)["']?\n[\s\S]*?---
 * against the whole file. The functions below follow the regular
 * expression engine's search order: the lazy prefix tries each `\n<key>:`
 * from the left, the greedy `\s*` gives back one character at a time, the
 * optional quote is tried present before absent, and the lazy group grows
 * one character at a time.
 */
module FrontMatter {
  import opened Wrappers
  import opened Text

  predicate IsQuote(c: char) {
    c == '"' || c == '\''
  }

  /**
   * `(.*?)["']?\n[\s\S]*?---` from `q`. The group cannot cross a line
   * terminator, so the match exists only when the first line terminator from
   * `q` is `\n` and a `---` follows somewhere after it; the lazy group then
   * stops before a quote that sits right before that `\n`.
   */
  function CaptureFrom(s: string, q: nat): (r: Option<string>)
    requires q <= |s|
    ensures r.Some? ==> forall i :: 0 <= i < |r.value| ==> !IsLineTerminator(r.value[i])
  {
    var l := LineEnd(s, q);
    if l < |s| && s[l] == '\n' && FindFrom(s, "---", l + 1) < |s| then
      if q < l && IsQuote(s[l - 1]) then Some(s[q..l - 1]) else Some(s[q..l])
    else
      None
  }

  /** `["']?` then the group, at `w`: with a quote there, the engine tries to consume it first. */
  function QuoteThenCapture(s: string, w: nat): Option<string>
    requires w <= |s|
  {
    if w < |s| && IsQuote(s[w]) && CaptureFrom(s, w + 1).Some? then CaptureFrom(s, w + 1)
    else CaptureFrom(s, w)
  }

  /**
   * `\s*` from `b` followed by the rest: the greedy run first ends at `w`,
   * the end of the whitespace; when the rest fails there, it ends one
   * character earlier, down to `b`.
   */
  function BacktrackSpaces(s: string, b: nat, w: nat): Option<string>
    requires b <= w <= |s|
    decreases w
  {
    var r := QuoteThenCapture(s, w);
    if r.Some? || w == b then r else BacktrackSpaces(s, b, w - 1)
  }

  /** What follows `<key>:` at `b`. */
  function ValueAt(s: string, b: nat): Option<string>
    requires b <= |s|
  {
    BacktrackSpaces(s, b, WhitespaceEnd(s, b))
  }

  /** The lazy `[\s\S]*?` before `\n<key>:` tries each position from `a` on. */
  function FieldFrom(s: string, key: string, a: nat): Option<string>
    requires a <= |s|
    decreases |s| - a
  {
    if a == |s| then None
    else if StartsAt(s, a, "\n" + key + ":") && ValueAt(s, a + |key| + 2).Some? then
      ValueAt(s, a + |key| + 2)
    else
      FieldFrom(s, key, a + 1)
  }

  /** The first group of the front-matter pattern for `key`, when the file matches it. */
  function FrontMatterField(s: string, key: string): Option<string> {
    if StartsAt(s, 0, "---") then FieldFrom(s, key, 3) else None
  }

  /** `replace(/['"]/g, '')`. */
  function RemoveQuotes(s: string): (r: string)
    ensures forall c :: c in r ==> c in s && !IsQuote(c)
    ensures (forall c :: c in s ==> !IsQuote(c)) ==> r == s
    ensures forall c :: !IsQuote(c) ==> multiset(r)[c] == multiset(s)[c]
  {
    if s == [] then []
    else
      assert s == [s[0]] + s[1..];
      if IsQuote(s[0]) then RemoveQuotes(s[1..])
      else [s[0]] + RemoveQuotes(s[1..])
  }

  /* ---- The title made from the file name ---- */

  /**
   * `path.extname` of a base name: from the last `.` on, unless there is no
   * `.`, the only `.` opens the name, or the name is `..`.
   */
  function Extname(name: string): (ext: string)
    ensures ext == [] || (|ext| < |name| && ext == name[|name| - |ext|..] && ext[0] == '.')
  {
    var d := LastIndexOf(name, '.', |name|);
    if d <= 0 || name == ".." then [] else name[d..]
  }

  /** `path.basename(name, path.extname(name))`. */
  function Stem(name: string): (stem: string)
    ensures |stem| <= |name| && stem == name[..|stem|]
  {
    var ext := Extname(name);
    name[..|name| - |ext|]
  }

  predicate IsWordSeparator(c: char) {
    c == '-' || c == '_'
  }

  /**
   * `split(/[-_]/)`, with `word` the piece read so far: every separator ends
   * a piece, so two separators in a row give an empty piece.
   */
  function SplitWords(word: string, s: string): (r: seq<string>)
    ensures |r| >= 1
    decreases |s|
  {
    if s == [] then [word]
    else if IsWordSeparator(s[0]) then [word] + SplitWords([], s[1..])
    else SplitWords(word + [s[0]], s[1..])
  }

  /** `word.charAt(0).toUpperCase() + word.slice(1).toLowerCase()`. */
  function Capitalize(word: string): (r: string)
    ensures |r| == |word|
  {
    if word == [] then [] else [ToUpper(word[0])] + LowerAll(word[1..])
  }

  /** `map(capitalize)`. */
  function CapitalizeAll(words: seq<string>): (r: seq<string>)
    ensures |r| == |words|
  {
    if words == [] then [] else [Capitalize(words[0])] + CapitalizeAll(words[1..])
  }

  /** `join(' ')`. */
  function JoinWithSpaces(words: seq<string>): string
    requires |words| >= 1
  {
    if |words| == 1 then words[0] else words[0] + [' '] + JoinWithSpaces(words[1..])
  }

  /** The fallback title: the stem's words, capitalised, joined with spaces. */
  function FileNameTitle(fileName: string): string {
    JoinWithSpaces(CapitalizeAll(SplitWords([], Stem(fileName))))
  }

  /**
   * The same title, character by character: a separator becomes a space, a
   * character that opens a word is upper-cased, any other is lower-cased.
   */
  function TitleCase(s: string, atWordStart: bool): (r: string)
    ensures |r| == |s|
  {
    if s == [] then []
    else if IsWordSeparator(s[0]) then [' '] + TitleCase(s[1..], true)
    else [if atWordStart then ToUpper(s[0]) else ToLower(s[0])] + TitleCase(s[1..], false)
  }

  /** `extractTitle(content, fileName)`. */
  function ExtractTitle(content: string, fileName: string): (r: string)
    ensures r == FileNameTitle(fileName) || (IsTrimmed(r) && forall c :: c in r ==> !IsQuote(c))
    ensures r != FileNameTitle(fileName) ==>
              FrontMatterField(content, "title").Some? &&
              forall c :: c in r ==> c in FrontMatterField(content, "title").value
    ensures !StartsAt(content, 0, "---") ==> r == FileNameTitle(fileName)
  {
    var m := FrontMatterField(content, "title");
    if m.Some? && m.value != [] then
      var t := RemoveQuotes(m.value);
      TrimChars(t);
      Trim(t)
    else
      FileNameTitle(fileName)
  }

  /** `extractId(content)`: the front-matter id, or `null` when it is absent or empty. */
  function ExtractId(content: string): (r: Option<string>)
    ensures r.Some? ==> r.value != [] && r == FrontMatterField(content, "id")
    ensures !StartsAt(content, 0, "---") ==> r == None
  {
    var m := FrontMatterField(content, "id");
    if m.Some? && m.value != [] then m else None
  }

  /* ---- File names ---- */

  predicate EndsWith(s: string, suffix: string) {
    |suffix| <= |s| && s[|s| - |suffix|..] == suffix
  }

  /** `name.match(/\.(md|mdx)$/)`: the files the walk collects. */
  predicate IsMarkdownFile(name: string) {
    EndsWith(name, ".md") || EndsWith(name, ".mdx")
  }

  /** The walk descends into a directory unless its name starts with `.`. */
  predicate VisitsDirectory(name: string) {
    name == [] || name[0] != '.'
  }

  /** `name.replace(/\.(md|mdx)$/, '')`. */
  function StripMarkdownExtension(name: string): (r: string)
    ensures |r| <= |name| && r == name[..|r|]
  {
    if EndsWith(name, ".md") then name[..|name| - 3]
    else if EndsWith(name, ".mdx") then name[..|name| - 4]
    else name
  }

  /** `extractId(content) || basename(filePath).replace(/\.(md|mdx)$/, '')`. */
  function DocumentId(content: string, fileName: string): string {
    var id := ExtractId(content);
    if id.Some? then id.value else StripMarkdownExtension(fileName)
  }

  /* ---- Properties ---- */

  lemma CapitalizeSnoc(word: string, c: char)
    ensures Capitalize(word + [c]) == Capitalize(word) + [if word == [] then ToUpper(c) else ToLower(c)]
  {
    if word != [] {
      assert (word + [c])[1..] == word[1..] + [c];
    }
  }

  /** A separator closes the piece `word`: its capitalised form, a space, then the rest. */
  lemma JoinAtSeparator(word: string, s: string)
    requires s != [] && IsWordSeparator(s[0])
    requires JoinWithSpaces(CapitalizeAll(SplitWords([], s[1..]))) == TitleCase(s[1..], true)
    ensures JoinWithSpaces(CapitalizeAll(SplitWords(word, s))) == Capitalize(word) + TitleCase(s, word == [])
  {
    var rest := SplitWords([], s[1..]);
    var caps := CapitalizeAll([word] + rest);
    assert ([word] + rest)[1..] == rest;
    assert |caps| >= 2 && caps[0] == Capitalize(word) && caps[1..] == CapitalizeAll(rest);
    assert JoinWithSpaces(caps) == Capitalize(word) + [' '] + TitleCase(s[1..], true);
    ConcatAssoc(Capitalize(word), [' '], TitleCase(s[1..], true));
  }

  /** Any other character continues the piece `word`, lower-cased unless it opens it. */
  lemma TitleCaseInWord(word: string, s: string)
    requires s != [] && !IsWordSeparator(s[0])
    ensures Capitalize(word + [s[0]]) + TitleCase(s[1..], false) == Capitalize(word) + TitleCase(s, word == [])
  {
    CapitalizeSnoc(word, s[0]);
    var c := if word == [] then ToUpper(s[0]) else ToLower(s[0]);
    ConcatAssoc(Capitalize(word), [c], TitleCase(s[1..], false));
  }

  /**
   * Splitting on `-` and `_`, capitalising every piece and joining with
   * spaces is `TitleCase`: continuing the piece `word` with `s` gives
   * `Capitalize(word)` followed by the title case of `s`.
   */
  lemma {:induction false} JoinCapitalizedWords(word: string, s: string)
    ensures JoinWithSpaces(CapitalizeAll(SplitWords(word, s))) == Capitalize(word) + TitleCase(s, word == [])
    decreases |s|
  {
    if s == [] {
      assert CapitalizeAll([word]) == [Capitalize(word)];
    } else if IsWordSeparator(s[0]) {
      JoinCapitalizedWords([], s[1..]);
      JoinAtSeparator(word, s);
    } else {
      JoinCapitalizedWords(word + [s[0]], s[1..]);
      TitleCaseInWord(word, s);
      assert SplitWords(word, s) == SplitWords(word + [s[0]], s[1..]);
    }
  }

  /**
   * The fallback title has the stem's length; each `-` or `_` becomes a
   * space, and each word is capitalised.
   */
  lemma FileNameTitleIsTitleCase(fileName: string)
    ensures FileNameTitle(fileName) == TitleCase(Stem(fileName), true)
  {
    JoinCapitalizedWords([], Stem(fileName));
  }

  /** A markdown file's extension is removed by the id fallback, and only that. */
  lemma StripMarkdownExtensionRoundTrip(stem: string)
    ensures StripMarkdownExtension(stem + ".md") == stem
    ensures StripMarkdownExtension(stem + ".mdx") == stem
    ensures IsMarkdownFile(stem + ".md") && IsMarkdownFile(stem + ".mdx")
  {
    assert EndsWith(stem + ".md", ".md");
    assert (stem + ".mdx")[|stem| + 3] == 'x';
    assert EndsWith(stem + ".mdx", ".mdx");
  }

  /** For a markdown file with a non-empty stem, `path.extname` is the markdown extension. */
  lemma StemOfMarkdownFile(stem: string, ext: string)
    requires stem != [] && (ext == ".md" || ext == ".mdx")
    ensures Extname(stem + ext) == ext
    ensures Stem(stem + ext) == stem
  {
    var name := stem + ext;
    assert name[|stem|] == '.';
    assert forall j :: |stem| < j < |name| ==> name[j] == ext[j - |stem|] != '.';
    assert |name| >= 4;
  }

  /**
   * The group read from a line holding `v`, bare or in quotes, from `q` to
   * the `\n` at `l`, when a `---` follows.
   */
  lemma CaptureOfLine(s: string, q: nat, quote: string, v: string, l: nat)
    requires quote == [] || quote == "\"" || quote == "'"
    requires v != [] && forall i :: 0 <= i < |v| ==> !IsLineTerminator(v[i]) && !IsQuote(v[i])
    requires l == q + |v| + |quote| && l < |s| && s[l] == '\n'
    requires s[q..q + |v|] == v && (quote != [] ==> s[l - 1] == quote[0])
    requires FindFrom(s, "---", l + 1) < |s|
    ensures CaptureFrom(s, q) == Some(v)
  {
    forall j | q <= j < l ensures !IsLineTerminator(s[j]) {
      if j < q + |v| {
        assert s[j] == v[j - q];
      }
    }
    LineEndIs(s, q, l);
    if quote == [] {
      assert s[l - 1] == v[|v| - 1];
    }
  }

  /** The optional quote then the group, at the first character `w` of the value. */
  lemma QuotedValue(s: string, w: nat, quote: string, v: string, l: nat)
    requires quote == [] || quote == "\"" || quote == "'"
    requires v != [] && forall i :: 0 <= i < |v| ==> !IsLineTerminator(v[i]) && !IsQuote(v[i])
    requires l == w + 2 * |quote| + |v| && l < |s| && s[l] == '\n'
    requires s[w + |quote|..w + |quote| + |v|] == v
    requires quote != [] ==> s[w] == quote[0] && s[l - 1] == quote[0]
    requires FindFrom(s, "---", l + 1) < |s|
    ensures QuoteThenCapture(s, w) == Some(v)
  {
    CaptureOfLine(s, w + |quote|, quote, v, l);
    if quote == [] {
      assert s[w] == v[0];
    }
  }

  /**
   * What follows `<key>:` when it is one space and then `v`, bare or in
   * quotes, up to the `\n` at `l`.
   */
  lemma ValueOfLine(s: string, b: nat, quote: string, v: string, l: nat)
    requires quote == [] || quote == "\"" || quote == "'"
    requires v != [] && IsTrimmed(v)
    requires forall i :: 0 <= i < |v| ==> !IsLineTerminator(v[i]) && !IsQuote(v[i])
    requires l == b + 1 + 2 * |quote| + |v| && l < |s| && s[l] == '\n' && s[b] == ' '
    requires s[b + 1 + |quote|..b + 1 + |quote| + |v|] == v
    requires quote != [] ==> s[b + 1] == quote[0] && s[l - 1] == quote[0]
    requires FindFrom(s, "---", l + 1) < |s|
    ensures ValueAt(s, b) == Some(v)
  {
    QuotedValue(s, b + 1, quote, v, l);
    if quote == [] {
      assert s[b + 1] == v[0];
    } else {
      assert s[b + 1] == quote[0];
    }
    assert WhitespaceEnd(s, b) == b + 1;
  }

  /** The lazy prefix passes over the positions where no `\n<key>:` starts. */
  lemma {:induction false} FieldSkip(s: string, key: string, a: nat, p: nat)
    requires a <= p <= |s|
    requires forall k :: a <= k < p ==> !StartsAt(s, k, "\n" + key + ":")
    ensures FieldFrom(s, key, a) == FieldFrom(s, key, p)
    decreases p - a
  {
    if a < p {
      FieldSkip(s, key, a + 1, p);
    }
  }

  /**
   * A file in which no line after the opening `---` starts with `title:`,
   * front matter and body alike, gets the title made from the file name.
   */
  lemma ExtractTitleFallback(content: string, fileName: string)
    requires forall k :: 3 <= k < |content| ==> !StartsAt(content, k, "\ntitle:")
    ensures ExtractTitle(content, fileName) == FileNameTitle(fileName)
  {
    if StartsAt(content, 0, "---") {
      assert "\ntitle:" == "\n" + "title" + ":";
      FieldSkip(content, "title", 3, |content|);
    }
  }

  /**
   * A file in which no line after the opening `---` starts with `id:`,
   * front matter and body alike, has no id, and the document id falls back
   * to the file name without its markdown extension.
   */
  lemma ExtractIdAbsent(content: string, fileName: string)
    requires forall k :: 3 <= k < |content| ==> !StartsAt(content, k, "\nid:")
    ensures ExtractId(content) == None
    ensures DocumentId(content, fileName) == StripMarkdownExtension(fileName)
  {
    if StartsAt(content, 0, "---") {
      assert "\nid:" == "\n" + "id" + ":";
      FieldSkip(content, "id", 3, |content|);
    }
  }

  /** Where the pieces of the line `<key>: <v>` and the closing `---` sit in `rest`. */
  lemma KeyLineLayout(rest: string, key: string, quote: string, v: string, more: string, body: string)
    requires quote == [] || quote == "\"" || quote == "'"
    requires rest == "\n" + key + ": " + quote + v + quote + "\n" + more + "---" + body
    ensures var b := |key| + 2; var l := b + 1 + 2 * |quote| + |v|;
      && StartsAt(rest, 0, "\n" + key + ":") && rest[b] == ' '
      && l < |rest| && rest[b + 1 + |quote|..b + 1 + |quote| + |v|] == v && rest[l] == '\n'
      && (quote != [] ==> rest[b + 1] == quote[0] && rest[l - 1] == quote[0])
      && StartsAt(rest, l + 1 + |more|, "---")
  {
    var b := |key| + 2;
    var l := b + 1 + 2 * |quote| + |v|;
    var d := l + 1 + |more|;
    assert rest[..b] == "\n" + key + ":";
    assert rest[b + 1 + |quote|..b + 1 + |quote| + |v|] == v;
    assert rest[d..d + 3] == "---";
  }

  /** The lazy prefix stops at `p` when `\n<key>:` starts there and its value matches. */
  lemma FieldAt(s: string, key: string, p: nat, v: string)
    requires StartsAt(s, p, "\n" + key + ":") && ValueAt(s, p + |key| + 2) == Some(v)
    ensures FieldFrom(s, key, p) == Some(v)
  {
  }

  /** The layout `KeyLineLayout` states for `rest`, shifted to where `rest` starts in `s`. */
  lemma ShiftedLayout(s: string, key: string, p: nat, rest: string, quote: string, v: string, more: string)
    requires p <= |s| && s[p..] == rest
    requires var b := |key| + 2; var l := b + 1 + 2 * |quote| + |v|;
      && l < |rest| && StartsAt(rest, 0, "\n" + key + ":") && rest[b] == ' '
      && rest[b + 1 + |quote|..b + 1 + |quote| + |v|] == v && rest[l] == '\n'
      && (quote != [] ==> rest[b + 1] == quote[0] && rest[l - 1] == quote[0])
      && StartsAt(rest, l + 1 + |more|, "---")
    ensures var b := p + |key| + 2; var l := b + 1 + 2 * |quote| + |v|;
      && l < |s| && StartsAt(s, p, "\n" + key + ":") && s[b] == ' '
      && s[b + 1 + |quote|..b + 1 + |quote| + |v|] == v && s[l] == '\n'
      && (quote != [] ==> s[b + 1] == quote[0] && s[l - 1] == quote[0])
      && StartsAt(s, l + 1 + |more|, "---")
  {
    var b := p + |key| + 2;
    var l := b + 1 + 2 * |quote| + |v|;
    var d := l + 1 + |more|;
    assert StartsAt(s, p, "\n" + key + ":") by {
      DropSlice(s, p, 0, |key| + 2);
    }
    assert s[b + 1 + |quote|..b + 1 + |quote| + |v|] == v by {
      DropSlice(s, p, b - p + 1 + |quote|, b - p + 1 + |quote| + |v|);
    }
    assert StartsAt(s, d, "---") by {
      DropSlice(s, p, d - p, d - p + 3);
    }
    assert s[b] == rest[b - p] && s[l] == rest[l - p];
    if quote != [] {
      assert s[b + 1] == rest[b - p + 1];
      assert s[l - 1] == rest[l - p - 1];
    }
  }

  /** The value of the line `<key>: <v>` at `p` in `s`, laid out as `ShiftedLayout` states. */
  lemma ValueOfKeyLine(s: string, key: string, p: nat, quote: string, v: string, more: string)
    requires quote == [] || quote == "\"" || quote == "'"
    requires v != [] && IsTrimmed(v)
    requires forall i :: 0 <= i < |v| ==> !IsLineTerminator(v[i]) && !IsQuote(v[i])
    requires var b := p + |key| + 2; var l := b + 1 + 2 * |quote| + |v|;
      && l < |s| && s[b] == ' '
      && s[b + 1 + |quote|..b + 1 + |quote| + |v|] == v && s[l] == '\n'
      && (quote != [] ==> s[b + 1] == quote[0] && s[l - 1] == quote[0])
      && StartsAt(s, l + 1 + |more|, "---")
    ensures ValueAt(s, p + |key| + 2) == Some(v)
  {
    var b := p + |key| + 2;
    var l := b + 1 + 2 * |quote| + |v|;
    FindFromFinds(s, "---", l + 1, l + 1 + |more|);
    ValueOfLine(s, b, quote, v, l);
  }

  /**
   * The pattern's first group is the value of the first line that starts
   * with `<key>:` and whose value matches.
   */
  lemma FieldOfFirstKeyLine(s: string, key: string, p: nat, v: string)
    requires 3 <= p && StartsAt(s, 0, "---")
    requires StartsAt(s, p, "\n" + key + ":") && ValueAt(s, p + |key| + 2) == Some(v)
    requires forall k :: 3 <= k < p ==> !StartsAt(s, k, "\n" + key + ":")
    ensures FrontMatterField(s, key) == Some(v)
  {
    FieldAt(s, key, p, v);
    FieldSkip(s, key, 3, p);
  }

  /**
   * A front matter that opens with `---`, has the line `<key>: <v>`, with
   * `v` bare or in quotes, and is closed by a later `---` is read back as
   * `v`, whatever lies between that line and the closing `---`, when no
   * earlier line starts with `<key>:`.
   */
  lemma FrontMatterFieldRoundTrip(s: string, key: string, pre: string, quote: string, v: string,
                                  more: string, body: string)
    requires quote == [] || quote == "\"" || quote == "'"
    requires v != [] && IsTrimmed(v)
    requires forall i :: 0 <= i < |v| ==> !IsLineTerminator(v[i]) && !IsQuote(v[i])
    requires s == "---" + pre + ("\n" + key + ": " + quote + v + quote + "\n" + more + "---" + body)
    requires forall k :: 3 <= k < 3 + |pre| ==> !StartsAt(s, k, "\n" + key + ":")
    ensures FrontMatterField(s, key) == Some(v)
  {
    var rest := "\n" + key + ": " + quote + v + quote + "\n" + more + "---" + body;
    KeyLineLayout(rest, key, quote, v, more, body);
    var p := 3 + |pre|;
    assert s[..3] == "---" && s[p..] == rest;
    ShiftedLayout(s, key, p, rest, quote, v, more);
    ValueOfKeyLine(s, key, p, quote, v, more);
    FieldOfFirstKeyLine(s, key, p, v);
  }

  /** The title written in the front matter is the document's title. */
  lemma ExtractTitleRoundTrip(s: string, fileName: string, pre: string, quote: string, v: string,
                              more: string, body: string)
    requires quote == [] || quote == "\"" || quote == "'"
    requires v != [] && IsTrimmed(v)
    requires forall i :: 0 <= i < |v| ==> !IsLineTerminator(v[i]) && !IsQuote(v[i])
    requires s == "---" + pre + ("\ntitle: " + quote + v + quote + "\n" + more + "---" + body)
    requires forall k :: 3 <= k < 3 + |pre| ==> !StartsAt(s, k, "\ntitle:")
    ensures ExtractTitle(s, fileName) == v
  {
    assert "\ntitle: " == "\n" + "title" + ": ";
    assert "\ntitle:" == "\n" + "title" + ":";
    FrontMatterFieldRoundTrip(s, "title", pre, quote, v, more, body);
    assert forall c :: c in v ==> !IsQuote(c);
    assert RemoveQuotes(v) == v;
    TrimOfTrimmed(v);
  }

  /**
   * The pattern has no `m` flag, so its lazy prefix runs past the closing
   * `---`: a `title:` line in the body, followed later by a `---` rule,
   * becomes the page's title even though the front matter has none.
   */
  lemma BodyTitleLineIsTitle(fileName: string)
    ensures ExtractTitle("---\nslug: x\n---\ntitle: Body\n---\n", fileName) == "Body"
  {
    var s := "---\nslug: x\n---\ntitle: Body\n---\n";
    var pre := "\nslug: x\n---";
    assert s == "---" + pre + ("\ntitle: " + "" + "Body" + "" + "\n" + "" + "---" + "\n");
    forall k | 3 <= k < 3 + |pre| ensures !StartsAt(s, k, "\ntitle:") {
      assert s[k..k + 7][0] == s[k] && s[k..k + 7][1] == s[k + 1];
    }
    ExtractTitleRoundTrip(s, fileName, pre, "", "Body", "", "\n");
  }

  /** The id written in the front matter is the document's id. */
  lemma ExtractIdRoundTrip(s: string, fileName: string, pre: string, quote: string, v: string,
                           more: string, body: string)
    requires quote == [] || quote == "\"" || quote == "'"
    requires v != [] && IsTrimmed(v)
    requires forall i :: 0 <= i < |v| ==> !IsLineTerminator(v[i]) && !IsQuote(v[i])
    requires s == "---" + pre + ("\nid: " + quote + v + quote + "\n" + more + "---" + body)
    requires forall k :: 3 <= k < 3 + |pre| ==> !StartsAt(s, k, "\nid:")
    ensures ExtractId(s) == Some(v)
    ensures DocumentId(s, fileName) == v
  {
    assert "\nid: " == "\n" + "id" + ": ";
    assert "\nid:" == "\n" + "id" + ":";
    FrontMatterFieldRoundTrip(s, "id", pre, quote, v, more, body);
  }
}
