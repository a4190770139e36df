/** The block layer of the Markdown pipe (`parseBlockMarkdown`): the line
    patterns, the blocks they start, the cursor walk over the lines that
    groups them (`Scan`), and the HTML each block becomes (`RenderAll`).
    The imperative scanner in module `Scanner` is proved to produce exactly
    `Markdown(text)`. */
module Blocks {
  import opened Strings
  import opened Html
  import opened Inline

  // ---------------------------------------------------------------- line patterns

  /** The three backticks that open and close a code block. */
  const Fence: string := "```"

  /** `t.substring(1)`: everything after the first character, or nothing. */
  function DropFirst(t: string): (r: string)
    ensures t != [] ==> t == [t[0]] + r
    ensures t == [] ==> r == []
  {
    if t == [] then [] else t[1..]
  }

  /** The word that `^```(\w+)?` captures after a fence: the longest run of
      word characters right after the backticks, possibly empty. */
  function LangOf(t: string): (lang: string)
    requires StartsWith(t, Fence)
    ensures 3 + |lang| <= |t| && t[3..3 + |lang|] == lang
    ensures forall k :: 0 <= k < |lang| ==> IsWordChar(lang[k])
    ensures 3 + |lang| < |t| ==> !IsWordChar(t[3 + |lang|])
  {
    var r := t[3..];
    var n := RunLength(r, Word);
    RunLengthSpec(r, Word);
    assert forall k :: 0 <= k < n ==> r[..n][k] == r[k];
    r[..n]
  }

  /** `^(-{3,}|\*{3,}|_{3,})$`: three or more of one of `-`, `*`, `_`. */
  predicate IsRuleLine(t: string) {
    |t| >= 3 && (t[0] == '-' || t[0] == '*' || t[0] == '_')
    && forall k :: 0 <= k < |t| ==> t[k] == t[0]
  }

  /** Length of the white space after the `#` run of a heading candidate. */
  function HeadingGap(t: string): nat {
    var h := RunLength(t, Is('#'));
    RunLength(t[h..], Space)
  }

  /** `^(#+)\s+(.+)$`: a maximal run of `#`, at least one white-space
      character, then a non-empty rest without line terminators (`.` does
      not match them and `$` is the end of the text). A shorter `#` run is
      followed by `#`, and a shorter white-space run leaves white space in
      the rest, so backtracking never yields another match. */
  predicate IsHeadingLine(t: string) {
    var h := RunLength(t, Is('#'));
    var g := HeadingGap(t);
    && 0 < h && 0 < g && h + g < |t|
    && forall k :: h + g <= k < |t| ==> !IsLineTerminator(t[k])
  }

  /** The text a heading line captures in its second group. */
  function HeadingText(t: string): (x: string)
    requires IsHeadingLine(t)
    ensures x != [] && EndsWith(t, x)
  {
    t[RunLength(t, Is('#')) + HeadingGap(t)..]
  }

  /** The heading text is the second capture group of the heading pattern:
      it starts right after the maximal `#` run and the maximal white-space
      run after it, so it never starts with white space. */
  lemma {:induction false} HeadingTextSpec(t: string)
    requires IsHeadingLine(t)
    ensures var x, h := HeadingText(t), RunLength(t, Is('#'));
      && 0 < h < |t| - |x|
      && (forall k :: 0 <= k < h ==> t[k] == '#')
      && (forall k :: h <= k < |t| - |x| ==> IsSpace(t[k]))
      && !IsSpace(x[0])
  {
    var h, g := RunLength(t, Is('#')), HeadingGap(t);
    RunLengthSpec(t, Is('#'));
    RunLengthSpec(t[h..], Space);
    forall k | h <= k < h + g ensures IsSpace(t[k]) {
      assert t[k] == t[h..][k - h];
    }
    assert t[h..][g] == t[h + g];
  }

  /** `^!\[([^\]]*)\]\(([^\)]+)\)$`: the whole line is one image. */
  predicate IsImageLine(t: string) {
    var m := MatchImage(t);
    m.Some? && m.value.len == |t|
  }

  /** Length of the prefix that `^[\-\*\+]\s+` matches, 0 when it does not
      match. */
  function BulletMarker(t: string): (n: nat)
    ensures n <= |t|
    ensures n > 0 <==> |t| >= 2 && (t[0] == '-' || t[0] == '*' || t[0] == '+') && IsSpace(t[1])
    ensures n > 0 ==> forall k :: 1 <= k < n ==> IsSpace(t[k])
    ensures 0 < n < |t| ==> !IsSpace(t[n])
  {
    if |t| >= 2 && (t[0] == '-' || t[0] == '*' || t[0] == '+') && IsSpace(t[1])
    then
      var w := RunLength(t[1..], Space);
      RunLengthSpec(t[1..], Space);
      assert forall k :: 1 <= k < 1 + w ==> t[k] == t[1..][k - 1];
      1 + w
    else 0
  }

  /** Length of the prefix that `^\d+\.\s+` matches, 0 when it does not
      match. A shorter digit run is followed by a digit, not `.`, so the
      digit run is maximal. */
  function NumberMarker(t: string): (n: nat)
    ensures n <= |t|
    ensures n > 0 ==> var d := RunLength(t, Digit);
      && d > 0 && d + 1 < n && t[d] == '.'
      && forall k :: d + 1 <= k < n ==> IsSpace(t[k])
    ensures 0 < n < |t| ==> !IsSpace(t[n])
  {
    var d := RunLength(t, Digit);
    if d > 0 && d + 1 < |t| && t[d] == '.' && IsSpace(t[d + 1])
    then
      var w := RunLength(t[d + 1..], Space);
      RunLengthSpec(t[d + 1..], Space);
      assert forall k :: d + 1 <= k < d + 1 + w ==> t[k] == t[d + 1..][k - d - 1];
      d + 1 + w
    else 0
  }

  /** What the first matching rule of the block loop makes of a trimmed
      line, in the source's order. */
  datatype Line =
    | Blank
    | FenceLine(lang: string)
    | RuleLine
    | HeadingLine(hashes: nat, text: string)
    | ImageLine(alt: string, url: string)
    | QuoteLine
    | BulletLine
    | NumberLine
    | TextLine

  function Classify(t: string): Line {
    if t == [] then Blank
    else if StartsWith(t, Fence) then FenceLine(LangOf(t))
    else if IsRuleLine(t) then RuleLine
    else if IsHeadingLine(t) then HeadingLine(RunLength(t, Is('#')), HeadingText(t))
    else if IsImageLine(t) then ImageLine(MatchImage(t).value.text, MatchImage(t).value.url)
    else if StartsWith(t, ">") then QuoteLine
    else if BulletMarker(t) > 0 then BulletLine
    else if NumberMarker(t) > 0 then NumberLine
    else TextLine
  }

  // ---------------------------------------------------------------- runs of lines

  /** The inner loops: code lines up to the closing fence, and runs of quote,
      bullet and numbered lines. */
  datatype Run = CodeRun | QuoteRun | BulletRun | NumberRun

  /** Whether the inner loop of `run` takes `line`; every loop tests the
      trimmed line. */
  predicate Continues(run: Run, line: string) {
    var t := Trim(line);
    match run
    case CodeRun => !StartsWith(t, Fence)
    case QuoteRun => StartsWith(t, ">")
    case BulletRun => BulletMarker(t) > 0
    case NumberRun => NumberMarker(t) > 0
  }

  /** Where the inner loop of `run` started at `i` stops: the first line at
      or after `i` that it does not take, or the end of the lines. */
  function RunEnd(lines: seq<string>, i: nat, run: Run): (j: nat)
    requires i <= |lines|
    ensures i <= j <= |lines|
    decreases |lines| - i
  {
    if i == |lines| || !Continues(run, lines[i]) then i else RunEnd(lines, i + 1, run)
  }

  /** The run takes every line from `i` up to its end, and does not take the
      line it ends at. */
  lemma {:induction false} RunEndSpec(lines: seq<string>, i: nat, run: Run)
    requires i <= |lines|
    ensures forall k :: i <= k < RunEnd(lines, i, run) ==> Continues(run, lines[k])
    ensures RunEnd(lines, i, run) < |lines| ==> !Continues(run, lines[RunEnd(lines, i, run)])
    decreases |lines| - i
  {
    if i < |lines| && Continues(run, lines[i]) {
      RunEndSpec(lines, i + 1, run);
    }
  }

  /** `f` applied to each element, in order. */
  function Map(f: string -> string, xs: seq<string>): (ys: seq<string>)
    ensures |ys| == |xs|
  {
    if xs == [] then [] else Map(f, xs[..|xs| - 1]) + [f(xs[|xs| - 1])]
  }

  /** Element `k` of the mapped sequence is `f` of element `k`. */
  lemma {:induction false} MapAt(f: string -> string, xs: seq<string>)
    ensures forall k :: 0 <= k < |xs| ==> Map(f, xs)[k] == f(xs[k])
  {
    if xs != [] {
      MapAt(f, xs[..|xs| - 1]);
    }
  }

  /** `lines[i].trim().substring(1).trim()`. */
  function QuoteText(line: string): string {
    Trim(DropFirst(Trim(line)))
  }

  /** The trimmed line without its bullet marker, as `replace` leaves it. */
  function BulletItem(line: string): string {
    var t := Trim(line);
    t[BulletMarker(t)..]
  }

  /** The trimmed line without its number marker, as `replace` leaves it. */
  function NumberItem(line: string): string {
    var t := Trim(line);
    t[NumberMarker(t)..]
  }

  // ---------------------------------------------------------------- blocks

  /** The HTML blocks, holding the source text they render (unescaped). */
  datatype Block =
    | Code(lang: string, lines: seq<string>)
    | Rule
    | Heading(level: nat, text: string)
    | Picture(alt: string, url: string)
    | Quote(lines: seq<string>)
    | Bullets(items: seq<string>)
    | Numbered(items: seq<string>)
    | Para(text: string)

  /** One turn of the block loop at line `i`: the block it adds (none for a
      blank line) and the line the next turn starts at. */
  datatype Step = Step(block: Option<Block>, next: nat)

  function Min(a: int, b: int): int { if a < b then a else b }

  function Next(lines: seq<string>, i: nat): (s: Step)
    requires i < |lines|
    ensures i < s.next <= |lines| + 1
  {
    var t := Trim(lines[i]);
    match Classify(t)
    case Blank => Step(None, i + 1)
    case FenceLine(lang) => CodeStep(lines, i, lang)
    case RuleLine => Step(Some(Rule), i + 1)
    case HeadingLine(h, x) => Step(Some(Heading(Min(h, 6), x)), i + 1)
    case ImageLine(alt, url) => Step(Some(Picture(alt, url)), i + 1)
    case QuoteLine => RunStep(lines, i, QuoteRun)
    case BulletLine => RunStep(lines, i, BulletRun)
    case NumberLine => RunStep(lines, i, NumberRun)
    case TextLine => Step(Some(Para(t)), i + 1)
  }

  /** A code block opened at line `i`: the lines up to the closing fence,
      which is skipped (or up to the end, leaving the cursor one past it). */
  function CodeStep(lines: seq<string>, i: nat, lang: string): (s: Step)
    requires i < |lines|
    ensures i < s.next <= |lines| + 1
  {
    var j := RunEnd(lines, i + 1, CodeRun);
    Step(Some(Code(lang, lines[i + 1..j])), j + 1)
  }

  /** A quote or list run starting at line `i`, which the run takes. */
  function RunStep(lines: seq<string>, i: nat, run: Run): (s: Step)
    requires i < |lines| && run != CodeRun && Continues(run, lines[i])
    ensures i < s.next <= |lines|
  {
    var j := RunEnd(lines, i, run);
    var ls := lines[i..j];
    match run
    case QuoteRun => Step(Some(Quote(Map(QuoteText, ls))), j)
    case BulletRun => Step(Some(Bullets(Map(BulletItem, ls))), j)
    case NumberRun => Step(Some(Numbered(Map(NumberItem, ls))), j)
  }

  /** The blocks of `lines` from line `i` on. An unterminated code block
      leaves the cursor one past the end. */
  function Scan(lines: seq<string>, i: nat): seq<Block>
    decreases |lines| + 1 - i, 1
  {
    if i >= |lines| then [] else Then(lines, i)
  }

  /** The block that the turn at line `i` adds, if any, followed by the
      blocks from the line it moves the cursor to. */
  function Then(lines: seq<string>, i: nat): seq<Block>
    requires i < |lines|
    decreases |lines| + 1 - i, 0
  {
    var s := Next(lines, i);
    (if s.block.Some? then [s.block.value] else []) + Scan(lines, s.next)
  }

  // ---------------------------------------------------------------- rendering

  function DigitChar(d: nat): char
    requires d < 10
  {
    ('0' as int + d) as char
  }

  /** `String(n)` for a natural number. */
  function NatText(n: nat): string
    decreases n
  {
    if n < 10 then [DigitChar(n)] else NatText(n / 10) + [DigitChar(n % 10)]
  }

  /** The ` class="language-…"` attribute, or nothing without a language. */
  function LangAttr(lang: string): string {
    if lang == [] then "" else " class=\"language-" + EscapeHtml(lang) + "\""
  }

  /** `parseInlineMarkdown(escapeHtml(text))`: inline Markdown over escaped
      text, as every block but code uses it. */
  function Formatted(text: string): string {
    ParseInline(EscapeHtml(text))
  }

  /** The `<li>` elements of a list, one per item, in order. */
  function Items(items: seq<string>): string
    decreases |items|
  {
    if items == [] then ""
    else Items(items[..|items| - 1]) + "<li>" + Formatted(items[|items| - 1]) + "</li>"
  }

  function RenderBlock(b: Block): string {
    match b
    case Code(lang, ls) => "<pre><code" + LangAttr(lang) + ">" + Join(Map(EscapeHtml, ls), "\n") + "</code></pre>"
    case Rule => "<hr>"
    case Heading(level, x) => "<h" + NatText(level) + ">" + Formatted(x) + "</h" + NatText(level) + ">"
    case Picture(alt, url) => BuildImageTag(EscapeHtml(url), EscapeHtml(alt), true)
    case Quote(ls) => "<blockquote>" + Formatted(Join(ls, "\n")) + "</blockquote>"
    case Bullets(items) => "<ul>" + Items(items) + "</ul>"
    case Numbered(items) => "<ol>" + Items(items) + "</ol>"
    case Para(x) => "<p>" + Formatted(x) + "</p>"
  }

  function RenderAll(bs: seq<Block>): string
    decreases |bs|
  {
    if bs == [] then "" else RenderBlock(bs[0]) + RenderAll(bs[1..])
  }

  /** `parseBlockMarkdown(text)`. */
  function Markdown(text: string): string {
    RenderAll(Scan(Split(text, '\n'), 0))
  }

  // ---------------------------------------------------------------- unfolding facts

  /** One turn of the walk: the next block's HTML, then the rest. */
  lemma RenderScanStep(lines: seq<string>, i: nat)
    requires i < |lines|
    ensures var s := Next(lines, i);
      RenderAll(Scan(lines, i))
        == (if s.block.Some? then RenderBlock(s.block.value) else "") + RenderAll(Scan(lines, s.next))
  {
    var s := Next(lines, i);
    if s.block.Some? {
      var rest := Scan(lines, s.next);
      assert ([s.block.value] + rest)[1..] == rest;
    } else {
      assert [] + Scan(lines, s.next) == Scan(lines, s.next);
    }
  }

  /** A turn that adds block `b` and moves the cursor to `j`. */
  lemma Turn(lines: seq<string>, i: nat, b: Block, j: nat)
    requires i < |lines| && Next(lines, i) == Step(Some(b), j)
    ensures RenderAll(Scan(lines, i)) == RenderBlock(b) + RenderAll(Scan(lines, j))
  {
    RenderScanStep(lines, i);
  }

  lemma RenderCode(lang: string, ls: seq<string>)
    ensures RenderBlock(Code(lang, ls)) == "<pre><code" + LangAttr(lang) + ">" + Join(Map(EscapeHtml, ls), "\n") + "</code></pre>"
  {
  }

  lemma RenderHeading(level: nat, x: string)
    ensures RenderBlock(Heading(level, x)) == "<h" + NatText(level) + ">" + Formatted(x) + "</h" + NatText(level) + ">"
  {
  }

  lemma RenderQuote(ls: seq<string>)
    ensures RenderBlock(Quote(ls)) == "<blockquote>" + Formatted(Join(ls, "\n")) + "</blockquote>"
  {
  }

  lemma RenderBullets(items: seq<string>)
    ensures RenderBlock(Bullets(items)) == "<ul>" + Items(items) + "</ul>"
  {
  }

  lemma RenderNumbered(items: seq<string>)
    ensures RenderBlock(Numbered(items)) == "<ol>" + Items(items) + "</ol>"
  {
  }

  lemma RenderPara(x: string)
    ensures RenderBlock(Para(x)) == "<p>" + Formatted(x) + "</p>"
  {
  }

  /** Taking one more line into a run extends the mapped texts by one. */
  lemma MapSnoc(f: string -> string, lines: seq<string>, a: nat, b: nat)
    requires a <= b < |lines|
    ensures Map(f, lines[a..b + 1]) == Map(f, lines[a..b]) + [f(lines[b])]
  {
    assert lines[a..b + 1][..b - a] == lines[a..b];
  }

  /** The run from `i` ends where the run from `i + 1` ends when it takes
      line `i`. */
  lemma RunEndStep(lines: seq<string>, i: nat, run: Run)
    requires i < |lines| && Continues(run, lines[i])
    ensures RunEnd(lines, i + 1, run) == RunEnd(lines, i, run)
  {
  }

  /** A loop over the run of `run` from `a` that has gathered `f` of lines
      `a` to `b` and takes line `b` has gathered `f` of lines `a` to `b + 1`,
      and the run still ends where it did. */
  lemma MapStep(f: string -> string, run: Run, lines: seq<string>, a: nat, b: nat,
                ys: seq<string>, y: string, ys': seq<string>, b': nat)
    requires a <= b < |lines| && Continues(run, lines[b])
    requires RunEnd(lines, b, run) == RunEnd(lines, a, run)
    requires ys == Map(f, lines[a..b]) && y == f(lines[b])
    requires ys' == ys + [y] && b' == b + 1
    ensures RunEnd(lines, b', run) == RunEnd(lines, a, run)
    ensures ys' == Map(f, lines[a..b'])
  {
    RunEndStep(lines, b, run);
    MapSnoc(f, lines, a, b);
  }

  /** A list loop over the run of `run` from `a` that has rendered the items
      of lines `a` to `b` and renders the item of line `b` has rendered the
      items of lines `a` to `b + 1`, and the run still ends where it did. */
  lemma ItemsStep(f: string -> string, run: Run, lines: seq<string>, a: nat, b: nat,
                  items: string, content: string, items': string, b': nat)
    requires a <= b < |lines| && Continues(run, lines[b])
    requires RunEnd(lines, b, run) == RunEnd(lines, a, run)
    requires items == Items(Map(f, lines[a..b])) && content == Formatted(f(lines[b]))
    requires items' == items + "<li>" + content + "</li>" && b' == b + 1
    ensures RunEnd(lines, b', run) == RunEnd(lines, a, run)
    ensures items' == Items(Map(f, lines[a..b']))
  {
    RunEndStep(lines, b, run);
    MapSnoc(f, lines, a, b);
    ItemsSnoc(Map(f, lines[a..b]), f(lines[b]));
  }

  /** One more item is one more `<li>` at the end. */
  lemma ItemsSnoc(items: seq<string>, x: string)
    ensures Items(items + [x]) == Items(items) + "<li>" + Formatted(x) + "</li>"
  {
    assert (items + [x])[..|items|] == items;
  }

  // ---------------------------------------------------------------- one turn per rule

  /** A blank line adds nothing. */
  lemma BlankTurn(lines: seq<string>, i: nat)
    requires i < |lines| && Trim(lines[i]) == []
    ensures Next(lines, i) == Step(None, i + 1)
    ensures RenderAll(Scan(lines, i)) == RenderAll(Scan(lines, i + 1))
  {
    RenderScanStep(lines, i);
  }

  /** A fence opens a code block of the lines up to the closing fence. */
  lemma FenceTurn(lines: seq<string>, i: nat)
    requires i < |lines|
    requires var t := Trim(lines[i]); t != [] && StartsWith(t, Fence)
    ensures var j := RunEnd(lines, i + 1, CodeRun);
      Next(lines, i) == Step(Some(Code(LangOf(Trim(lines[i])), lines[i + 1..j])), j + 1)
  {
  }

  lemma RuleTurn(lines: seq<string>, i: nat)
    requires i < |lines|
    requires var t := Trim(lines[i]); t != [] && !StartsWith(t, Fence) && IsRuleLine(t)
    ensures Next(lines, i) == Step(Some(Rule), i + 1)
  {
  }

  lemma HeadingTurn(lines: seq<string>, i: nat)
    requires i < |lines|
    requires var t := Trim(lines[i]);
      t != [] && !StartsWith(t, Fence) && !IsRuleLine(t) && IsHeadingLine(t)
    ensures var t := Trim(lines[i]);
      Next(lines, i) == Step(Some(Heading(Min(RunLength(t, Is('#')), 6), HeadingText(t))), i + 1)
  {
  }

  lemma ImageTurn(lines: seq<string>, i: nat)
    requires i < |lines|
    requires var t := Trim(lines[i]);
      t != [] && !StartsWith(t, Fence) && !IsRuleLine(t) && !IsHeadingLine(t) && IsImageLine(t)
    ensures var m := MatchImage(Trim(lines[i]));
      Next(lines, i) == Step(Some(Picture(m.value.text, m.value.url)), i + 1)
  {
  }

  /** A line that no rule before the quote rule takes. */
  predicate Unclaimed(t: string) {
    t != [] && !StartsWith(t, Fence) && !IsRuleLine(t) && !IsHeadingLine(t) && !IsImageLine(t)
  }

  /** The rules after the image rule, in order. */
  lemma ClassifyUnclaimed(t: string)
    requires Unclaimed(t)
    ensures Classify(t) == (if StartsWith(t, ">") then QuoteLine
      else if BulletMarker(t) > 0 then BulletLine
      else if NumberMarker(t) > 0 then NumberLine
      else TextLine)
  {
  }

  /** The line kind whose turn starts the run `run`. */
  function Starter(run: Run): Line
    requires run != CodeRun
  {
    match run
    case QuoteRun => QuoteLine
    case BulletRun => BulletLine
    case NumberRun => NumberLine
  }

  /** A line of kind `Starter(run)` starts the run `run`. */
  lemma RunTurn(lines: seq<string>, i: nat, run: Run)
    requires i < |lines| && run != CodeRun && Classify(Trim(lines[i])) == Starter(run)
    ensures Continues(run, lines[i]) && Next(lines, i) == RunStep(lines, i, run)
  {
  }

  lemma QuoteTurn(lines: seq<string>, i: nat)
    requires i < |lines|
    requires var t := Trim(lines[i]); Unclaimed(t) && StartsWith(t, ">")
    ensures var j := RunEnd(lines, i, QuoteRun);
      Next(lines, i) == Step(Some(Quote(Map(QuoteText, lines[i..j]))), j)
  {
    ClassifyUnclaimed(Trim(lines[i]));
    RunTurn(lines, i, QuoteRun);
  }

  lemma BulletTurn(lines: seq<string>, i: nat)
    requires i < |lines|
    requires var t := Trim(lines[i]); Unclaimed(t) && !StartsWith(t, ">") && BulletMarker(t) > 0
    ensures var j := RunEnd(lines, i, BulletRun);
      Next(lines, i) == Step(Some(Bullets(Map(BulletItem, lines[i..j]))), j)
  {
    ClassifyUnclaimed(Trim(lines[i]));
    RunTurn(lines, i, BulletRun);
  }

  lemma NumberTurn(lines: seq<string>, i: nat)
    requires i < |lines|
    requires var t := Trim(lines[i]);
      Unclaimed(t) && !StartsWith(t, ">") && BulletMarker(t) == 0 && NumberMarker(t) > 0
    ensures var j := RunEnd(lines, i, NumberRun);
      Next(lines, i) == Step(Some(Numbered(Map(NumberItem, lines[i..j]))), j)
  {
    ClassifyUnclaimed(Trim(lines[i]));
    RunTurn(lines, i, NumberRun);
  }

  lemma ParagraphTurn(lines: seq<string>, i: nat)
    requires i < |lines|
    requires var t := Trim(lines[i]);
      Unclaimed(t) && !StartsWith(t, ">") && BulletMarker(t) == 0 && NumberMarker(t) == 0
    ensures Next(lines, i) == Step(Some(Para(Trim(lines[i]))), i + 1)
  {
    ClassifyUnclaimed(Trim(lines[i]));
  }

  // ---------------------------------------------------------------- one turn, rendered

  /** The HTML of the blocks from line `i` on is `piece` followed by the HTML
      of the blocks from line `next` on. */
  predicate Yields(lines: seq<string>, i: nat, piece: string, next: nat) {
    RenderAll(Scan(lines, i)) == piece + RenderAll(Scan(lines, next))
  }

  /** A fence line: the code block of the lines `codeLines` stand for, and
      the walk goes on past the closing fence. */
  lemma CodeRendered(lines: seq<string>, i: nat, lang: string, codeLines: seq<string>, close: nat, piece: string, next: nat)
    requires i < |lines|
    requires var t := Trim(lines[i]); t != [] && StartsWith(t, Fence)
    requires lang == LangAttr(LangOf(Trim(lines[i])))
    requires close == RunEnd(lines, i + 1, CodeRun)
    requires codeLines == Map(EscapeHtml, lines[i + 1..close])
    requires piece == "<pre><code" + lang + ">" + Join(codeLines, "\n") + "</code></pre>" && next == close + 1
    ensures Yields(lines, i, piece, next)
  {
    CodeTurn(lines, i);
  }

  lemma CodeTurn(lines: seq<string>, i: nat)
    requires i < |lines|
    requires var t := Trim(lines[i]); t != [] && StartsWith(t, Fence)
    ensures var j := RunEnd(lines, i + 1, CodeRun);
      RenderAll(Scan(lines, i))
        == "<pre><code" + LangAttr(LangOf(Trim(lines[i]))) + ">" + Join(Map(EscapeHtml, lines[i + 1..j]), "\n") + "</code></pre>"
          + RenderAll(Scan(lines, j + 1))
  {
    var j := RunEnd(lines, i + 1, CodeRun);
    var b := Code(LangOf(Trim(lines[i])), lines[i + 1..j]);
    FenceTurn(lines, i);
    Turn(lines, i, b, j + 1);
    RenderCode(b.lang, b.lines);
  }

  lemma RuleRendered(lines: seq<string>, i: nat, piece: string, next: nat)
    requires i < |lines|
    requires var t := Trim(lines[i]); t != [] && !StartsWith(t, Fence) && IsRuleLine(t)
    requires piece == "<hr>" && next == i + 1
    ensures Yields(lines, i, piece, next)
  {
    RuleTurn(lines, i);
    Turn(lines, i, Rule, i + 1);
  }

  lemma HeadingRendered(lines: seq<string>, i: nat, level: nat, piece: string, next: nat)
    requires i < |lines|
    requires var t := Trim(lines[i]);
      t != [] && !StartsWith(t, Fence) && !IsRuleLine(t) && IsHeadingLine(t)
    requires level == Min(RunLength(Trim(lines[i]), Is('#')), 6)
    requires piece == "<h" + NatText(level) + ">" + Formatted(HeadingText(Trim(lines[i]))) + "</h" + NatText(level) + ">"
    requires next == i + 1
    ensures Yields(lines, i, piece, next)
  {
    var x := HeadingText(Trim(lines[i]));
    HeadingTurn(lines, i);
    Turn(lines, i, Heading(level, x), i + 1);
    RenderHeading(level, x);
  }

  lemma ImageRendered(lines: seq<string>, i: nat, piece: string, next: nat)
    requires i < |lines|
    requires var t := Trim(lines[i]);
      t != [] && !StartsWith(t, Fence) && !IsRuleLine(t) && !IsHeadingLine(t) && IsImageLine(t)
    requires var m := MatchImage(Trim(lines[i])).value;
      piece == BuildImageTag(EscapeHtml(m.url), EscapeHtml(m.text), true) && next == i + 1
    ensures Yields(lines, i, piece, next)
  {
    var m := MatchImage(Trim(lines[i])).value;
    ImageTurn(lines, i);
    Turn(lines, i, Picture(m.text, m.url), i + 1);
  }

  lemma QuoteRendered(lines: seq<string>, i: nat, quoteLines: seq<string>, close: nat, piece: string, next: nat)
    requires i < |lines|
    requires var t := Trim(lines[i]); Unclaimed(t) && StartsWith(t, ">")
    requires close == RunEnd(lines, i, QuoteRun)
    requires quoteLines == Map(QuoteText, lines[i..close])
    requires piece == "<blockquote>" + Formatted(Join(quoteLines, "\n")) + "</blockquote>" && next == close
    ensures Yields(lines, i, piece, next)
  {
    QuoteTurn(lines, i);
    Turn(lines, i, Quote(quoteLines), close);
    RenderQuote(quoteLines);
  }

  lemma BulletsRendered(lines: seq<string>, i: nat, items: string, close: nat, piece: string, next: nat)
    requires i < |lines|
    requires var t := Trim(lines[i]); Unclaimed(t) && !StartsWith(t, ">") && BulletMarker(t) > 0
    requires close == RunEnd(lines, i, BulletRun)
    requires items == Items(Map(BulletItem, lines[i..close]))
    requires piece == "<ul>" + items + "</ul>" && next == close
    ensures Yields(lines, i, piece, next)
  {
    var texts := Map(BulletItem, lines[i..close]);
    BulletTurn(lines, i);
    Turn(lines, i, Bullets(texts), close);
    RenderBullets(texts);
  }

  lemma NumbersRendered(lines: seq<string>, i: nat, items: string, close: nat, piece: string, next: nat)
    requires i < |lines|
    requires var t := Trim(lines[i]);
      Unclaimed(t) && !StartsWith(t, ">") && BulletMarker(t) == 0 && NumberMarker(t) > 0
    requires close == RunEnd(lines, i, NumberRun)
    requires items == Items(Map(NumberItem, lines[i..close]))
    requires piece == "<ol>" + items + "</ol>" && next == close
    ensures Yields(lines, i, piece, next)
  {
    var texts := Map(NumberItem, lines[i..close]);
    NumberTurn(lines, i);
    Turn(lines, i, Numbered(texts), close);
    RenderNumbered(texts);
  }

  lemma ParagraphRendered(lines: seq<string>, i: nat, piece: string, next: nat)
    requires i < |lines|
    requires var t := Trim(lines[i]);
      Unclaimed(t) && !StartsWith(t, ">") && BulletMarker(t) == 0 && NumberMarker(t) == 0
    requires piece == "<p>" + Formatted(Trim(lines[i])) + "</p>" && next == i + 1
    ensures Yields(lines, i, piece, next)
  {
    ParagraphTurn(lines, i);
    Turn(lines, i, Para(Trim(lines[i])), i + 1);
    RenderPara(Trim(lines[i]));
  }
}
