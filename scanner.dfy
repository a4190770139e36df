/** `parseBlockMarkdown` as the source writes it: a cursor `i` walking
    forward over the lines and an append-only `html` accumulator. Each inner
    `while` loop (code lines, quote lines, list items) is a method of its own
    that returns what it gathered and where the cursor stopped, and each
    turn of the outer loop on a non-blank line is the method `NextBlock`,
    which returns the HTML the turn appends. */
module Scanner {
  import opened Strings
  import opened Html
  import opened Inline
  import opened Blocks

  /** Appending one block's HTML keeps the accumulated HTML a prefix of the
      document. */
  lemma Emit(whole: string, html: string, now: string, piece: string, rest: string)
    requires whole == html + now && now == piece + rest
    ensures whole == html + piece + rest
  {
  }

  /** The inner loop of a code block: the escaped lines from `start` up to
      the next fence line, or to the end. */
  method CodeLines(lines: seq<string>, start: nat) returns (codeLines: seq<string>, next: nat)
    requires start <= |lines|
    ensures next == RunEnd(lines, start, CodeRun)
    ensures codeLines == Map(EscapeHtml, lines[start..next])
  {
    codeLines := [];
    next := start;
    while next < |lines| && Continues(CodeRun, lines[next])
      invariant start <= next <= |lines|
      invariant RunEnd(lines, next, CodeRun) == RunEnd(lines, start, CodeRun)
      invariant codeLines == Map(EscapeHtml, lines[start..next])
    {
      var escaped := EscapeHtml(lines[next]);
      var codeLines', next' := codeLines + [escaped], next + 1;
      MapStep(EscapeHtml, CodeRun, lines, start, next, codeLines, escaped, codeLines', next');
      codeLines, next := codeLines', next';
    }
  }

  /** The inner loop of a blockquote: the text of each `>` line from `start`
      on, without its marker and trimmed. */
  method QuoteLines(lines: seq<string>, start: nat) returns (quoteLines: seq<string>, next: nat)
    requires start <= |lines|
    ensures next == RunEnd(lines, start, QuoteRun)
    ensures quoteLines == Map(QuoteText, lines[start..next])
  {
    quoteLines := [];
    next := start;
    while next < |lines| && Continues(QuoteRun, lines[next])
      invariant start <= next <= |lines|
      invariant RunEnd(lines, next, QuoteRun) == RunEnd(lines, start, QuoteRun)
      invariant quoteLines == Map(QuoteText, lines[start..next])
    {
      var quoteLine := QuoteText(lines[next]);
      var quoteLines', next' := quoteLines + [quoteLine], next + 1;
      MapStep(QuoteText, QuoteRun, lines, start, next, quoteLines, quoteLine, quoteLines', next');
      quoteLines, next := quoteLines', next';
    }
  }

  /** The inner loop of an unordered list: one `<li>` per bullet line from
      `start` on. */
  method BulletItems(lines: seq<string>, start: nat) returns (items: string, next: nat)
    requires start <= |lines|
    ensures next == RunEnd(lines, start, BulletRun)
    ensures items == Items(Map(BulletItem, lines[start..next]))
  {
    items := "";
    next := start;
    while next < |lines| && Continues(BulletRun, lines[next])
      invariant start <= next <= |lines|
      invariant RunEnd(lines, next, BulletRun) == RunEnd(lines, start, BulletRun)
      invariant items == Items(Map(BulletItem, lines[start..next]))
    {
      var content := Formatted(BulletItem(lines[next]));
      var items', next' := items + "<li>" + content + "</li>", next + 1;
      ItemsStep(BulletItem, BulletRun, lines, start, next, items, content, items', next');
      items, next := items', next';
    }
  }

  /** The inner loop of an ordered list: one `<li>` per numbered line from
      `start` on. */
  method NumberItems(lines: seq<string>, start: nat) returns (items: string, next: nat)
    requires start <= |lines|
    ensures next == RunEnd(lines, start, NumberRun)
    ensures items == Items(Map(NumberItem, lines[start..next]))
  {
    items := "";
    next := start;
    while next < |lines| && Continues(NumberRun, lines[next])
      invariant start <= next <= |lines|
      invariant RunEnd(lines, next, NumberRun) == RunEnd(lines, start, NumberRun)
      invariant items == Items(Map(NumberItem, lines[start..next]))
    {
      var content := Formatted(NumberItem(lines[next]));
      var items', next' := items + "<li>" + content + "</li>", next + 1;
      ItemsStep(NumberItem, NumberRun, lines, start, next, items, content, items', next');
      items, next := items', next';
    }
  }

  /** A fence line: the escaped lines up to the closing fence in
      `<pre><code>`, with the language class when the fence names one; the
      cursor moves past the closing fence. */
  method CodeBlock(lines: seq<string>, i: nat) returns (piece: string, next: nat)
    requires i < |lines|
    requires var t := Trim(lines[i]); t != [] && StartsWith(t, Fence)
    ensures i < next <= |lines| + 1
    ensures Yields(lines, i, piece, next)
  {
    var word := LangOf(Trim(lines[i]));
    var lang := if word != [] then " class=\"language-" + EscapeHtml(word) + "\"" else "";
    var codeLines, close := CodeLines(lines, i + 1);
    piece := "<pre><code" + lang + ">" + Join(codeLines, "\n") + "</code></pre>";
    next := close + 1;
    CodeRendered(lines, i, lang, codeLines, close, piece, next);
  }

  /** A heading line: `<hN>` with N the number of `#`, at most 6. */
  method HeadingBlock(lines: seq<string>, i: nat) returns (piece: string, next: nat)
    requires i < |lines|
    requires var t := Trim(lines[i]);
      t != [] && !StartsWith(t, Fence) && !IsRuleLine(t) && IsHeadingLine(t)
    ensures i < next <= |lines|
    ensures Yields(lines, i, piece, next)
  {
    var trimmed := Trim(lines[i]);
    var hashes := RunLength(trimmed, Is('#'));
    var level := if hashes < 6 then hashes else 6;
    var content := Formatted(HeadingText(trimmed));
    piece, next := "<h" + NatText(level) + ">" + content + "</h" + NatText(level) + ">", i + 1;
    HeadingRendered(lines, i, level, piece, next);
  }

  /** A line that is one image: its block image tag. */
  method ImageBlock(lines: seq<string>, i: nat) returns (piece: string, next: nat)
    requires i < |lines|
    requires var t := Trim(lines[i]);
      t != [] && !StartsWith(t, Fence) && !IsRuleLine(t) && !IsHeadingLine(t) && IsImageLine(t)
    ensures i < next <= |lines|
    ensures Yields(lines, i, piece, next)
  {
    var image := MatchImage(Trim(lines[i])).value;
    var alt := EscapeHtml(image.text);
    var url := EscapeHtml(image.url);
    piece, next := BuildImageTag(url, alt, true), i + 1;
    ImageRendered(lines, i, piece, next);
  }

  /** A run of `>` lines: one `<blockquote>` of their texts joined by
      newlines. */
  method QuoteBlock(lines: seq<string>, i: nat) returns (piece: string, next: nat)
    requires i < |lines|
    requires var t := Trim(lines[i]); Unclaimed(t) && StartsWith(t, ">")
    ensures i < next <= |lines|
    ensures Yields(lines, i, piece, next)
  {
    var quoteLines, close := QuoteLines(lines, i);
    var quoteContent := Formatted(Join(quoteLines, "\n"));
    piece, next := "<blockquote>" + quoteContent + "</blockquote>", close;
    QuoteRendered(lines, i, quoteLines, close, piece, next);
  }

  /** A run of bullet lines: one `<ul>`. */
  method BulletList(lines: seq<string>, i: nat) returns (piece: string, next: nat)
    requires i < |lines|
    requires var t := Trim(lines[i]); Unclaimed(t) && !StartsWith(t, ">") && BulletMarker(t) > 0
    ensures i < next <= |lines|
    ensures Yields(lines, i, piece, next)
  {
    var items, close := BulletItems(lines, i);
    piece, next := "<ul>" + items + "</ul>", close;
    BulletsRendered(lines, i, items, close, piece, next);
  }

  /** A run of numbered lines: one `<ol>`. */
  method NumberedList(lines: seq<string>, i: nat) returns (piece: string, next: nat)
    requires i < |lines|
    requires var t := Trim(lines[i]);
      Unclaimed(t) && !StartsWith(t, ">") && BulletMarker(t) == 0 && NumberMarker(t) > 0
    ensures i < next <= |lines|
    ensures Yields(lines, i, piece, next)
  {
    var items, close := NumberItems(lines, i);
    piece, next := "<ol>" + items + "</ol>", close;
    NumbersRendered(lines, i, items, close, piece, next);
  }

  /** Any other line: a paragraph of the trimmed line. */
  method Paragraph(lines: seq<string>, i: nat) returns (piece: string, next: nat)
    requires i < |lines|
    requires var t := Trim(lines[i]);
      Unclaimed(t) && !StartsWith(t, ">") && BulletMarker(t) == 0 && NumberMarker(t) == 0
    ensures i < next <= |lines|
    ensures Yields(lines, i, piece, next)
  {
    var content := Formatted(Trim(lines[i]));
    piece, next := "<p>" + content + "</p>", i + 1;
    ParagraphRendered(lines, i, piece, next);
  }

  /** One turn of the outer loop on the non-blank line `i`: the first rule
      that matches the trimmed line appends its HTML and moves the cursor. */
  method NextBlock(lines: seq<string>, i: nat) returns (piece: string, next: nat)
    requires i < |lines| && Trim(lines[i]) != []
    ensures i < next <= |lines| + 1
    ensures Yields(lines, i, piece, next)
  {
    var trimmed := Trim(lines[i]);
    if StartsWith(trimmed, Fence) {
      piece, next := CodeBlock(lines, i);
    } else if IsRuleLine(trimmed) {
      piece, next := "<hr>", i + 1;
      RuleRendered(lines, i, piece, next);
    } else if IsHeadingLine(trimmed) {
      piece, next := HeadingBlock(lines, i);
    } else if IsImageLine(trimmed) {
      piece, next := ImageBlock(lines, i);
    } else if StartsWith(trimmed, ">") {
      piece, next := QuoteBlock(lines, i);
    } else if BulletMarker(trimmed) > 0 {
      piece, next := BulletList(lines, i);
    } else if NumberMarker(trimmed) > 0 {
      piece, next := NumberedList(lines, i);
    } else {
      piece, next := Paragraph(lines, i);
    }
  }

  /** `parseBlockMarkdown`: blank lines are skipped, every other line starts
      the block of the first rule that matches it. */
  method ParseBlockMarkdown(text: string) returns (html: string)
    ensures html == Markdown(text)
  {
    html := "";
    var lines := Split(text, '\n');
    var i := 0;
    while i < |lines|
      invariant 0 <= i <= |lines| + 1
      invariant Markdown(text) == html + RenderAll(Scan(lines, i))
      decreases |lines| + 1 - i
    {
      if Trim(lines[i]) == [] {
        BlankTurn(lines, i);
        i := i + 1;
        continue;
      }
      var piece, next := NextBlock(lines, i);
      Emit(Markdown(text), html, RenderAll(Scan(lines, i)), piece, RenderAll(Scan(lines, next)));
      html := html + piece;
      i := next;
    }
  }
}
