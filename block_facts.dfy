/** What the block walk promises: where code blocks and runs end, that code
    is kept verbatim (only escaped), the heading level, one list item per
    consumed line, and the order in which the line rules are tried. */
module BlockFacts {
  import opened Strings
  import opened Html
  import opened Inline
  import opened Blocks

  // ---------------------------------------------------------------- where runs end

  /** The end of a run is the first line at or after `i` that the run does
      not take: any `j` with that description is it. */
  lemma {:induction false} RunEndUnique(lines: seq<string>, i: nat, j: nat, run: Run)
    requires i <= j <= |lines|
    requires forall k :: i <= k < j ==> Continues(run, lines[k])
    requires j < |lines| ==> !Continues(run, lines[j])
    ensures RunEnd(lines, i, run) == j
    decreases j - i
  {
    if i < j {
      RunEndUnique(lines, i + 1, j, run);
    }
  }

  /** A blank line ends every quote and list run. */
  lemma BlankEndsRuns(line: string)
    requires Trim(line) == []
    ensures !Continues(QuoteRun, line) && !Continues(BulletRun, line) && !Continues(NumberRun, line)
  {
    assert !StartsWith(Trim(line), ">");
  }

  // ---------------------------------------------------------------- code blocks

  /** A fence closed at line `j` holds exactly the lines strictly between the
      two fences, and the walk resumes after the closing fence. */
  lemma FenceClosed(lines: seq<string>, i: nat, j: nat)
    requires i < j < |lines|
    requires var t := Trim(lines[i]); t != [] && StartsWith(t, Fence)
    requires StartsWith(Trim(lines[j]), Fence)
    requires forall k :: i < k < j ==> !StartsWith(Trim(lines[k]), Fence)
    ensures Next(lines, i) == Step(Some(Code(LangOf(Trim(lines[i])), lines[i + 1..j])), j + 1)
  {
    RunEndUnique(lines, i + 1, j, CodeRun);
    FenceTurn(lines, i);
  }

  /** A fence that is never closed takes every remaining line, and nothing
      follows the code block. */
  lemma FenceUnclosed(lines: seq<string>, i: nat)
    requires i < |lines|
    requires var t := Trim(lines[i]); t != [] && StartsWith(t, Fence)
    requires forall k :: i < k < |lines| ==> !StartsWith(Trim(lines[k]), Fence)
    ensures Next(lines, i) == Step(Some(Code(LangOf(Trim(lines[i])), lines[i + 1..])), |lines| + 1)
    ensures Scan(lines, i) == [Code(LangOf(Trim(lines[i])), lines[i + 1..])]
  {
    RunEndUnique(lines, i + 1, |lines|, CodeRun);
    FenceTurn(lines, i);
    assert lines[i + 1..|lines|] == lines[i + 1..];
    var b := Code(LangOf(Trim(lines[i])), lines[i + 1..]);
    assert Scan(lines, |lines| + 1) == [];
    assert Then(lines, i) == [b] + Scan(lines, |lines| + 1);
  }

  /** Only an unclosed fence moves the cursor past the last line: every other
      turn stops at or before the end of the lines. */
  lemma PastEndOnlyUnclosedFence(lines: seq<string>, i: nat)
    requires i < |lines| && Next(lines, i).next == |lines| + 1
    ensures StartsWith(Trim(lines[i]), Fence)
    ensures forall k :: i < k < |lines| ==> !StartsWith(Trim(lines[k]), Fence)
  {
    var t := Trim(lines[i]);
    assert Classify(t).FenceLine?;
    var j := RunEnd(lines, i + 1, CodeRun);
    assert Next(lines, i).next == j + 1;
    RunEndSpec(lines, i + 1, CodeRun);
  }

  /** Mapping over a non-empty sequence maps its head, then its tail. */
  lemma MapCons(f: string -> string, xs: seq<string>)
    requires xs != []
    ensures Map(f, xs) == [f(xs[0])] + Map(f, xs[1..])
  {
    MapAt(f, xs);
    MapAt(f, xs[1..]);
    var r := [f(xs[0])] + Map(f, xs[1..]);
    assert |r| == |Map(f, xs)|;
    forall k | 0 <= k < |r| ensures r[k] == Map(f, xs)[k] {
      if k > 0 {
        assert r[k] == Map(f, xs[1..])[k - 1] == f(xs[1..][k - 1]);
      }
    }
  }

  /** Escaping the lines one by one and joining them with newlines is
      escaping the joined text: the newline needs no escaping. */
  lemma {:induction false} JoinEscaped(ls: seq<string>)
    ensures Join(Map(EscapeHtml, ls), "\n") == EscapeHtml(Join(ls, "\n"))
    decreases |ls|
  {
    if ls == [] {
    } else if |ls| == 1 {
      MapCons(EscapeHtml, ls);
      assert Map(EscapeHtml, ls) == [EscapeHtml(ls[0])];
    } else {
      var rest := Join(ls[1..], "\n");
      var e0, erest := EscapeHtml(ls[0]), Map(EscapeHtml, ls[1..]);
      var es := Map(EscapeHtml, ls);
      MapCons(EscapeHtml, ls);
      assert es[0] == e0 && es[1..] == erest;
      JoinEscaped(ls[1..]);
      assert Join(es, "\n") == e0 + "\n" + Join(erest, "\n");
      NewlineKept();
      EscapeHtmlAppend(ls[0], "\n");
      EscapeHtmlAppend(ls[0] + "\n", rest);
      assert Join(ls, "\n") == ls[0] + "\n" + rest;
    }
  }

  /** The newline is not one of the escaped characters. */
  lemma NewlineKept()
    ensures EscapeHtml("\n") == "\n"
  {
    var n := "\n";
    assert n[1..] == [];
    assert EscapeChar(n[0]) == n;
  }

  /** A code block's body is its lines joined by newlines and escaped, and
      nothing else: no inline rule touches it, decoding the entities gives
      the lines back, and it holds no markup. */
  lemma CodeVerbatim(lang: string, ls: seq<string>)
    ensures var body := EscapeHtml(Join(ls, "\n"));
      && RenderBlock(Code(lang, ls)) == "<pre><code" + LangAttr(lang) + ">" + body + "</code></pre>"
      && Unescape(body) == Join(ls, "\n")
      && NoMarkup(body)
  {
    JoinEscaped(ls);
    RenderCode(lang, ls);
    UnescapeEscapeHtml(Join(ls, "\n"));
    EscapeHtmlSafe(Join(ls, "\n"));
  }

  // ---------------------------------------------------------------- headings

  /** The level of a heading is the number of its `#`, at most 6, and both
      tags carry that one digit. */
  lemma HeadingLevel(lines: seq<string>, i: nat)
    requires i < |lines|
    requires var t := Trim(lines[i]);
      t != [] && !StartsWith(t, Fence) && !IsRuleLine(t) && IsHeadingLine(t)
    ensures var t := Trim(lines[i]);
      var hashes := RunLength(t, Is('#'));
      var level := if hashes < 6 then hashes else 6;
      var tag := [DigitChar(level)];
      && 1 <= level <= 6
      && Next(lines, i) == Step(Some(Heading(level, HeadingText(t))), i + 1)
      && RenderBlock(Heading(level, HeadingText(t)))
        == "<h" + tag + ">" + Formatted(HeadingText(t)) + "</h" + tag + ">"
  {
    var t := Trim(lines[i]);
    var hashes := RunLength(t, Is('#'));
    var level := if hashes < 6 then hashes else 6;
    HeadingTurn(lines, i);
    RenderHeading(level, HeadingText(t));
    assert NatText(level) == [DigitChar(level)];
  }

  // ---------------------------------------------------------------- block images

  /** A block image reads back as the escaped URL and alt text, inside the
      image-block container, linked to the escaped URL exactly when the URL
      is safe. */
  lemma ImageBlockReadBack(alt: string, url: string)
    ensures ReadImageTag(RenderBlock(Picture(alt, url)))
      == Some(ImageParts(EscapeHtml(url), EscapeHtml(alt),
           if IsSafeUrl(url) then Some(EscapeHtml(url)) else None, true))
  {
    EscapeHtmlSafe(url);
    EscapeHtmlSafe(alt);
    SafeUrlEscaped(url);
    BuildImageTagReadBack(EscapeHtml(url), EscapeHtml(alt), true);
  }

  // ---------------------------------------------------------------- runs

  /** A bullet line starts a list that takes the following bullet lines up
      to the first line that is not one (a blank line included), with one
      item per line taken: the line without its marker. */
  lemma BulletListRun(lines: seq<string>, i: nat)
    requires i < |lines|
    requires var t := Trim(lines[i]); Unclaimed(t) && !StartsWith(t, ">") && BulletMarker(t) > 0
    ensures var s := Next(lines, i);
      && s.block.Some? && s.block.value.Bullets? && i < s.next <= |lines|
      && (forall k :: i <= k < s.next ==> BulletMarker(Trim(lines[k])) > 0 && Trim(lines[k]) != [])
      && (s.next < |lines| ==> BulletMarker(Trim(lines[s.next])) == 0)
      && |s.block.value.items| == s.next - i
      && (forall k :: 0 <= k < s.next - i ==> s.block.value.items[k] == BulletItem(lines[i + k]))
  {
    BulletTurn(lines, i);
    var j := RunEnd(lines, i, BulletRun);
    RunEndSpec(lines, i, BulletRun);
    MapAt(BulletItem, lines[i..j]);
    forall k | i <= k < j ensures Trim(lines[k]) != [] {
      if Trim(lines[k]) == [] {
        BlankEndsRuns(lines[k]);
      }
    }
  }

  /** A numbered line starts a list that takes the following numbered lines
      up to the first line that is not one, with one item per line taken:
      the line without its number, which is dropped. */
  lemma NumberListRun(lines: seq<string>, i: nat)
    requires i < |lines|
    requires var t := Trim(lines[i]);
      Unclaimed(t) && !StartsWith(t, ">") && BulletMarker(t) == 0 && NumberMarker(t) > 0
    ensures var s := Next(lines, i);
      && s.block.Some? && s.block.value.Numbered? && i < s.next <= |lines|
      && (forall k :: i <= k < s.next ==> NumberMarker(Trim(lines[k])) > 0 && Trim(lines[k]) != [])
      && (s.next < |lines| ==> NumberMarker(Trim(lines[s.next])) == 0)
      && |s.block.value.items| == s.next - i
      && (forall k :: 0 <= k < s.next - i ==> s.block.value.items[k] == NumberItem(lines[i + k]))
  {
    NumberTurn(lines, i);
    var j := RunEnd(lines, i, NumberRun);
    RunEndSpec(lines, i, NumberRun);
    MapAt(NumberItem, lines[i..j]);
    forall k | i <= k < j ensures Trim(lines[k]) != [] {
      if Trim(lines[k]) == [] {
        BlankEndsRuns(lines[k]);
      }
    }
  }

  /** A `>` line starts a blockquote that takes the following `>` lines up
      to the first line that is not one, each without its `>` and trimmed. */
  lemma QuoteLineRun(lines: seq<string>, i: nat)
    requires i < |lines|
    requires var t := Trim(lines[i]); Unclaimed(t) && StartsWith(t, ">")
    ensures var s := Next(lines, i);
      && s.block.Some? && s.block.value.Quote? && i < s.next <= |lines|
      && (forall k :: i <= k < s.next ==> StartsWith(Trim(lines[k]), ">"))
      && (s.next < |lines| ==> !StartsWith(Trim(lines[s.next]), ">"))
      && |s.block.value.lines| == s.next - i
      && (forall k :: 0 <= k < s.next - i ==> s.block.value.lines[k] == Trim(DropFirst(Trim(lines[i + k]))))
  {
    QuoteTurn(lines, i);
    var j := RunEnd(lines, i, QuoteRun);
    RunEndSpec(lines, i, QuoteRun);
    MapAt(QuoteText, lines[i..j]);
  }

  /** An ordered list item loses its number: two lines that differ only in
      their digits give the same item. */
  lemma NumberIgnored(d1: string, d2: string, s: string)
    requires d1 != [] && d2 != [] && s != [] && s[0] == '.'
    requires forall k :: 0 <= k < |d1| ==> IsDigit(d1[k])
    requires forall k :: 0 <= k < |d2| ==> IsDigit(d2[k])
    ensures NumberMarker(d1 + s) > 0 <==> NumberMarker(d2 + s) > 0
    ensures NumberMarker(d1 + s) > 0 ==>
      (d1 + s)[NumberMarker(d1 + s)..] == (d2 + s)[NumberMarker(d2 + s)..]
  {
    DigitsThenDot(d1, s);
    DigitsThenDot(d2, s);
  }

  /** After a digit run ended by `.`, the number marker is measured on what
      follows the digits alone. */
  lemma DigitsThenDot(d: string, s: string)
    requires d != [] && s != [] && s[0] == '.'
    requires forall k :: 0 <= k < |d| ==> IsDigit(d[k])
    ensures RunLength(d + s, Digit) == |d|
    ensures NumberMarker(d + s) > 0 <==> 1 < |s| && IsSpace(s[1])
    ensures NumberMarker(d + s) > 0 ==>
      NumberMarker(d + s) == |d| + 1 + RunLength(s[1..], Space)
      && (d + s)[NumberMarker(d + s)..] == s[1 + RunLength(s[1..], Space)..]
  {
    var t := d + s;
    forall k | 0 <= k < |d| ensures In(Digit, t[k]) {
      assert t[k] == d[k];
    }
    assert t[|d|] == '.';
    RunLengthUnique(t, Digit, |d|);
    assert t[|d| + 1..] == s[1..];
  }

  // ---------------------------------------------------------------- rule order

  /** A rule line is a rule whatever rules follow it: the rule test comes
      before the heading, image, quote and list tests. */
  lemma RuleWins(t: string)
    requires IsRuleLine(t)
    ensures Classify(t) == RuleLine
  {
    assert t[0] != Fence[0];
  }

  /** Three or more of one of `-`, `*`, `_` make a rule; fewer, or mixed or
      spaced-out characters, do not. */
  lemma RuleLineExamples()
    ensures IsRuleLine("---") && IsRuleLine("***") && IsRuleLine("___") && IsRuleLine("-----")
    ensures !IsRuleLine("--") && !IsRuleLine("- - -") && !IsRuleLine("-*-")
  {
    assert "--"[0] == '-' && |"--"| == 2;
    assert "- - -"[1] != "- - -"[0];
    assert "-*-"[1] != "-*-"[0];
  }

  /** Spaced-out dashes are a bullet item holding the remaining dashes. */
  lemma SpacedDashes()
    ensures Classify("- - -") == BulletLine && BulletItem("- - -") == "- -"
  {
    var t := "- - -";
    assert !IsRuleLine(t) by { assert t[1] != t[0]; }
    RunLengthUnique(t, Is('#'), 0);
    assert !IsHeadingLine(t);
    assert !IsImageLine(t) by { assert t[0] != '!'; }
    assert !StartsWith(t, ">") && !StartsWith(t, Fence);
    TrimKeeps(t);
    RunLengthUnique(t[1..], Space, 1);
    assert BulletMarker(t) == 2;
    assert t[2..] == "- -";
  }

  /** The empty text has no blocks. */
  lemma EmptyDocument()
    ensures Markdown("") == ""
  {
    assert Split("", '\n') == [""];
    assert Trim("") == [];
    BlankTurn([""], 0);
  }
}
