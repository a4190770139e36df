/** The inline transformer `parseInlineMarkdown`
    (src/app/pipes/markdown.pipe.ts:34-54): an ordered list of global,
    leftmost, non-overlapping substitutions applied one after the other to
    already escaped text.

    Each pattern of the source has the shape "opening delimiter, a greedy run
    of characters other than the delimiter's first character, closing
    delimiter". Because the run stops exactly at the first character that
    could begin the closing delimiter, giving characters back never lets such
    a pattern match where the greedy run did not, so each regular expression
    is modelled by a deterministic scanner over maximal runs. */
module Inline {
  import opened Strings
  import opened Html

  /** The delimiter of a span rule: its character once or twice. */
  function Delim(c: char, double: bool): string {
    if double then [c, c] else [c]
  }

  function Open(tag: string): string { "<" + tag + ">" }

  function Close(tag: string): string { "</" + tag + ">" }

  // ---------------------------------------------------------------- line breaks

  /** `text.replace(/\n/g, "<br>")`. */
  function ReplaceLineBreaks(s: string): string {
    if s == [] then []
    else (if s[0] == '\n' then "<br>" else [s[0]]) + ReplaceLineBreaks(s[1..])
  }

  /** Turns each `<br>` back into a newline. */
  function RestoreLineBreaks(s: string): string
    decreases |s|
  {
    if s == [] then []
    else if StartsWith(s, "<br>") then "\n" + RestoreLineBreaks(s[4..])
    else [s[0]] + RestoreLineBreaks(s[1..])
  }

  /** On escaped text (which holds no `<`) the line-break rule loses
      nothing. */
  lemma {:induction false} LineBreaksRoundTrip(s: string)
    requires '<' !in s
    ensures RestoreLineBreaks(ReplaceLineBreaks(s)) == s
  {
    if s != [] {
      var rest := ReplaceLineBreaks(s[1..]);
      LineBreaksRoundTrip(s[1..]);
      if s[0] == '\n' {
        var t := "<br>" + rest;
        assert t[..4] == "<br>" && t[4..] == rest;
      } else {
        var t := [s[0]] + rest;
        assert t[0] == s[0] && t[1..] == rest;
      }
      assert s == [s[0]] + s[1..];
    }
  }

  // ---------------------------------------------------------------- spans

  /** Whether a span `d x d` starts `s`, with `x` a non-empty run free of
      `c`, the delimiter's character; the length of `x` if so. */
  function MatchSpan(s: string, c: char, double: bool): (r: Option<nat>)
    ensures r.Some? ==>
      var d, n := Delim(c, double), r.value;
      && n > 0 && 2 * |d| + n <= |s|
      && s[..|d|] == d && s[|d| + n..2 * |d| + n] == d
  {
    var d := Delim(c, double);
    if StartsWith(s, d) then
      var n := RunLength(s[|d|..], Not(c));
      if n > 0 && StartsWith(s[|d| + n..], d) then Some(n) else None
    else None
  }

  /** The content of a matched span holds no delimiter character. */
  lemma MatchSpanRun(s: string, c: char, double: bool)
    requires MatchSpan(s, c, double).Some?
    ensures var d, n := Delim(c, double), MatchSpan(s, c, double).value;
      forall k :: |d| <= k < |d| + n ==> s[k] != c
  {
    var d := Delim(c, double);
    RunLengthSpec(s[|d|..], Not(c));
    forall k | |d| <= k < |d| + MatchSpan(s, c, double).value ensures s[k] != c {
      assert s[k] == s[|d|..][k - |d|];
    }
  }

  /** `text.replace(/d([^c]+)d/g, "<tag>$1</tag>")`. */
  function ReplaceSpans(s: string, c: char, double: bool, tag: string): string
    decreases |s|
  {
    if s == [] then []
    else
      var m := MatchSpan(s, c, double);
      var d := Delim(c, double);
      if m.Some? then
        Open(tag) + s[|d|..|d| + m.value] + Close(tag) + ReplaceSpans(s[2 * |d| + m.value..], c, double, tag)
      else [s[0]] + ReplaceSpans(s[1..], c, double, tag)
  }

  /** Turns each `<tag>x</tag>` (with `x` free of `<`) back into `d x d`. */
  function RestoreSpans(s: string, c: char, double: bool, tag: string): string
    decreases |s|
  {
    if s == [] then []
    else if StartsWith(s, Open(tag)) then
      var rest := s[|Open(tag)|..];
      var n := RunLength(rest, Not('<'));
      if StartsWith(rest[n..], Close(tag)) then
        Delim(c, double) + rest[..n] + Delim(c, double)
          + RestoreSpans(rest[n + |Close(tag)|..], c, double, tag)
      else [s[0]] + RestoreSpans(s[1..], c, double, tag)
    else [s[0]] + RestoreSpans(s[1..], c, double, tag)
  }

  /** A span at the very start of `s` is found, whatever follows it. */
  lemma MatchSpanOf(c: char, double: bool, x: string, rest: string)
    requires x != [] && c !in x
    ensures MatchSpan(Delim(c, double) + x + Delim(c, double) + rest, c, double) == Some(|x|)
  {
    var d := Delim(c, double);
    var s := d + x + d + rest;
    assert s[..|d|] == d;
    assert s[|d|..] == x + (d + rest);
    assert (x + (d + rest))[|x|] == c;
    forall k | 0 <= k < |x| ensures (x + (d + rest))[k] != c {
      assert (x + (d + rest))[k] == x[k];
    }
    RunLengthUnique(s[|d|..], Not(c), |x|);
    assert s[|d| + |x|..] == d + rest;
    assert (d + rest)[..|d|] == d;
  }

  /** A lone span becomes one element. */
  lemma SpanReplaced(c: char, double: bool, tag: string, x: string, rest: string)
    requires x != [] && c !in x
    ensures ReplaceSpans(Delim(c, double) + x + Delim(c, double) + rest, c, double, tag)
      == Open(tag) + x + Close(tag) + ReplaceSpans(rest, c, double, tag)
  {
    var d := Delim(c, double);
    var s := d + x + d + rest;
    MatchSpanOf(c, double, x, rest);
    assert s[|d|..|d| + |x|] == x;
    assert s[2 * |d| + |x|..] == rest;
  }

  /** Text before which no span can start is copied unchanged. */
  lemma {:induction false} SpansSkipPrefix(p: string, q: string, c: char, double: bool, tag: string)
    requires c !in p
    ensures ReplaceSpans(p + q, c, double, tag) == p + ReplaceSpans(q, c, double, tag)
  {
    if p != [] {
      var s := p + q;
      assert s[0] == p[0] && s[1..] == p[1..] + q;
      assert MatchSpan(s, c, double).None?;
      SpansSkipPrefix(p[1..], q, c, double, tag);
      assert p == [p[0]] + p[1..];
    } else {
      assert p + q == q;
    }
  }

  /** Reading back one element restores its span. */
  lemma RestoreSpansElement(c: char, double: bool, tag: string, x: string, r: string)
    requires '<' !in x
    ensures RestoreSpans(Open(tag) + x + Close(tag) + r, c, double, tag)
      == Delim(c, double) + x + Delim(c, double) + RestoreSpans(r, c, double, tag)
  {
    var t := Open(tag) + x + Close(tag) + r;
    assert t[..|Open(tag)|] == Open(tag);
    var rest := t[|Open(tag)|..];
    assert rest == x + (Close(tag) + r);
    forall k | 0 <= k < |x| ensures rest[k] != '<' {
      assert rest[k] == x[k];
    }
    assert rest[|x|] == '<';
    RunLengthUnique(rest, Not('<'), |x|);
    assert rest[|x|..] == Close(tag) + r;
    assert (Close(tag) + r)[..|Close(tag)|] == Close(tag);
    assert rest[|x| + |Close(tag)|..] == r;
    assert rest[..|x|] == x;
  }

  /** Reading back a copied character other than `<` keeps it. */
  lemma RestoreSpansCopy(c: char, double: bool, tag: string, ch: char, r: string)
    requires ch != '<'
    ensures RestoreSpans([ch] + r, c, double, tag) == [ch] + RestoreSpans(r, c, double, tag)
  {
    var t := [ch] + r;
    assert t[0] == ch && Open(tag)[0] == '<';
    assert !StartsWith(t, Open(tag));
    assert t[1..] == r;
  }

  /** A matched span splits its text into delimiter, content, delimiter and
      the rest. */
  lemma MatchSpanSplit(s: string, c: char, double: bool)
    requires MatchSpan(s, c, double).Some?
    ensures var d, n := Delim(c, double), MatchSpan(s, c, double).value;
      s == d + s[|d|..|d| + n] + d + s[2 * |d| + n..]
  {
    var d, n := Delim(c, double), MatchSpan(s, c, double).value;
    assert s == s[..|d|] + s[|d|..|d| + n] + s[|d| + n..2 * |d| + n] + s[2 * |d| + n..];
  }

  /** On escaped text (which holds no `<`) a span rule loses nothing: every
      element it creates is read back as the span it came from. */
  lemma {:induction false} SpansRoundTrip(s: string, c: char, double: bool, tag: string)
    requires '<' !in s
    ensures RestoreSpans(ReplaceSpans(s, c, double, tag), c, double, tag) == s
    decreases |s|
  {
    if s != [] {
      var m := MatchSpan(s, c, double);
      var d := Delim(c, double);
      if m.Some? {
        var n := m.value;
        var x := s[|d|..|d| + n];
        var tail := s[2 * |d| + n..];
        SpansRoundTrip(tail, c, double, tag);
        RestoreSpansElement(c, double, tag, x, ReplaceSpans(tail, c, double, tag));
        MatchSpanSplit(s, c, double);
      } else {
        SpansRoundTrip(s[1..], c, double, tag);
        RestoreSpansCopy(c, double, tag, s[0], ReplaceSpans(s[1..], c, double, tag));
        FirstAndRest(s);
      }
    }
  }

  /** A double delimiter cannot start where the second character differs. */
  lemma NoDoubleStart(s: string, c: char)
    requires |s| >= 2 && s[1] != c
    ensures MatchSpan(s, c, true).None?
  {
    assert s[..2][1] == s[1] && Delim(c, true)[1] == c;
  }

  /** Where no span starts, the first character is copied. */
  lemma SpanSkip(s: string, c: char, double: bool, tag: string)
    requires s != [] && MatchSpan(s, c, double).None?
    ensures ReplaceSpans(s, c, double, tag) == [s[0]] + ReplaceSpans(s[1..], c, double, tag)
  {
  }

  lemma FirstAndRest(s: string)
    requires s != []
    ensures s == [s[0]] + s[1..]
  {
  }

  // ---------------------------------------------------------------- images and links

  /** A bracketed text followed by a parenthesised URL, as the image and link
      patterns capture it, and the length of the whole construct. */
  datatype Target = Target(text: string, url: string, len: nat)

  /** Whether `[text](url)` starts `s`, with `text` free of `]` and at least
      `minText` long and `url` non-empty and free of `)`. */
  function MatchBracketed(s: string, minText: nat): (r: Option<Target>)
    ensures r.Some? ==>
      && r.value.len <= |s|
      && s[..r.value.len] == "[" + r.value.text + "](" + r.value.url + ")"
      && ']' !in r.value.text && |r.value.text| >= minText
      && ')' !in r.value.url && r.value.url != []
  {
    if s == [] || s[0] != '[' then None
    else
      var a := RunLength(s[1..], Not(']'));
      var p := 1 + a;
      if a < minText || p + 1 >= |s| || s[p + 1] != '(' then None
      else
        var u := RunLength(s[p + 2..], Not(')'));
        var q := p + 2 + u;
        if u == 0 || q >= |s| then None
        else
          RunUpTo(s[1..], ']');
          RunUpTo(s[p + 2..], ')');
          assert s[1..p] == s[1..][..a] && s[p] == s[1..][a];
          assert s[p + 2..q] == s[p + 2..][..u] && s[q] == s[p + 2..][u];
          Bracketed(s, p, q);
          Some(Target(s[1..p], s[p + 2..q], q + 1))
  }

  /** The pieces of a bracketed construct, from the positions of its four
      punctuation characters. */
  lemma Bracketed(s: string, p: nat, q: nat)
    requires 1 <= p && p + 2 <= q < |s|
    requires s[0] == '[' && s[p] == ']' && s[p + 1] == '(' && s[q] == ')'
    ensures s[..q + 1] == "[" + s[1..p] + "](" + s[p + 2..q] + ")"
  {
    assert s[..q + 1] == s[..1] + s[1..p] + s[p..p + 2] + s[p + 2..q] + s[q..q + 1];
  }

  /** An image `![alt](url)` at the start of `s`. */
  function MatchImage(s: string): (r: Option<Target>)
    ensures r.Some? ==>
      && 1 <= r.value.len <= |s|
      && s[..r.value.len] == "![" + r.value.text + "](" + r.value.url + ")"
  {
    if s == [] || s[0] != '!' then None
    else
      var m := MatchBracketed(s[1..], 0);
      if m.None? then None
      else
        assert s[..m.value.len + 1] == "!" + s[1..][..m.value.len];
        Some(Target(m.value.text, m.value.url, m.value.len + 1))
  }

  /** The images rule: `buildImageTag(url, alt, false)` for each image. */
  function ReplaceImages(s: string): string
    decreases |s|
  {
    if s == [] then []
    else
      var m := MatchImage(s);
      if m.Some? then BuildImageTag(m.value.url, m.value.text, false) + ReplaceImages(s[m.value.len..])
      else [s[0]] + ReplaceImages(s[1..])
  }

  /** What follows the URL in a text link; unlike the image link it has no
      class attribute. */
  const LinkTail: string := "\"" + " target=\"_blank\" rel=\"noopener noreferrer\">"

  /** The link element the links rule builds. */
  function LinkTag(url: string, text: string): string {
    AnchorHead + (url + LinkTail + text) + AnchorClose
  }

  /** The links rule: one link element for each `[text](url)`. */
  function ReplaceLinks(s: string): string
    decreases |s|
  {
    if s == [] then []
    else
      var m := MatchBracketed(s, 1);
      if m.Some? then LinkTag(m.value.url, m.value.text) + ReplaceLinks(s[m.value.len..])
      else [s[0]] + ReplaceLinks(s[1..])
  }

  /** A bracketed construct at the start of `s` is found, whatever follows. */
  lemma MatchBracketedOf(t: string, u: string, rest: string, minText: nat)
    requires ']' !in t && |t| >= minText && ')' !in u && u != []
    ensures MatchBracketed("[" + t + "](" + u + ")" + rest, minText)
      == Some(Target(t, u, |t| + |u| + 4))
  {
    var s := "[" + t + "](" + u + ")" + rest;
    var p := 1 + |t|;
    assert s[1..] == t + ("](" + u + ")" + rest);
    assert s[p] == ']' && s[p + 1] == '(';
    forall k | 0 <= k < |t| ensures s[1..][k] != ']' {
      assert s[1..][k] == t[k];
    }
    RunLengthUnique(s[1..], Not(']'), |t|);
    var afterUrl := s[p + 2..];
    assert afterUrl == u + (")" + rest);
    forall k | 0 <= k < |u| ensures afterUrl[k] != ')' {
      assert afterUrl[k] == u[k];
    }
    assert s[p + 2 + |u|] == ')';
    RunLengthUnique(s[p + 2..], Not(')'), |u|);
    assert s[1..p] == t;
    assert s[p + 2..p + 2 + |u|] == u;
  }

  /** A lone image becomes the (inline) image tag. */
  lemma ImageReplaced(alt: string, url: string, rest: string)
    requires ']' !in alt && ')' !in url && url != []
    ensures ReplaceImages("![" + alt + "](" + url + ")" + rest)
      == BuildImageTag(url, alt, false) + ReplaceImages(rest)
  {
    var s := "![" + alt + "](" + url + ")" + rest;
    assert s[1..] == "[" + alt + "](" + url + ")" + rest;
    MatchBracketedOf(alt, url, rest, 0);
    assert s[|alt| + |url| + 5..] == rest;
  }

  /** A lone link becomes one link element. */
  lemma LinkReplaced(text: string, url: string, rest: string)
    requires ']' !in text && text != [] && ')' !in url && url != []
    ensures ReplaceLinks("[" + text + "](" + url + ")" + rest)
      == LinkTag(url, text) + ReplaceLinks(rest)
  {
    var s := "[" + text + "](" + url + ")" + rest;
    MatchBracketedOf(text, url, rest, 1);
    assert s[|text| + |url| + 4..] == rest;
  }

  // ---------------------------------------------------------------- the pipeline

  /** The substitutions of `parseInlineMarkdown`. */
  datatype Rule = LineBreaks | Spans(c: char, double: bool, tag: string) | Images | Links

  function ApplyRule(r: Rule, s: string): string {
    match r
    case LineBreaks => ReplaceLineBreaks(s)
    case Spans(c, double, tag) => ReplaceSpans(s, c, double, tag)
    case Images => ReplaceImages(s)
    case Links => ReplaceLinks(s)
  }

  /** The rules in the source's order: line breaks, code, strikethrough,
      `**` and `__` bold, `*` and `_` italic, images, links. */
  const InlineRules: seq<Rule> := [
    LineBreaks, Spans('`', false, "code"), Spans('~', true, "del"),
    Spans('*', true, "strong"), Spans('_', true, "strong"),
    Spans('*', false, "em"), Spans('_', false, "em"), Images, Links]

  /** Rules `k` onwards, each applied to the result of the one before. */
  function ApplyFrom(rules: seq<Rule>, k: nat, s: string): string
    requires k <= |rules|
    decreases |rules| - k
  {
    if k == |rules| then s else ApplyFrom(rules, k + 1, ApplyRule(rules[k], s))
  }

  /** `parseInlineMarkdown`. */
  function ParseInline(text: string): string {
    ApplyFrom(InlineRules, 0, text)
  }

  /** The pipeline written out stage by stage. */
  lemma InlineStages(text: string)
    ensures ParseInline(text)
      == ReplaceLinks(ReplaceImages(
           ReplaceSpans(ReplaceSpans(ReplaceSpans(ReplaceSpans(ReplaceSpans(ReplaceSpans(
             ReplaceLineBreaks(text),
             '`', false, "code"), '~', true, "del"), '*', true, "strong"), '_', true, "strong"),
             '*', false, "em"), '_', false, "em")))
  {
    var r := InlineRules;
    var s0 := text;
    var s1 := ReplaceLineBreaks(s0);
    var s2 := ReplaceSpans(s1, '`', false, "code");
    var s3 := ReplaceSpans(s2, '~', true, "del");
    var s4 := ReplaceSpans(s3, '*', true, "strong");
    var s5 := ReplaceSpans(s4, '_', true, "strong");
    var s6 := ReplaceSpans(s5, '*', false, "em");
    var s7 := ReplaceSpans(s6, '_', false, "em");
    var s8 := ReplaceImages(s7);
    var s9 := ReplaceLinks(s8);
    assert ApplyFrom(r, 9, s9) == s9;
    assert ApplyFrom(r, 8, s8) == ApplyFrom(r, 9, s9);
    assert ApplyFrom(r, 7, s7) == ApplyFrom(r, 8, s8);
    assert ApplyFrom(r, 6, s6) == ApplyFrom(r, 7, s7);
    assert ApplyFrom(r, 5, s5) == ApplyFrom(r, 6, s6);
    assert ApplyFrom(r, 4, s4) == ApplyFrom(r, 5, s5);
    assert ApplyFrom(r, 3, s3) == ApplyFrom(r, 4, s4);
    assert ApplyFrom(r, 2, s2) == ApplyFrom(r, 3, s3);
    assert ApplyFrom(r, 1, s1) == ApplyFrom(r, 2, s2);
    assert ApplyFrom(r, 0, s0) == ApplyFrom(r, 1, s1);
  }

  /** The line-break rule leaves text without newlines unchanged. */
  lemma {:induction false} LineBreaksFixed(s: string)
    requires '\n' !in s
    ensures ReplaceLineBreaks(s) == s
    decreases |s|
  {
    if s != [] {
      assert s[0] != '\n' && '\n' !in s[1..];
      LineBreaksFixed(s[1..]);
      assert s == [s[0]] + s[1..];
    }
  }

  /** A span rule leaves text without its delimiter character unchanged. */
  lemma SpansFixed(s: string, c: char, double: bool, tag: string)
    requires c !in s
    ensures ReplaceSpans(s, c, double, tag) == s
  {
    SpansSkipPrefix(s, [], c, double, tag);
    assert s + [] == s;
  }

  /** The images rule leaves text without `[` unchanged. */
  lemma {:induction false} ImagesFixed(s: string)
    requires '[' !in s
    ensures ReplaceImages(s) == s
    decreases |s|
  {
    if s != [] {
      assert MatchImage(s).None? by {
        if |s| > 1 { assert s[1..][0] == s[1]; }
      }
      ImagesFixed(s[1..]);
      assert s == [s[0]] + s[1..];
    }
  }

  /** The links rule leaves text without `[` unchanged. */
  lemma {:induction false} LinksFixed(s: string)
    requires '[' !in s
    ensures ReplaceLinks(s) == s
    decreases |s|
  {
    if s != [] {
      LinksFixed(s[1..]);
      assert s == [s[0]] + s[1..];
    }
  }

  /** No character that starts an inline construct. */
  predicate Plain(s: string) {
    '\n' !in s && '`' !in s && '~' !in s && '*' !in s && '_' !in s && '[' !in s
  }

  /** Text with no inline syntax comes out as it went in. */
  lemma PlainUnchanged(s: string)
    requires Plain(s)
    ensures ParseInline(s) == s
  {
    InlineStages(s);
    LineBreaksFixed(s);
    SpansFixed(s, '`', false, "code");
    SpansFixed(s, '~', true, "del");
    SpansFixed(s, '*', true, "strong");
    SpansFixed(s, '_', true, "strong");
    SpansFixed(s, '*', false, "em");
    SpansFixed(s, '_', false, "em");
    ImagesFixed(s);
    LinksFixed(s);
  }

  lemma BoldTriggers(x: string)
    requires Plain(x)
    ensures var s := "**" + x + "**"; '\n' !in s && '`' !in s && '~' !in s
    ensures var t := "<strong>" + x + "</strong>"; '_' !in t && '*' !in t && '[' !in t
  {
  }

  lemma ItalicTriggers(x: string)
    requires Plain(x)
    ensures var s := "*" + x + "*"; '\n' !in s && '`' !in s && '~' !in s && '_' !in s
    ensures var t := "<em>" + x + "</em>"; '_' !in t && '[' !in t
  {
  }

  lemma StrongOf(x: string)
    requires x != [] && '*' !in x
    ensures ReplaceSpans("**" + x + "**", '*', true, "strong") == "<strong>" + x + "</strong>"
  {
    assert Delim('*', true) == "**";
    assert "**" + x + "**" == Delim('*', true) + x + Delim('*', true) + [];
    SpanReplaced('*', true, "strong", x, []);
    assert Open("strong") == "<strong>" && Close("strong") == "</strong>";
    assert ReplaceSpans([], '*', true, "strong") == [];
    assert Open("strong") + x + Close("strong") + [] == "<strong>" + x + "</strong>";
  }

  lemma EmOf(x: string)
    requires x != [] && '*' !in x
    ensures ReplaceSpans("*" + x + "*", '*', false, "em") == "<em>" + x + "</em>"
  {
    assert "*" + x + "*" == Delim('*', false) + x + Delim('*', false) + [];
    SpanReplaced('*', false, "em", x, []);
    assert Open("em") + x + Close("em") + [] == "<em>" + x + "</em>";
  }

  lemma SingleStarsNotBold(x: string)
    requires x != [] && '*' !in x
    ensures ReplaceSpans("*" + x + "*", '*', true, "strong") == "*" + x + "*"
  {
    var s := "*" + x + "*";
    var tail := ReplaceSpans(x + "*", '*', true, "strong");
    assert ReplaceSpans("*", '*', true, "strong") == "*";
    SpansSkipPrefix(x, "*", '*', true, "strong");
    assert s[1..] == x + "*";
    NoDoubleStart(s, '*');
    SpanSkip(s, '*', true, "strong");
    assert [s[0]] == "*";
    assert tail == x + "*";
    assert "*" + (x + "*") == "*" + x + "*";
  }

  /** When only the `**` rule changes the text, the pipeline's result is
      that rule's result. */
  lemma OnlyBoldFires(s: string, t: string)
    requires '\n' !in s && '`' !in s && '~' !in s
    requires ReplaceSpans(s, '*', true, "strong") == t
    requires '_' !in t && '*' !in t && '[' !in t
    ensures ParseInline(s) == t
  {
    InlineStages(s);
    LineBreaksFixed(s);
    SpansFixed(s, '`', false, "code");
    SpansFixed(s, '~', true, "del");
    SpansFixed(t, '_', true, "strong");
    SpansFixed(t, '*', false, "em");
    SpansFixed(t, '_', false, "em");
    ImagesFixed(t);
    LinksFixed(t);
  }

  /** When only the `*` rule changes the text, the pipeline's result is that
      rule's result. */
  lemma OnlyItalicFires(s: string, t: string)
    requires '\n' !in s && '`' !in s && '~' !in s && '_' !in s
    requires ReplaceSpans(s, '*', true, "strong") == s
    requires ReplaceSpans(s, '*', false, "em") == t
    requires '_' !in t && '[' !in t
    ensures ParseInline(s) == t
  {
    InlineStages(s);
    LineBreaksFixed(s);
    SpansFixed(s, '`', false, "code");
    SpansFixed(s, '~', true, "del");
    SpansFixed(s, '_', true, "strong");
    SpansFixed(t, '_', false, "em");
    ImagesFixed(t);
    LinksFixed(t);
  }

  /** Bold runs before italic: `**x**` becomes one `<strong>` element and no
      `<em>` appears. */
  lemma BoldBeforeItalic(x: string)
    requires Plain(x) && x != []
    ensures ParseInline("**" + x + "**") == "<strong>" + x + "</strong>"
  {
    var s, t := "**" + x + "**", "<strong>" + x + "</strong>";
    StrongOf(x);
    BoldTriggers(x);
    OnlyBoldFires(s, t);
  }

  /** A single asterisk pair is italic: the bold rule before it does not
      take it. */
  lemma ItalicAlone(x: string)
    requires Plain(x) && x != []
    ensures ParseInline("*" + x + "*") == "<em>" + x + "</em>"
  {
    var s, t := "*" + x + "*", "<em>" + x + "</em>";
    SingleStarsNotBold(x);
    EmOf(x);
    ItalicTriggers(x);
    OnlyItalicFires(s, t);
  }

  /** The images rule leaves text without `!` unchanged. */
  lemma {:induction false} ImagesFixedNoBang(s: string)
    requires '!' !in s
    ensures ReplaceImages(s) == s
    decreases |s|
  {
    if s != [] {
      ImagesFixedNoBang(s[1..]);
      FirstAndRest(s);
    }
  }

  /** When only the images rule changes the text, the pipeline's result is
      that rule's result. */
  lemma OnlyImagesFire(s: string, t: string)
    requires '\n' !in s && '`' !in s && '~' !in s && '*' !in s && '_' !in s
    requires ReplaceImages(s) == t && '[' !in t
    ensures ParseInline(s) == t
  {
    InlineStages(s);
    LineBreaksFixed(s);
    SpansFixed(s, '`', false, "code");
    SpansFixed(s, '~', true, "del");
    SpansFixed(s, '*', true, "strong");
    SpansFixed(s, '_', true, "strong");
    SpansFixed(s, '*', false, "em");
    SpansFixed(s, '_', false, "em");
    LinksFixed(t);
  }

  lemma ImageTriggers(alt: string, url: string)
    requires Plain(alt) && Plain(url)
    ensures var s := "![" + alt + "](" + url + ")";
      '\n' !in s && '`' !in s && '~' !in s && '*' !in s && '_' !in s
  {
  }

  lemma ImageTagPlain(alt: string, url: string)
    requires '[' !in alt && '[' !in url
    ensures '[' !in BuildImageTag(url, alt, false)
  {
    var img := ImgTag(url, alt);
    ImgPiecesPlain();
    AnchorPiecesPlain();
    assert '[' !in img;
    assert '[' !in Anchored(url, img);
  }

  /** The fixed pieces of the `<img>` markup hold no `[`. */
  lemma ImgPiecesPlain()
    ensures '[' !in ImgHead && '[' !in ImgMiddle && '[' !in ImgTail
  {
  }

  /** The fixed pieces of the image link hold no `[`. */
  lemma AnchorPiecesPlain()
    ensures '[' !in AnchorHead && '[' !in AnchorTail && '[' !in AnchorClose
  {
  }

  /** Images run before links: `![alt](url)` becomes the image tag, never a
      link whose text is `![alt`. */
  lemma ImageBeforeLink(alt: string, url: string)
    requires Plain(alt) && ']' !in alt
    requires Plain(url) && ')' !in url && url != []
    ensures ParseInline("![" + alt + "](" + url + ")") == BuildImageTag(url, alt, false)
  {
    var s := "![" + alt + "](" + url + ")";
    ImageReplaced(alt, url, []);
    assert s + [] == s;
    assert ReplaceImages(s) == BuildImageTag(url, alt, false) + [];
    ImageTriggers(alt, url);
    ImageTagPlain(alt, url);
    OnlyImagesFire(s, BuildImageTag(url, alt, false));
  }

  /** A single delimiter character not followed by another is copied. */
  lemma LoneDelimiterKept(c: char, tag: string, v: string)
    requires v != [] && v[0] != c
    ensures ReplaceSpans([c] + v, c, true, tag) == [c] + ReplaceSpans(v, c, true, tag)
  {
    var s := [c] + v;
    assert s[1] == v[0];
    assert s[..2] != Delim(c, true);
    assert MatchSpan(s, c, true).None?;
    assert s[0] == c && s[1..] == v;
  }

  /** Two delimiters apart, each single, are not a double-delimiter span. */
  lemma SinglesNotDouble(c: char, tag: string, x: string, q: string)
    requires c !in x && x != [] && c !in q && q != []
    ensures ReplaceSpans([c] + x + [c] + q, c, true, tag) == [c] + x + [c] + q
  {
    var r := x + ([c] + q);
    assert [c] + x + [c] + q == [c] + r;
    LoneDelimiterKept(c, tag, r);
    SpansSkipPrefix(x, [c] + q, c, true, tag);
    LoneDelimiterKept(c, tag, q);
    SpansFixed(q, c, true, tag);
  }

  /** Two underscores apart are not a `__` span. */
  lemma UnderscoresNotBold(p: string, x: string, q: string)
    requires '_' !in p && '_' !in x && x != [] && '_' !in q && q != []
    ensures ReplaceSpans(p + "_" + x + "_" + q, '_', true, "strong") == p + "_" + x + "_" + q
  {
    var r := "_" + x + "_" + q;
    assert p + "_" + x + "_" + q == p + r;
    SpansSkipPrefix(p, r, '_', true, "strong");
    SinglesNotDouble('_', "strong", x, q);
  }

  /** A single-delimiter span after delimiter-free text is replaced. */
  lemma SingleSpanAfter(c: char, tag: string, p: string, x: string, q: string)
    requires c !in p && c !in x && x != [] && c !in q
    ensures ReplaceSpans(p + [c] + x + [c] + q, c, false, tag) == p + Open(tag) + x + Close(tag) + q
  {
    var r := [c] + x + [c] + q;
    var out := Open(tag) + x + Close(tag) + q;
    Regroup(p, [c], x, [c], q);
    Regroup(p, Open(tag), x, Close(tag), q);
    SingleSpan(c, tag, x, q);
    SpansSkipPrefix(p, r, c, false, tag);
  }

  /** A single-delimiter span followed by delimiter-free text is replaced. */
  lemma SingleSpan(c: char, tag: string, x: string, q: string)
    requires c !in x && x != [] && c !in q
    ensures ReplaceSpans([c] + x + [c] + q, c, false, tag) == Open(tag) + x + Close(tag) + q
  {
    assert Delim(c, false) == [c];
    SpanReplaced(c, false, tag, x, q);
    SpansFixed(q, c, false, tag);
  }

  /** Two underscores apart are an `_` span. */
  lemma UnderscoresItalic(p: string, x: string, q: string)
    requires '_' !in p && '_' !in x && x != [] && '_' !in q
    ensures ReplaceSpans(p + "_" + x + "_" + q, '_', false, "em") == p + "<em>" + x + "</em>" + q
  {
    assert Open("em") == "<em>" && Close("em") == "</em>";
    SingleSpanAfter('_', "em", p, x, q);
  }

  /** When only the `__` rule (without effect), the `_` rule and the links rule
      act, the pipeline's result is their composition. */
  lemma UnderscoreThenLinks(s: string, s2: string)
    requires '\n' !in s && '`' !in s && '~' !in s && '*' !in s
    requires ReplaceSpans(s, '_', true, "strong") == s
    requires ReplaceSpans(s, '_', false, "em") == s2 && '!' !in s2
    ensures ParseInline(s) == ReplaceLinks(s2)
  {
    InlineStages(s);
    LineBreaksFixed(s);
    SpansFixed(s, '`', false, "code");
    SpansFixed(s, '~', true, "del");
    SpansFixed(s, '*', true, "strong");
    SpansFixed(s, '*', false, "em");
    ImagesFixedNoBang(s2);
  }

  /** Text free of inline syntax, `!`, `]` and `)`. */
  predicate Bare(s: string) {
    Plain(s) && '!' !in s && ']' !in s && ')' !in s
  }

  lemma UnderscoreLinkPieces(text: string, u1: string, u2: string, u3: string)
    requires Bare(text) && Bare(u1) && Bare(u2) && Bare(u3) && text != [] && u2 != []
    ensures var s := "[" + text + "](" + u1 + "_" + u2 + "_" + u3 + ")";
      && '\n' !in s && '`' !in s && '~' !in s && '*' !in s
      && s == ("[" + text + "](" + u1) + "_" + u2 + "_" + (u3 + ")")
    ensures var p := "[" + text + "](" + u1;
      && '_' !in p && '_' !in (u3 + ")")
      && p + "<em>" + u2 + "</em>" + (u3 + ")")
        == "[" + text + "](" + (u1 + "<em>" + u2 + "</em>" + u3) + ")" + []
      && '!' !in p + "<em>" + u2 + "</em>" + (u3 + ")")
      && ')' !in u1 + "<em>" + u2 + "</em>" + u3
  {
  }

  /** The `_` italic rule runs before the image and link rules, so a pair
      of underscores inside a link's URL becomes an `<em>` element inside
      the `href` attribute. */
  lemma UnderscoresInsideLinkUrl(text: string, u1: string, u2: string, u3: string)
    requires Bare(text) && Bare(u1) && Bare(u2) && Bare(u3) && text != [] && u2 != []
    ensures ParseInline("[" + text + "](" + u1 + "_" + u2 + "_" + u3 + ")")
      == LinkTag(u1 + "<em>" + u2 + "</em>" + u3, text)
  {
    var s := "[" + text + "](" + u1 + "_" + u2 + "_" + u3 + ")";
    var p, q := "[" + text + "](" + u1, u3 + ")";
    var url := u1 + "<em>" + u2 + "</em>" + u3;
    UnderscoreLinkPieces(text, u1, u2, u3);
    UnderscoresNotBold(p, u2, q);
    UnderscoresItalic(p, u2, q);
    var s2 := p + "<em>" + u2 + "</em>" + q;
    UnderscoreThenLinks(s, s2);
    LinkReplaced(text, url, []);
    ReplaceLinksEmpty();
  }

  /** The links rule builds a link whatever the URL's scheme: unlike the
      image rule, it makes no `isSafeUrl` test, so a `javascript:` URL
      becomes a live link. */
  lemma LinkAnyScheme(text: string, url: string)
    requires Bare(text) && Bare(url) && text != [] && url != []
    ensures ParseInline("[" + text + "](" + url + ")") == LinkTag(url, text)
  {
    var s := "[" + text + "](" + url + ")";
    LinkTriggers(text, url);
    SpansFixed(s, '_', true, "strong");
    SpansFixed(s, '_', false, "em");
    UnderscoreThenLinks(s, s);
    LinkReplaced(text, url, []);
    assert s + [] == s;
    ReplaceLinksEmpty();
  }

  /** What a bare link holds: none of the characters that earlier rules act
      on. */
  lemma LinkTriggers(text: string, url: string)
    requires Bare(text) && Bare(url)
    ensures var s := "[" + text + "](" + url + ")";
      '\n' !in s && '`' !in s && '~' !in s && '*' !in s && '_' !in s && '!' !in s
  {
  }

  /** A URL whose scheme does not start with `h` (a `javascript:` URL, say)
      is not safe for an image, yet a link to it is built: the link rule
      checks no scheme. */
  lemma UnsafeLinkBuilt(text: string, url: string)
    requires Bare(text) && Bare(url) && text != [] && url != []
    requires LowerAscii(url[0]) != 'h'
    ensures !IsSafeUrl(url)
    ensures ParseInline("[" + text + "](" + url + ")") == LinkTag(url, text)
  {
    NotPrefixAt(url, "http://", 0);
    NotPrefixAt(url, "https://", 0);
    LinkAnyScheme(text, url);
  }

  lemma ReplaceLinksEmpty()
    ensures ReplaceLinks([]) == []
  {
  }
}
