/** The image rule runs before the link rule (src/app/pipes/markdown.pipe.ts:48-52),
    and the link pattern's URL is any run free of `)`. So a link whose URL
    holds an image, `[t](![a](u)w)`, first becomes `[t](<img src="u" …>w)`,
    and then an anchor whose `href` holds the whole `<img …>` tag. Its first
    `"` ends the `href` value early, which leaves the user's `u` outside any
    quotes as more attributes of `<a>`. The pipe marks its output as trusted
    HTML, so nothing removes them afterwards.

    This module states that behaviour as written. It also gives a corrected
    link rule, whose URL may not hold `"` or `<`, and proves three things
    about it: every link it builds keeps its `href` intact, the image is
    left inside its quotes, and on text without `"` or `<` it agrees with the
    source's rule. */
module LinkInjection {
  import opened Strings
  import opened Html
  import opened Inline

  /** The `href` value an HTML reader takes from a link element: everything
      after `<a href="` up to the next `"`. */
  function HrefValue(link: string): string
    requires StartsWith(link, AnchorHead)
  {
    var rest := link[|AnchorHead|..];
    rest[..RunLength(rest, Not('"'))]
  }

  /** A head that ends in its only `"`: `<img src="` or `<a href="`. */
  predicate QuotedHead(h: string) {
    h != [] && h[|h| - 1] == '"' && '"' !in h[..|h| - 1]
  }

  lemma ImgHeadQuoted()
    ensures QuotedHead(ImgHead)
  {
  }

  lemma AnchorHeadQuoted()
    ensures QuotedHead(AnchorHead)
  {
  }

  /** After a quoted head, the value read stops at the head's quote. */
  lemma ValueStopsAtHead(h: string, rest: string)
    requires QuotedHead(h)
    ensures RunLength(h + rest, Not('"')) == |h| - 1
  {
    var s := h + rest;
    forall k | 0 <= k < |h| - 1 ensures In(Not('"'), s[k]) {
      assert s[k] == h[..|h| - 1][k];
    }
    assert s[|h| - 1] == h[|h| - 1];
    RunLengthUnique(s, Not('"'), |h| - 1);
  }

  /** The markup the image rule builds starts with a quoted head directly
      followed by the image's URL. */
  function ImageHead(u: string): string {
    if IsSafeUrl(u) then AnchorHead else ImgHead
  }

  /** A head, then `u`, then the rest. */
  lemma HeadThenUrl(h: string, u: string, x: string, y: string)
    ensures h + (u + x + y) == h + u + (x + y)
  {
  }

  lemma ImageStartsWithUrl(u: string, a: string)
    ensures QuotedHead(ImageHead(u))
    ensures exists r :: BuildImageTag(u, a, false) == ImageHead(u) + u + r
  {
    var img := ImgTag(u, a);
    HeadThenUrl(ImgHead, u, ImgMiddle, a + ImgTail);
    assert img == ImgHead + u + (ImgMiddle + (a + ImgTail));
    if IsSafeUrl(u) {
      AnchorHeadQuoted();
      HeadThenUrl(AnchorHead, u, AnchorTail, img);
      assert Anchored(u, img) == AnchorHead + u + (AnchorTail + img) + AnchorClose;
      assert Anchored(u, img) == AnchorHead + u + (AnchorTail + img + AnchorClose);
    } else {
      ImgHeadQuoted();
    }
  }

  /** The pieces of the image markup hold no `)`. */
  lemma ImgPiecesOpen()
    ensures ')' !in ImgHead && ')' !in ImgMiddle && ')' !in ImgTail
  {
  }

  lemma AnchorPiecesOpen()
    ensures ')' !in AnchorHead && ')' !in AnchorTail && ')' !in AnchorClose
  {
  }

  /** The image markup holds no `)`, so the link pattern's URL runs over it. */
  lemma ImageTagOpen(u: string, a: string)
    requires ')' !in u && ')' !in a
    ensures ')' !in BuildImageTag(u, a, false)
  {
    ImgPiecesOpen();
    AnchorPiecesOpen();
    assert ')' !in ImgTag(u, a);
  }

  /** The images rule copies a prefix without `!`. */
  lemma {:induction false} ImagesSkipPrefix(p: string, q: string)
    requires '!' !in p
    ensures ReplaceImages(p + q) == p + ReplaceImages(q)
    decreases |p|
  {
    if p != [] {
      var s := p + q;
      assert s[0] == p[0] && s[1..] == p[1..] + q;
      assert MatchImage(s).None?;
      ImagesSkipPrefix(p[1..], q);
      FirstAndRest(p);
    } else {
      assert p + q == q;
    }
  }

  /** The nested link holds none of the characters the first seven rules
      act on. */
  lemma NestedTriggers(t: string, a: string, u: string, w: string)
    requires Bare(t) && Bare(a) && Bare(u) && Bare(w)
    ensures var s := "[" + t + "](" + ("![" + a + "](" + u + ")") + w + ")";
      '\n' !in s && '`' !in s && '~' !in s && '*' !in s && '_' !in s
  {
  }

  lemma Regroup3(p: string, x: string, y: string, z: string)
    ensures p + x + y + z == p + (x + (y + z))
    ensures p + (x + (y + z)) == p + (x + y) + z + []
  {
  }

  /** The images rule turns `[t](![a](u)w)` into `[t](<image markup>w)`. */
  lemma ImageInsideLinkUrl(t: string, a: string, u: string, w: string)
    requires Bare(t) && Bare(a) && Bare(u) && Bare(w) && u != []
    ensures ReplaceImages("[" + t + "](" + ("![" + a + "](" + u + ")") + w + ")")
      == "[" + t + "](" + (BuildImageTag(u, a, false) + w) + ")" + []
  {
    var p := "[" + t + "](";
    var img := "![" + a + "](" + u + ")";
    var q := w + ")";
    var v := BuildImageTag(u, a, false);
    Regroup3(p, img, w, ")");
    ImagesSkipPrefix(p, img + q);
    ImageReplaced(a, u, q);
    ImagesFixedNoBang(q);
    Regroup3(p, v, w, ")");
  }

  /** The first seven rules leave a text without their characters alone, so
      the pipeline is the links rule after the images rule. */
  lemma LastTwoRules(s: string)
    requires '\n' !in s && '`' !in s && '~' !in s && '*' !in s && '_' !in s
    ensures ParseInline(s) == ReplaceLinks(ReplaceImages(s))
  {
    InlineStages(s);
    LineBreaksFixed(s);
    SpansFixed(s, '`', false, "code");
    SpansFixed(s, '~', true, "del");
    SpansFixed(s, '*', true, "strong");
    SpansFixed(s, '_', true, "strong");
    SpansFixed(s, '*', false, "em");
    SpansFixed(s, '_', false, "em");
  }

  /** As written: a link whose URL holds an image becomes one anchor whose
      `href` holds the whole image markup. */
  lemma LinkWrapsImage(t: string, a: string, u: string, w: string)
    requires Bare(t) && Bare(a) && Bare(u) && Bare(w) && t != [] && u != []
    ensures ParseInline("[" + t + "](" + ("![" + a + "](" + u + ")") + w + ")")
      == LinkTag(BuildImageTag(u, a, false) + w, t)
  {
    var s := "[" + t + "](" + ("![" + a + "](" + u + ")") + w + ")";
    var v := BuildImageTag(u, a, false) + w;
    NestedTriggers(t, a, u, w);
    ImageInsideLinkUrl(t, a, u, w);
    LastTwoRules(s);
    ImageTagOpen(u, a);
    assert v != [] by { ImageStartsWithUrl(u, a); }
    LinkReplaced(t, v, []);
    ReplaceLinksEmpty();
  }

  /** As written, the `href` of that anchor ends at the image's first `"`:
      the value read is the image's head without its quote, which is not
      the URL the link captured, and the user's `u` comes right after that
      closing quote, outside any attribute value. */
  lemma HrefEndsEarly(t: string, a: string, u: string, w: string)
    ensures var v := BuildImageTag(u, a, false) + w;
      var link := LinkTag(v, t);
      var h := ImageHead(u);
      && StartsWith(link, AnchorHead)
      && HrefValue(link) == h[..|h| - 1]
      && HrefValue(link) != v
      && StartsWith(link[|AnchorHead| + |h|..], u)
  {
    var v := BuildImageTag(u, a, false) + w;
    var link := LinkTag(v, t);
    var h := ImageHead(u);
    ImageStartsWithUrl(u, a);
    var r :| BuildImageTag(u, a, false) == h + u + r;
    var tail := r + w + LinkTail + t + AnchorClose;
    LinkShape(AnchorHead, h, u, r, w, LinkTail, t, AnchorClose);
    assert link == AnchorHead + (h + (u + tail));
    ValueStopsAtHead(h, u + tail);
    HrefOf(link, h, u + tail);
  }

  lemma LinkShape(hd: string, h: string, u: string, r: string, w: string, lt: string, t: string, cl: string)
    ensures hd + (h + u + r + w + lt + t) + cl == hd + (h + (u + (r + w + lt + t + cl)))
  {
  }

  /** Reading the value after a quoted head `h`, and what follows that quote. */
  lemma HrefOf(link: string, h: string, x: string)
    requires QuotedHead(h) && link == AnchorHead + (h + x)
    requires RunLength(h + x, Not('"')) == |h| - 1
    ensures StartsWith(link, AnchorHead)
    ensures HrefValue(link) == h[..|h| - 1]
    ensures link[|AnchorHead| + |h|..] == x
  {
    assert link[..|AnchorHead|] == AnchorHead;
    assert link[|AnchorHead|..] == h + x;
    assert (h + x)[..|h| - 1] == h[..|h| - 1];
    assert link[|AnchorHead| + |h|..] == (h + x)[|h|..];
  }

  // ---------------------------------------------------------------- corrected rule

  /** A link whose URL is free of `"` and `<` as well as `)`: the pattern
      `\[([^\]]+)\]\(([^\)"<]+)\)`. A URL run that meets `"` or `<` before
      its `)` does not match. */
  function MatchStrictLink(s: string): (r: Option<Target>)
    ensures r.Some? ==> '"' !in r.value.url && '<' !in r.value.url
  {
    var m := MatchBracketed(s, 1);
    if m.Some? && '"' !in m.value.url && '<' !in m.value.url then m else None
  }

  /** The corrected links rule. */
  function ReplaceStrictLinks(s: string): string
    decreases |s|
  {
    if s == [] then []
    else
      var m := MatchStrictLink(s);
      if m.Some? then LinkTag(m.value.url, m.value.text) + ReplaceStrictLinks(s[m.value.len..])
      else [s[0]] + ReplaceStrictLinks(s[1..])
  }

  /** The inline transformer with the corrected links rule in last place. */
  function ParseInlineStrict(text: string): string {
    ReplaceStrictLinks(ReplaceImages(
      ReplaceSpans(ReplaceSpans(ReplaceSpans(ReplaceSpans(ReplaceSpans(ReplaceSpans(
        ReplaceLineBreaks(text),
        '`', false, "code"), '~', true, "del"), '*', true, "strong"), '_', true, "strong"),
        '*', false, "em"), '_', false, "em")))
  }

  /** Every link the corrected rule builds keeps its `href` whole: the value
      read is exactly the URL the link captured. */
  lemma StrictHrefIntact(s: string)
    requires MatchStrictLink(s).Some?
    ensures var m := MatchStrictLink(s).value;
      var link := LinkTag(m.url, m.text);
      StartsWith(link, AnchorHead) && HrefValue(link) == m.url
  {
    var m := MatchStrictLink(s).value;
    var link := LinkTag(m.url, m.text);
    var rest := m.url + (LinkTail + m.text + AnchorClose);
    assert link == AnchorHead + rest;
    assert link[|AnchorHead|..] == rest;
    assert rest[|m.url|] == '"';
    forall k | 0 <= k < |m.url| ensures In(Not('"'), rest[k]) {
      assert rest[k] == m.url[k];
    }
    RunLengthUnique(rest, Not('"'), |m.url|);
    assert rest[..|m.url|] == m.url;
  }

  /** The corrected rule copies a prefix without `[`. */
  lemma {:induction false} StrictLinksSkipPrefix(p: string, q: string)
    requires '[' !in p
    ensures ReplaceStrictLinks(p + q) == p + ReplaceStrictLinks(q)
    decreases |p|
  {
    if p != [] {
      var s := p + q;
      assert s[0] == p[0] && s[1..] == p[1..] + q;
      assert MatchBracketed(s, 1).None?;
      StrictLinksSkipPrefix(p[1..], q);
      FirstAndRest(p);
    } else {
      assert p + q == q;
    }
  }

  /** The image markup holds no `[`. */
  lemma ImageMarkupNoBracket(u: string, a: string)
    requires '[' !in u && '[' !in a
    ensures '[' !in BuildImageTag(u, a, false)
  {
    ImageTagPlain(a, u);
  }

  /** Corrected: the link around the image is not built, so the image
      markup (and the user's `u` inside its quotes) is left whole. */
  lemma StrictKeepsImage(t: string, a: string, u: string, w: string)
    requires Bare(t) && Bare(a) && Bare(u) && Bare(w) && t != [] && u != []
    ensures ParseInlineStrict("[" + t + "](" + ("![" + a + "](" + u + ")") + w + ")")
      == "[" + t + "](" + (BuildImageTag(u, a, false) + w) + ")"
  {
    var s := "[" + t + "](" + ("![" + a + "](" + u + ")") + w + ")";
    var v := BuildImageTag(u, a, false) + w;
    var s8 := "[" + t + "](" + v + ")";
    NestedTriggers(t, a, u, w);
    ImageInsideLinkUrl(t, a, u, w);
    assert s8 + [] == s8;
    StrictStages(s);
    NestedUrl(u, a, w);
    StrictLeavesNested(t, v);
  }

  /** The first seven rules leave a text without their characters alone, so
      the corrected pipeline is the corrected links rule after the images
      rule. */
  lemma StrictStages(s: string)
    requires '\n' !in s && '`' !in s && '~' !in s && '*' !in s && '_' !in s
    ensures ParseInlineStrict(s) == ReplaceStrictLinks(ReplaceImages(s))
  {
    LineBreaksFixed(s);
    SpansFixed(s, '`', false, "code");
    SpansFixed(s, '~', true, "del");
    SpansFixed(s, '*', true, "strong");
    SpansFixed(s, '_', true, "strong");
    SpansFixed(s, '*', false, "em");
    SpansFixed(s, '_', false, "em");
  }

  /** The image markup followed by user text: no `)` or `[`, and a `"`. */
  lemma NestedUrl(u: string, a: string, w: string)
    requires Bare(a) && Bare(u) && Bare(w) && u != []
    ensures var v := BuildImageTag(u, a, false) + w;
      ')' !in v && '[' !in v && '"' in v
  {
    var v := BuildImageTag(u, a, false) + w;
    ImageTagOpen(u, a);
    ImageMarkupNoBracket(u, a);
    ImageStartsWithUrl(u, a);
    var h := ImageHead(u);
    assert v[|h| - 1] == h[|h| - 1];
  }

  /** The corrected rule leaves `[t](v)` as it is when `v` holds a `"`. */
  lemma StrictLeavesNested(t: string, v: string)
    requires ']' !in t && '[' !in t && t != [] && ')' !in v && '[' !in v && '"' in v
    ensures var s := "[" + t + "](" + v + ")";
      ReplaceStrictLinks(s) == s
  {
    var s := "[" + t + "](" + v + ")";
    StrictRejectsQuoted(t, v);
    assert s[1..] == t + "](" + v + ")";
    StrictLinksSkipPrefix(s[1..], []);
    assert s[1..] + [] == s[1..];
    ReplaceStrictLinksEmpty();
    FirstAndRest(s);
  }

  /** A bracketed link whose URL holds `"` is not matched, and the corrected
      rule moves on by one character. */
  lemma StrictRejectsQuoted(t: string, v: string)
    requires ']' !in t && t != [] && ')' !in v && '"' in v
    ensures var s := "[" + t + "](" + v + ")";
      ReplaceStrictLinks(s) == [s[0]] + ReplaceStrictLinks(s[1..])
  {
    var s := "[" + t + "](" + v + ")";
    MatchBracketedOf(t, v, [], 1);
    assert s + [] == s;
    assert MatchStrictLink(s).None?;
  }

  /** On text free of `"` and `<` (escaped text before any rule has added
      markup) the corrected rule builds the same links as the source's. */
  lemma {:induction false} StrictAgrees(s: string)
    requires '"' !in s && '<' !in s
    ensures ReplaceStrictLinks(s) == ReplaceLinks(s)
    decreases |s|
  {
    if s != [] {
      var m := MatchBracketed(s, 1);
      if m.Some? {
        var x := m.value;
        var pre := "[" + x.text + "](";
        forall k | 0 <= k < |x.url| ensures x.url[k] == s[|pre| + k] {
          assert s[..x.len][|pre| + k] == x.url[k];
        }
        assert '"' !in x.url && '<' !in x.url;
        assert MatchStrictLink(s) == m;
        StrictAgrees(s[x.len..]);
      } else {
        assert MatchStrictLink(s).None?;
        StrictAgrees(s[1..]);
      }
    }
  }

  lemma ReplaceStrictLinksEmpty()
    ensures ReplaceStrictLinks([]) == []
  {
  }
}
