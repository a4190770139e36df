/** The pipe's shared helpers (src/app/pipes/markdown.pipe.ts:10-32): the
    entity escaper, the URL scheme test and the image-tag builder. */
module Html {
  import opened Strings

  /** The five characters the escaper's table maps to entities. */
  predicate IsSpecial(c: char) {
    c == '&' || c == '<' || c == '>' || c == '"' || c == '\''
  }

  /** One character through the escaper's table; characters outside the table
      are kept. */
  function EscapeChar(c: char): string {
    if c == '&' then "&amp;"
    else if c == '<' then "&lt;"
    else if c == '>' then "&gt;"
    else if c == '"' then "&quot;"
    else if c == '\'' then "&#39;"
    else [c]
  }

  /** `escapeHtml`: one left-to-right pass replacing each of `& < > " '` by its
      entity. */
  function EscapeHtml(s: string): string
  {
    if s == [] then [] else EscapeChar(s[0]) + EscapeHtml(s[1..])
  }

  /** The escaped text never holds a markup-significant `<`, `>`, `"` or `'`,
      and is at least as long as the input. */
  lemma {:induction false} EscapeHtmlSafe(s: string)
    ensures |EscapeHtml(s)| >= |s|
    ensures NoMarkup(EscapeHtml(s))
  {
    if s != [] {
      EscapeHtmlSafe(s[1..]);
      EscapeCharSafe(s[0]);
      NoneOfFour(EscapeChar(s[0]), EscapeHtml(s[1..]));
    }
  }

  predicate NoMarkup(s: string) {
    '<' !in s && '>' !in s && '"' !in s && '\'' !in s
  }

  lemma EscapeCharSafe(c: char)
    ensures NoMarkup(EscapeChar(c))
  {
  }

  lemma NoneOfFour(a: string, b: string)
    requires NoMarkup(a) && NoMarkup(b)
    ensures NoMarkup(a + b)
  {
  }

  /** Escaping is a homomorphism of concatenation: it works character by
      character, with no look-ahead. */
  lemma {:induction false} EscapeHtmlAppend(a: string, b: string)
    ensures EscapeHtml(a + b) == EscapeHtml(a) + EscapeHtml(b)
  {
    if a != [] {
      assert (a + b)[0] == a[0];
      assert (a + b)[1..] == a[1..] + b;
      EscapeHtmlAppend(a[1..], b);
    } else {
      assert a + b == b;
    }
  }

  /** Text without any of the five characters is copied unchanged. */
  lemma {:induction false} EscapeHtmlPlain(s: string)
    requires forall k :: 0 <= k < |s| ==> !IsSpecial(s[k])
    ensures EscapeHtml(s) == s
  {
    if s != [] {
      EscapeHtmlPlain(s[1..]);
    }
  }

  /** The decoder of the five entities, reading left to right; any other
      character, a lone `&` included, is kept. */
  function Unescape(s: string): string
    decreases |s|
  {
    if s == [] then []
    else if StartsWith(s, "&amp;") then "&" + Unescape(s[5..])
    else if StartsWith(s, "&lt;") then "<" + Unescape(s[4..])
    else if StartsWith(s, "&gt;") then ">" + Unescape(s[4..])
    else if StartsWith(s, "&quot;") then "\"" + Unescape(s[6..])
    else if StartsWith(s, "&#39;") then "'" + Unescape(s[5..])
    else [s[0]] + Unescape(s[1..])
  }

  /** Decoding one escaped character gives the character back and leaves
      the rest of the text to the next step. */
  lemma UnescapeStep(c: char, rest: string)
    ensures Unescape(EscapeChar(c) + rest) == [c] + Unescape(rest)
  {
    var e := EscapeChar(c) + rest;
    if c == '&' {
      assert e[..5] == "&amp;" && e[5..] == rest;
    } else if c == '<' {
      assert e[..4] == "&lt;" && e[4..] == rest;
      assert !StartsWith(e, "&amp;") by { assert e[1] == 'l'; }
    } else if c == '>' {
      assert e[..4] == "&gt;" && e[4..] == rest;
      assert e[1] == 'g';
      assert !StartsWith(e, "&amp;") && !StartsWith(e, "&lt;");
    } else if c == '"' {
      assert e[..6] == "&quot;" && e[6..] == rest;
      assert e[1] == 'q';
      assert !StartsWith(e, "&amp;") && !StartsWith(e, "&lt;") && !StartsWith(e, "&gt;");
    } else if c == '\'' {
      assert e[..5] == "&#39;" && e[5..] == rest;
      assert e[1] == '#';
      assert !StartsWith(e, "&amp;") && !StartsWith(e, "&lt;") && !StartsWith(e, "&gt;");
      assert !StartsWith(e, "&quot;");
    } else {
      assert e[0] == c && e[1..] == rest;
      assert !StartsWith(e, "&amp;") && !StartsWith(e, "&lt;") && !StartsWith(e, "&gt;");
      assert !StartsWith(e, "&quot;") && !StartsWith(e, "&#39;");
    }
  }

  /** Escaping loses nothing: decoding the escaped text gives back the input,
      every character in its place. */
  lemma {:induction false} UnescapeEscapeHtml(s: string)
    ensures Unescape(EscapeHtml(s)) == s
  {
    if s != [] {
      UnescapeStep(s[0], EscapeHtml(s[1..]));
      UnescapeEscapeHtml(s[1..]);
      assert s == [s[0]] + s[1..];
    }
  }

  /** `isSafeUrl`: `/^https?:\/\//i`, an `http://` or `https://` prefix in any
      letter case. */
  predicate IsSafeUrl(url: string) {
    StartsWithIgnoreCase(url, "http://") || StartsWithIgnoreCase(url, "https://")
  }

  /** Escaping the URL before the scheme test does not change its verdict
      for a prefix free of the five characters. */
  lemma {:induction false} EscapeKeepsPrefix(u: string, p: string)
    requires forall k :: 0 <= k < |p| ==> !IsSpecial(p[k])
    ensures StartsWithIgnoreCase(EscapeHtml(u), p) <==> StartsWithIgnoreCase(u, p)
    decreases |p|
  {
    if p != [] && u != [] {
      var e := EscapeHtml(u);
      assert e == EscapeChar(u[0]) + EscapeHtml(u[1..]);
      if IsSpecial(u[0]) {
        assert e[0] == '&';
        assert LowerAscii(e[0]) != LowerAscii(p[0]);
        assert LowerAscii(u[0]) != LowerAscii(p[0]);
      } else {
        EscapeKeepsPrefix(u[1..], p[1..]);
        assert e[1..] == EscapeHtml(u[1..]);
        if StartsWithIgnoreCase(u, p) {
          assert forall k :: 0 <= k < |p| - 1 ==> u[1..][k] == u[k + 1] && p[1..][k] == p[k + 1];
        }
        if StartsWithIgnoreCase(e, p) {
          assert forall k :: 0 <= k < |p| - 1 ==> e[1..][k] == e[k + 1] && p[1..][k] == p[k + 1];
        }
      }
    }
  }

  /** The block-image path tests the escaped URL, the inline path the
      already escaped text: both give the verdict of the raw URL. */
  lemma SafeUrlEscaped(u: string)
    ensures IsSafeUrl(EscapeHtml(u)) <==> IsSafeUrl(u)
  {
    EscapeKeepsPrefix(u, "http://");
    EscapeKeepsPrefix(u, "https://");
  }

  /** Only the two web schemes pass; script and data URLs do not. */
  lemma SafeUrlRejects()
    ensures !IsSafeUrl("javascript:alert(1)")
    ensures !IsSafeUrl("data:image/png;base64,AAAA")
    ensures !IsSafeUrl("//example.org/a.png")
    ensures !IsSafeUrl("http:/x")
  {
    NotPrefixAt("javascript:alert(1)", "http://", 0);
    NotPrefixAt("javascript:alert(1)", "https://", 0);
    NotPrefixAt("data:image/png;base64,AAAA", "http://", 0);
    NotPrefixAt("data:image/png;base64,AAAA", "https://", 0);
    NotPrefixAt("//example.org/a.png", "http://", 0);
    NotPrefixAt("//example.org/a.png", "https://", 0);
    NotPrefixAt("http:/x", "http://", 6);
    NotPrefixAt("http:/x", "https://", 4);
  }

  /** One differing position rules out a case-insensitive prefix. */
  lemma NotPrefixAt(s: string, p: string, k: nat)
    requires k < |p| && (k < |s| ==> LowerAscii(s[k]) != LowerAscii(p[k]))
    ensures !StartsWithIgnoreCase(s, p)
  {
  }

  const DivOpen: string := "<div class=\"md-image-block\">"
  const DivClose: string := "</div>"
  const AnchorHead: string := "<a href=\""
  const AnchorTail: string :=
    "\"" + " target=\"_blank\"" + " rel=\"noopener noreferrer\"" + " class=\"md-image-link\">"
  const AnchorClose: string := "</a>"
  const ImgHead: string := "<img src=\""
  const ImgMiddle: string := "\"" + " alt=\""
  const ImgTail: string := "\"" + " class=\"md-image\" loading=\"lazy\">"

  /** The bare `<img>` element of `buildImageTag`. */
  function ImgTag(url: string, alt: string): string {
    ImgHead + (url + ImgMiddle + (alt + ImgTail))
  }

  /** The image link of `buildImageTag` around `inner`. */
  function Anchored(url: string, inner: string): string {
    AnchorHead + (url + AnchorTail + inner) + AnchorClose
  }

  /** The image-block container of `buildImageTag` around `inner`. */
  function Blocked(inner: string): string {
    DivOpen + inner + DivClose
  }

  /** `buildImageTag(url, alt, block)`: the `<img>`, inside a link to the same
      URL when the URL is safe, inside the image-block `<div>` when `block`. */
  function BuildImageTag(url: string, alt: string, block: bool): string {
    var img := ImgTag(url, alt);
    var linked := if IsSafeUrl(url) then Anchored(url, img) else img;
    if block then Blocked(linked) else linked
  }

  /** What a reader of the generated markup recovers from it. */
  datatype ImageParts = ImageParts(src: string, alt: string, href: Option<string>, block: bool)


  /** Reads a quoted attribute value that is followed by `tail`: the value
      and what follows the tail. */
  function ReadAttr(s: string, tail: string): Option<(string, string)> {
    var n := RunLength(s, Not('"'));
    if StartsWith(s[n..], tail) then Some((s[..n], s[n + |tail|..])) else None
  }

  /** Reads the attributes of a bare `<img>` element after its head. */
  function ReadImgAttrs(s: string): Option<(string, string)> {
    var first := ReadAttr(s, ImgMiddle);
    if first.None? then None
    else
      var second := ReadAttr(first.value.1, ImgTail);
      if second.Some? && second.value.1 == [] then Some((first.value.0, second.value.0)) else None
  }

  /** Reads a bare `<img>` element occupying all of `s`. */
  function ReadImg(s: string): Option<(string, string)> {
    if StartsWith(s, ImgHead) then ReadImgAttrs(s[|ImgHead|..]) else None
  }

  /** Reads an image link (or a bare `<img>`) occupying all of `s`: the
      source, the alt text and the link target if there is a link. */
  function ReadLinkedImg(s: string): Option<(string, string, Option<string>)> {
    if StartsWith(s, AnchorHead) && EndsWith(s, AnchorClose) && |AnchorHead| + |AnchorClose| <= |s| then
      var link := ReadAttr(s[|AnchorHead|..|s| - |AnchorClose|], AnchorTail);
      var img := if link.Some? then ReadImg(link.value.1) else None;
      if img.Some? then Some((img.value.0, img.value.1, Some(link.value.0))) else None
    else
      var img := ReadImg(s);
      if img.Some? then Some((img.value.0, img.value.1, None)) else None
  }

  /** Reads the output of `buildImageTag` back into its parts. */
  function ReadImageTag(s: string): Option<ImageParts> {
    var block := StartsWith(s, DivOpen) && EndsWith(s, DivClose) && |DivOpen| + |DivClose| <= |s|;
    var inner := if block then s[|DivOpen|..|s| - |DivClose|] else s;
    var img := ReadLinkedImg(inner);
    if img.Some? then Some(ImageParts(img.value.0, img.value.1, img.value.2, block)) else None
  }

  lemma ReadAttrOf(v: string, tail: string, rest: string)
    requires '"' !in v && tail != [] && tail[0] == '"'
    ensures ReadAttr(v + tail + rest, tail) == Some((v, rest))
  {
    var s := v + tail + rest;
    assert s[|v|] == '"';
    forall k | 0 <= k < |v| ensures s[k] != '"' {
      assert s[k] == v[k];
    }
    RunLengthUnique(s, Not('"'), |v|);
    assert s[|v|..] == tail + rest;
    assert (tail + rest)[..|tail|] == tail;
    assert s[..|v|] == v;
    assert s[|v| + |tail|..] == rest;
  }

  /** A piece framed by a known head and tail is read back whole. */
  lemma Framed(p: string, m: string, q: string)
    ensures StartsWith(p + m + q, p) && EndsWith(p + m + q, q)
    ensures |p| + |q| <= |p + m + q| && (p + m + q)[|p|..|p + m + q| - |q|] == m
  {
    var s := p + m + q;
    assert s[..|p|] == p;
    assert s[|s| - |q|..] == q;
    assert s[|p|..|s| - |q|] == m;
  }

  /** One differing position rules out a prefix. */
  lemma DiffersAt(s: string, p: string, k: nat)
    requires k < |s| && k < |p| && s[k] != p[k]
    ensures !StartsWith(s, p)
  {
    if |p| <= |s| { assert s[..|p|][k] == s[k]; }
  }

  lemma ReadImgOf(url: string, alt: string)
    requires '"' !in url && '"' !in alt
    ensures ReadImg(ImgTag(url, alt)) == Some((url, alt))
  {
    var rest := url + ImgMiddle + (alt + ImgTail);
    Framed(ImgHead, rest, []);
    assert ImgTag(url, alt) == ImgHead + rest + [];
    ReadAttrOf(url, ImgMiddle, alt + ImgTail);
    assert alt + ImgTail == alt + ImgTail + [];
    ReadAttrOf(alt, ImgTail, []);
    assert ReadImgAttrs(rest) == Some((url, alt));
  }

  /** The character at a position inside a known head. */
  lemma HeadAt(p: string, rest: string, k: nat)
    requires k < |p|
    ensures (p + rest)[k] == p[k]
  {
  }

  lemma ImgNotAnchored(url: string, alt: string)
    ensures !StartsWith(ImgTag(url, alt), AnchorHead)
  {
    HeadAt(ImgHead, url + ImgMiddle + (alt + ImgTail), 1);
    DiffersAt(ImgTag(url, alt), AnchorHead, 1);
  }

  lemma ImgNotBlocked(url: string, alt: string)
    ensures !StartsWith(ImgTag(url, alt), DivOpen)
  {
    HeadAt(ImgHead, url + ImgMiddle + (alt + ImgTail), 1);
    DiffersAt(ImgTag(url, alt), DivOpen, 1);
  }

  lemma AnchoredNotBlocked(url: string, inner: string)
    ensures !StartsWith(Anchored(url, inner), DivOpen)
  {
    HeadAt(AnchorHead, (url + AnchorTail + inner) + AnchorClose, 1);
    assert Anchored(url, inner) == AnchorHead + ((url + AnchorTail + inner) + AnchorClose);
    DiffersAt(Anchored(url, inner), DivOpen, 1);
  }

  lemma ReadBareImgOf(url: string, alt: string)
    requires '"' !in url && '"' !in alt
    ensures ReadLinkedImg(ImgTag(url, alt)) == Some((url, alt, None))
  {
    ImgNotAnchored(url, alt);
    ReadImgOf(url, alt);
  }

  lemma ReadAnchoredImgOf(url: string, alt: string)
    requires '"' !in url && '"' !in alt
    ensures ReadLinkedImg(Anchored(url, ImgTag(url, alt))) == Some((url, alt, Some(url)))
  {
    var img := ImgTag(url, alt);
    ReadImgOf(url, alt);
    Framed(AnchorHead, url + AnchorTail + img, AnchorClose);
    ReadAttrOf(url, AnchorTail, img);
  }

  lemma ReadUnblocked(s: string)
    requires !StartsWith(s, DivOpen)
    ensures ReadImageTag(s) == (var i := ReadLinkedImg(s);
      if i.Some? then Some(ImageParts(i.value.0, i.value.1, i.value.2, false)) else None)
  {
  }

  lemma ReadBlocked(s: string)
    ensures ReadImageTag(Blocked(s)) == (var i := ReadLinkedImg(s);
      if i.Some? then Some(ImageParts(i.value.0, i.value.1, i.value.2, true)) else None)
  {
    Framed(DivOpen, s, DivClose);
  }

  /** The image tag says what the builder was asked for: the `<img>` carries
      the URL and the alt text, it is inside a link to the same URL exactly
      when the URL is an `http(s)` one, and inside the image-block `<div>`
      exactly when `block` holds. Both callers pass escaped URL and alt
      text, which hold no `"`. */
  lemma BuildImageTagReadBack(url: string, alt: string, block: bool)
    requires '"' !in url && '"' !in alt
    ensures ReadImageTag(BuildImageTag(url, alt, block))
      == Some(ImageParts(url, alt, if IsSafeUrl(url) then Some(url) else None, block))
  {
    var img := ImgTag(url, alt);
    var linked := if IsSafeUrl(url) then Anchored(url, img) else img;
    ReadBareImgOf(url, alt);
    ReadAnchoredImgOf(url, alt);
    if block {
      ReadBlocked(linked);
    } else {
      ImgNotBlocked(url, alt);
      AnchoredNotBlocked(url, img);
      ReadUnblocked(linked);
    }
  }

  /** The anchor wraps the image exactly for safe URLs: a script URL gets a
      bare (possibly block-wrapped) `<img>`. */
  lemma UnsafeImageNotLinked(alt: string, block: bool)
    requires '"' !in alt
    ensures ReadImageTag(BuildImageTag("javascript:alert(1)", alt, block))
      == Some(ImageParts("javascript:alert(1)", alt, None, block))
  {
    SafeUrlRejects();
    BuildImageTagReadBack("javascript:alert(1)", alt, block);
  }
}
