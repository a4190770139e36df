# Markdown pipe, modelled in Dafny

This project models the Angular `markdown` pipe (`src/app/pipes/markdown.pipe.ts`).
The pipe turns a Markdown string into HTML that is marked as trusted. It has
five parts:

- `escapeHtml` replaces `& < > " '` with their entities.
- `isSafeUrl` accepts only `http://` and `https://` URLs, in any letter case.
- `buildImageTag` builds an `<img>`. It wraps the image in a link only when
  the URL is safe, and in a `<div>` only for a block image.
- `parseInlineMarkdown` runs nine global substitutions in a fixed order:
  line breaks, code, strike, two bold forms, two italic forms, images, links.
- `parseBlockMarkdown` splits the text on `\n` and walks the lines with a
  cursor. On each line it tries, in order: blank line, fenced code block,
  horizontal rule, heading, block image, block quote, bullet list,
  numbered list, paragraph.

`transform` ties these together. Empty input gives `""`. Otherwise it returns
the block parser's HTML behind the sanitizer's trust marker. If the parser
throws, it returns the escaped input instead.

The Dafny files follow that structure:

- `strings.dfy` (module `Strings`) holds the JavaScript string primitives the
  pipe relies on. It has `trim` with the ECMAScript white-space set,
  `split`/`join` on one character, the `\s`, `\w` and `\d` classes, and
  maximal runs of a class.
- `html.dfy` (module `Html`) holds `escapeHtml`, its inverse `Unescape`,
  `isSafeUrl` and `buildImageTag`. It also has a reader that recovers the
  parts of a generated image tag.
- `inline.dfy` (module `Inline`) holds the nine inline rules. `InlineRules`
  lists them in source order and `ParseInline` folds them over the text.
  Each regular expression is a deterministic scanner over maximal runs. The
  patterns are "delimiter, a run free of the delimiter's first character,
  delimiter", so backtracking never finds a match the greedy run missed.
- `blocks.dfy` (module `Blocks`) is the specification of the block parser:
  - `Classify` gives the first branch a trimmed line takes;
  - `Next` gives the block one loop turn adds and where the cursor goes;
  - `Scan` gives the blocks of the whole text;
  - `RenderAll` gives their HTML;
  - `Markdown(text)` combines these into the result of `parseBlockMarkdown`.
- `scanner.dfy` (module `Scanner`) holds the block parser as an imperative
  method with the source's loops. It is proved to return `Markdown(text)`.
- `block_facts.dfy` (module `BlockFacts`) holds what the block walk
  guarantees: fences, headings, quote and list runs, blank lines.
- `pipe.dfy` (module `Pipe`) holds `transform`.
- `link_injection.dfy` (module `LinkInjection`) shows how the image and link
  rules, run in the source's order, let a link's URL end its `href` early
  (see Findings). It also gives a corrected link rule that keeps the `href`
  intact. `ParseInline` itself keeps the source's rule, so the rest of the
  model describes the pipe as it is.

## Model

| member | source | states |
|---|---|---|
| `Strings.TrimSpec` | src/app/pipes/markdown.pipe.ts:63 | `trim` keeps one contiguous piece of the line and drops only white space from both ends. The piece neither starts nor ends with white space. It is empty exactly when the line is all white space, which is what the blank-line test at line 66 relies on. |
| `Strings.TrimIdempotent` | src/app/pipes/markdown.pipe.ts:63 | Trimming an already trimmed line changes nothing. |
| `Strings.JoinSplit` | src/app/pipes/markdown.pipe.ts:58 | Joining the pieces of `text.split("\n")` with `\n` gives the text back, so no character is lost by splitting. |
| `Strings.SplitJoin` | src/app/pipes/markdown.pipe.ts:58 | Splitting a `\n`-join of pieces free of `\n` gives the pieces back. |
| `Strings.Trim` | src/app/pipes/markdown.pipe.ts:63 | `String.prototype.trim`: the line without its leading and trailing ECMAScript white space. `Strings.TrimSpec` and `Strings.TrimIdempotent` state its properties. |
| `Strings.Split` | src/app/pipes/markdown.pipe.ts:58 | `split` on one character: at least one piece, and no piece holds the separator. `Strings.JoinSplit` and `Strings.SplitJoin` state that it is the inverse of joining. |
| `Html.EscapeHtml` | src/app/pipes/markdown.pipe.ts:10-19 | One pass over the text that replaces each of `& < > " '` by its entity and copies every other character. `Html.UnescapeEscapeHtml` states that `Html.Unescape` inverts it. |
| `Html.EscapeHtmlSafe` | src/app/pipes/markdown.pipe.ts:10-19 | The escaped text holds none of `<`, `>`, `"`, `'` and is never shorter than the input. |
| `Html.EscapeHtmlPlain` | src/app/pipes/markdown.pipe.ts:10-19 | Text without any of the five special characters comes out unchanged. |
| `Html.EscapeHtmlAppend` | src/app/pipes/markdown.pipe.ts:18 | The replacement is global and character by character: escaping a concatenation is concatenating the escapes. |
| `Html.UnescapeEscapeHtml` | src/app/pipes/markdown.pipe.ts:10-19 | Decoding the five entities gives back exactly the input. Every other character is copied in order, and each special character becomes its own entity. |
| `Html.SafeUrlEscaped` | src/app/pipes/markdown.pipe.ts:21-23 | The scheme test gives the same verdict on the escaped URL as on the raw one (block images test the escaped URL, line 107). |
| `Html.SafeUrlRejects` | src/app/pipes/markdown.pipe.ts:21-23 | `javascript:`, `data:`, protocol-relative and `http:/` URLs fail the test. |
| `Html.IsSafeUrl` | src/app/pipes/markdown.pipe.ts:21-23 | The case-insensitive `^https?://` test. `Html.SafeUrlRejects` and `Html.SafeUrlEscaped` state its verdicts. |
| `Html.BuildImageTag` | src/app/pipes/markdown.pipe.ts:25-32 | The `<img>` markup, wrapped in an anchor when the URL is safe and in a `<div>` when `block` is set. `Html.BuildImageTagReadBack` states what can be read back from it. |
| `Html.BuildImageTagReadBack` | src/app/pipes/markdown.pipe.ts:25-32 | Reading the built markup back gives the URL and alt text. It has a link to the URL exactly when the URL is safe, and a block container exactly when `block` is set. |
| `Html.UnsafeImageNotLinked` | src/app/pipes/markdown.pipe.ts:27-31 | A `javascript:` image is emitted without a link, in both the inline and the block form. |
| `Inline.ReplaceLineBreaks` | src/app/pipes/markdown.pipe.ts:36 | Every `\n` becomes `<br>`; `Inline.LineBreaksRoundTrip` states that nothing else changes. |
| `Inline.LineBreaksRoundTrip` | src/app/pipes/markdown.pipe.ts:36 | On escaped text, each `<br>` the rule inserts stands for exactly one newline. |
| `Inline.ReplaceSpans` | src/app/pipes/markdown.pipe.ts:38-46 | One span rule, a left-to-right global scan for delimiter, content free of the delimiter character, delimiter. `Inline.SpanReplaced`, `Inline.SpansSkipPrefix` and `Inline.SpansRoundTrip` state its properties. |
| `Inline.SpanReplaced` | src/app/pipes/markdown.pipe.ts:38-46 | A delimited span with non-empty content free of the delimiter character becomes the tag around that content. The rest of the text is then processed on its own. |
| `Inline.SpansSkipPrefix` | src/app/pipes/markdown.pipe.ts:38-46 | A prefix without the delimiter character passes through a span rule unchanged. |
| `Inline.SpansRoundTrip` | src/app/pipes/markdown.pipe.ts:38-46 | On escaped text a span rule loses nothing: turning each tag pair back into delimiters restores the input. |
| `Inline.MatchBracketedOf` | src/app/pipes/markdown.pipe.ts:48-52 | `[text](url)` is recognised with exactly that text and URL whenever the text has no `]` (and meets the rule's minimum length) and the URL is non-empty without `)`. |
| `Inline.ReplaceImages` | src/app/pipes/markdown.pipe.ts:48-50 | The image rule, a left-to-right global scan for `![alt](url)`. `Inline.ImageReplaced` states what it makes of one image. |
| `Inline.ReplaceLinks` | src/app/pipes/markdown.pipe.ts:52 | The link rule, a left-to-right global scan for `[text](url)` with non-empty text. `Inline.LinkReplaced` states what it makes of one link. |
| `Inline.ImageReplaced` | src/app/pipes/markdown.pipe.ts:48-50 | `![alt](url)` becomes `buildImageTag(url, alt, false)`, with an empty alt allowed. |
| `Inline.LinkReplaced` | src/app/pipes/markdown.pipe.ts:52 | `[text](url)` becomes the anchor to `url` around `text`. |
| `Inline.ParseInline` | src/app/pipes/markdown.pipe.ts:34-54 | The nine rules folded over the text in the source's order. `Inline.InlineStages` states that order. |
| `Inline.InlineStages` | src/app/pipes/markdown.pipe.ts:34-54 | The inline transformer is the nine substitutions composed in the source's order. |
| `Inline.PlainUnchanged` | src/app/pipes/markdown.pipe.ts:34-54 | Text with no newline, backtick, `~`, `*`, `_` or `[` comes out unchanged. |
| `Inline.BoldBeforeItalic` | src/app/pipes/markdown.pipe.ts:41-46 | `**x**` becomes `<strong>x</strong>`, not nested italics, because the bold rule runs first. |
| `Inline.ItalicAlone` | src/app/pipes/markdown.pipe.ts:44-46 | `*x*` becomes `<em>x</em>`. |
| `Inline.SinglesNotDouble` | src/app/pipes/markdown.pipe.ts:42-43 | A single-delimited span, followed by more text, is left alone by the double-delimiter rule. |
| `Inline.UnderscoresItalic` | src/app/pipes/markdown.pipe.ts:46 | `_x_` inside text with no other underscore becomes `<em>x</em>`. |
| `Inline.ImageBeforeLink` | src/app/pipes/markdown.pipe.ts:47-52 | `![alt](url)` becomes the image markup and is not also turned into a link. |
| `Inline.UnderscoresInsideLinkUrl` | src/app/pipes/markdown.pipe.ts:46-52 | The italic rule runs over the whole text before the link rule, so `_x_` inside a link URL becomes `<em>` inside the `href`. |
| `Inline.LinkAnyScheme` | src/app/pipes/markdown.pipe.ts:52 | A link is built for any non-empty URL free of inline syntax, whatever its scheme. |
| `Inline.UnsafeLinkBuilt` | src/app/pipes/markdown.pipe.ts:52 | A URL that does not start with `h` fails `isSafeUrl`, yet the link rule still emits an anchor to it. |
| `Blocks.LangOf` | src/app/pipes/markdown.pipe.ts:73-74 | The code language is the maximal run of word characters right after the opening fence. |
| `Blocks.HeadingText` | src/app/pipes/markdown.pipe.ts:94 | The heading text is a non-empty suffix of the trimmed line. |
| `Blocks.HeadingTextSpec` | src/app/pipes/markdown.pipe.ts:94 | The captured text starts right after the maximal run of `#` (at least one) and the maximal run of white space after it (at least one character), and does not itself start with white space. |
| `Blocks.BulletMarker` | src/app/pipes/markdown.pipe.ts:127-130 | The bullet pattern matches exactly when the line starts with `-`, `*` or `+` followed by white space. What it removes is that character and all the white space after it. |
| `Blocks.NumberMarker` | src/app/pipes/markdown.pipe.ts:140-143 | The number pattern removes the maximal digit run, the `.`, and all the white space after it (at least one character). |
| `Blocks.Classify` | src/app/pipes/markdown.pipe.ts:66-155 | The branch a trimmed line takes: the source's tests in the source's order, each taking the line only when every earlier test failed. `BlockFacts.RuleWins` and `BlockFacts.BlankEndsRuns` state consequences of that order. |
| `Blocks.Next` | src/app/pipes/markdown.pipe.ts:61-156 | Every turn of the block loop moves the cursor strictly forward, and at most one past the end. |
| `BlockFacts.PastEndOnlyUnclosedFence` | src/app/pipes/markdown.pipe.ts:72-84 | A turn that moves the cursor one past the end started on a fence line, and no later line is a fence: only an unclosed code block does that. |
| `Blocks.RunEndSpec` | src/app/pipes/markdown.pipe.ts:77-80 | An inner loop takes every line from its start up to its stop line. The stop line, if any, is one the loop rejects. |
| `Blocks.BlankTurn` | src/app/pipes/markdown.pipe.ts:66-69 | A blank line adds no HTML and moves to the next line. |
| `Blocks.CodeTurn` | src/app/pipes/markdown.pipe.ts:72-84 | A fence line yields `<pre><code…>` around the escaped lines up to the closing fence, joined with `\n`. The walk resumes after the closing fence. |
| `Blocks.RenderBlock` | src/app/pipes/markdown.pipe.ts:72-155 | The HTML each branch appends for its block. `BlockFacts.CodeVerbatim`, `BlockFacts.HeadingLevel` and `BlockFacts.ImageBlockReadBack` state what it holds. |
| `Blocks.Markdown` | src/app/pipes/markdown.pipe.ts:56-159 | The HTML of the blocks the walk finds in the `\n`-split text. `Scanner.ParseBlockMarkdown` states that the imperative parser returns it. |
| `BlockFacts.RunEndUnique` | src/app/pipes/markdown.pipe.ts:77-80 | The inner loop stops at the first line it rejects, and nowhere else. |
| `BlockFacts.BlankEndsRuns` | src/app/pipes/markdown.pipe.ts:116-142 | A blank line ends a quote, a bullet list and a numbered list. |
| `BlockFacts.FenceClosed` | src/app/pipes/markdown.pipe.ts:72-84 | With a closing fence at line `j`, the code block holds exactly the lines strictly between the fences, and the walk resumes at `j + 1`. |
| `BlockFacts.FenceUnclosed` | src/app/pipes/markdown.pipe.ts:76-82 | Without a closing fence, the code block takes every remaining line and is the last block of the document. |
| `BlockFacts.JoinEscaped` | src/app/pipes/markdown.pipe.ts:78-81 | Joining the escaped lines with `\n` is escaping the joined lines. |
| `BlockFacts.CodeVerbatim` | src/app/pipes/markdown.pipe.ts:72-84 | A code block's body is the escaped source text with no inline transformation. It holds no markup, and decoding it gives back the lines joined with `\n`. |
| `BlockFacts.ImageBlockReadBack` | src/app/pipes/markdown.pipe.ts:104-111 | A block image's HTML reads back as the escaped URL and alt text, in a block container, with a link exactly when the URL is safe. |
| `BlockFacts.HeadingLevel` | src/app/pipes/markdown.pipe.ts:94-98 | The heading level is min(number of `#`, 6), always between 1 and 6, and the same digit appears in the opening and the closing tag. |
| `BlockFacts.QuoteLineRun` | src/app/pipes/markdown.pipe.ts:114-124 | The quote takes the lines up to the first line that does not start with `>`, blank lines included. It holds one entry per line, in order, each the line without its marker and trimmed. |
| `BlockFacts.BulletListRun` | src/app/pipes/markdown.pipe.ts:127-137 | The list takes the lines up to the first non-bullet line, blank lines included. It holds one item per line, in order, each the line without its marker. |
| `BlockFacts.NumberListRun` | src/app/pipes/markdown.pipe.ts:140-150 | The list takes the lines up to the first non-numbered line, blank lines included. It holds one item per line, in order, each the line without its marker. |
| `BlockFacts.NumberIgnored` | src/app/pipes/markdown.pipe.ts:140-143 | Whether a line is a numbered item, and its item text, do not depend on the digits. |
| `BlockFacts.RuleWins` | src/app/pipes/markdown.pipe.ts:86-91 | A rule line (three or more of one of `-`, `*`, `_`) is always a rule, never a heading or list item. |
| `BlockFacts.RuleLineExamples` | src/app/pipes/markdown.pipe.ts:87 | `---`, `***`, `___`, `-----` are rules; `--`, `- - -`, `-*-` are not. |
| `BlockFacts.SpacedDashes` | src/app/pipes/markdown.pipe.ts:127-130 | `- - -` is a bullet item with text `- -`. |
| `BlockFacts.EmptyDocument` | src/app/pipes/markdown.pipe.ts:56-69 | An empty text renders to no HTML. |
| `Scanner.CodeLines` | src/app/pipes/markdown.pipe.ts:77-80 | The loop collects the escaped lines up to the closing fence and stops on it. |
| `Scanner.QuoteLines` | src/app/pipes/markdown.pipe.ts:116-120 | The loop collects the marker-stripped quote lines and stops at the first non-quote line. |
| `Scanner.BulletItems` | src/app/pipes/markdown.pipe.ts:129-134 | The loop appends one `<li>` per bullet line, in order, and stops at the first non-bullet line. |
| `Scanner.NumberItems` | src/app/pipes/markdown.pipe.ts:142-147 | The loop appends one `<li>` per numbered line, in order, and stops at the first non-numbered line. |
| `Scanner.CodeBlock` | src/app/pipes/markdown.pipe.ts:72-84 | The fence branch emits exactly the code block's HTML and moves the cursor forward. |
| `Scanner.HeadingBlock` | src/app/pipes/markdown.pipe.ts:94-101 | The heading branch emits exactly the heading's HTML and moves one line on. |
| `Scanner.ImageBlock` | src/app/pipes/markdown.pipe.ts:104-111 | The image branch emits exactly the block image's HTML and moves one line on. |
| `Scanner.QuoteBlock` | src/app/pipes/markdown.pipe.ts:114-124 | The quote branch emits exactly the quote's HTML and moves past the quote run. |
| `Scanner.BulletList` | src/app/pipes/markdown.pipe.ts:127-137 | The bullet branch emits exactly the list's HTML and moves past the list. |
| `Scanner.NumberedList` | src/app/pipes/markdown.pipe.ts:140-150 | The numbered branch emits exactly the list's HTML and moves past the list. |
| `Scanner.Paragraph` | src/app/pipes/markdown.pipe.ts:153-155 | The paragraph branch emits exactly the paragraph's HTML and moves one line on. |
| `Scanner.NextBlock` | src/app/pipes/markdown.pipe.ts:71-155 | On a non-blank line, the first matching branch emits exactly the HTML of the block the walk adds, and the cursor moves strictly forward. |
| `Scanner.ParseBlockMarkdown` | src/app/pipes/markdown.pipe.ts:56-159 | The imperative block parser returns exactly `Markdown(text)`, the HTML of the blocks of the split text. |
| `Pipe.Transform` | src/app/pipes/markdown.pipe.ts:161-172 | Missing or empty input gives `""`. A parse that throws gives the escaped input. Otherwise the result is the parser's HTML behind the trust marker. |
| `Pipe.FallbackInert` | src/app/pipes/markdown.pipe.ts:168-170 | The fallback holds no markup, and decoding it gives back the input. |
| `LinkInjection.LinkWrapsImage` | src/app/pipes/markdown.pipe.ts:48-52 | As written: `[t](![a](u)w)` becomes one anchor whose URL is the image's markup followed by `w`. |
| `LinkInjection.HrefEndsEarly` | src/app/pipes/markdown.pipe.ts:48-52 | As written: the `href` of that anchor ends at the image markup's first `"`, so its value is not the URL the link captured, and `u` follows outside any attribute value. |
| `LinkInjection.StrictHrefIntact` | src/app/pipes/markdown.pipe.ts:52 | Corrected: every link the corrected rule matches has a URL free of `"` and `<`, and the `href` read from its anchor is exactly that URL. |
| `LinkInjection.StrictKeepsImage` | src/app/pipes/markdown.pipe.ts:48-52 | Corrected: `[t](![a](u)w)` keeps the image markup and is not made into a link. |
| `LinkInjection.StrictAgrees` | src/app/pipes/markdown.pipe.ts:52 | Corrected: on text without `"` or `<`, the corrected rule does exactly what the source's rule does. |

## Left out

- `console.error` (line 169) is output only and is not modelled.
- `DomSanitizer.bypassSecurityTrustHtml` is a marker (`TrustedHtml`) around the unchanged HTML.
- The model does not say which inputs make the parser throw. `Transform` takes whether it threw as a parameter.
- `Transform` models `null`/`undefined` input as `None`. A value of a non-string type is not modelled.
- JavaScript strings are UTF-16 code units; the model treats text as a sequence of Dafny `char`. Surrogate pairs are not modelled separately. `trim` and `\s` use the ECMAScript white-space and line-terminator set.
- There is no general regular-expression engine. Each pattern is a deterministic scanner. Its agreement with the regex is argued in comments and not proved against a regex semantics.
- In the source, `parseBlockMarkdown` is one method that appends to a single `html` string. In the model each branch and each inner loop is its own method that returns its piece, and the outer loop appends the pieces. This gives the same string because concatenation is associative.
- `Pipe.Transform`: does not promise that the input cannot add HTML attributes or markup; the source's link rule lets it (see Findings). Nothing proves that a whole document's output is well-formed HTML, or free of script. The lemmas cover individual constructs. Notably, the link rule accepts any URL scheme, which `Inline.UnsafeLinkBuilt` states as the source's behaviour.
- The inline lemmas cover one construct at a time (bold, italic, image, link, underscores in URLs) and text with no inline syntax. No lemma covers arbitrary mixes of constructs.
- The Angular `@Pipe` decorator and dependency injection are not modelled. Neither are the build script and theme service, which are not part of this model.

## Findings

| source | as written | input that shows it | evidently intended | confidence | as-written member | corrected member |
|---|---|---|---|---|---|---|
| src/app/pipes/markdown.pipe.ts:48-52 | The image rule runs before the link rule, and the link rule takes any run free of `)` as the URL. An image inside a link's URL becomes image markup first, and the link rule then puts that markup, quotes included, into `href="…"`. | `[x](![a](u)w)`: the `href` closes at the quote after `<img src=` (or after `<a href=` when `u` is a safe URL), and `u` and `w` land in the tag as raw attribute text. | The `href` holds only the URL the link captured, so no input text escapes the attribute value. | not executed | `LinkInjection.LinkWrapsImage`, `LinkInjection.HrefEndsEarly` | `LinkInjection.StrictKeepsImage`, `LinkInjection.StrictHrefIntact`, `LinkInjection.StrictAgrees` |
