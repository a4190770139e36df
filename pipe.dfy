/** `transform` (src/app/pipes/markdown.pipe.ts:161-172), the pipe's entry
    point: empty input short-cuts to the empty string, the block parser's
    output is handed to the sanitizer's trust marker, and a parse that throws
    falls back to the escaped input. */
module Pipe {
  import opened Strings
  import opened Html
  import opened Blocks
  import opened Scanner

  /** What the pipe returns: a plain string, or HTML marked as trusted by
      `bypassSecurityTrustHtml`, which the model keeps as a marker around
      the unchanged HTML. */
  datatype PipeOutput = PlainText(text: string) | TrustedHtml(html: string)

  /** Whether JavaScript treats the value as false: `undefined`/`null`
      (`None`) or the empty string. */
  predicate Falsy(value: Option<string>) {
    value.None? || value.value == []
  }

  /** `transform(value)`. Whether the parser throws is not decided by the
      model: `throws` says whether it did on this call. */
  method Transform(value: Option<string>, throws: bool) returns (out: PipeOutput)
    ensures Falsy(value) ==> out == PlainText("")
    ensures !Falsy(value) && throws ==> out == PlainText(EscapeHtml(value.value))
    ensures !Falsy(value) && !throws ==> out == TrustedHtml(Markdown(value.value))
  {
    if value.None? || value.value == [] {
      return PlainText("");
    }
    if throws {
      out := PlainText(EscapeHtml(value.value));
    } else {
      var html := ParseBlockMarkdown(value.value);
      out := TrustedHtml(html);
    }
  }

  /** The fallback is inert text: it holds no markup, and decoding its
      entities gives back exactly the input. */
  lemma FallbackInert(value: string)
    ensures NoMarkup(EscapeHtml(value))
    ensures Unescape(EscapeHtml(value)) == value
  {
    EscapeHtmlSafe(value);
    UnescapeEscapeHtml(value);
  }
}
