/** The record every provider and both local stores exchange (`PaperResult` in apis/mod.rs). */
module Papers {
  import opened Wrappers
  import opened Strings

  datatype PaperResult = PaperResult(
    id: string,
    title: string,
    authors: seq<string>,
    abstractText: Option<string>,
    year: Option<U32>,
    source: string,
    doi: Option<string>,
    arxivId: Option<string>,
    url: string,
    pdfUrl: Option<string>,
    citationCount: Option<U32>)

  /** The failures a provider reports (`SourceError`). */
  datatype SourceError = Http | Parse(message: string) | Api(message: string) | MissingKey(message: string)
}
