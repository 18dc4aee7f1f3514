/** LangChain's `Document` as the core sees it: the page text and a metadata
    dictionary. Metadata values are kept as the text that `metadata->>'key'`
    and `str()` produce for them. */
module Documents {
  type Metadata = map<string, string>

  datatype Document = Document(content: string, metadata: Metadata)

  /** `metadata.get(key, default)`. */
  function Get(m: Metadata, key: string, default: string): string {
    if key in m then m[key] else default
  }
}
