/** `format_docs` (rag_chain.py:373-388): each retrieved document becomes a
    block headed `[Source n: label, locator]`, numbered from 1, and the blocks
    are joined by a horizontal rule. */
module SourceFormat {
  import opened Text
  import opened Documents

  const Separator: string := "\n\n---\n\n"

  /** `metadata.get("filename", metadata.get("source", "Unknown"))`. */
  function Label(m: Metadata): string {
    Get(m, "filename", Get(m, "source", "Unknown"))
  }

  /** The page, slide or sheet locator for the three paged formats. */
  function ExtraInfo(m: Metadata): string {
    var t := Get(m, "type", "unknown");
    if t == "pdf" then ", Page " + Get(m, "page", "N/A")
    else if t == "pptx" then ", Slide " + Get(m, "slide", "N/A")
    else if t == "xlsx" then ", Sheet: " + Get(m, "sheet", "N/A")
    else ""
  }

  function Header(i: nat, d: Document): string {
    "[Source " + NatToString(i + 1) + ": " + Label(d.metadata) + ExtraInfo(d.metadata) + "]"
  }

  /** The block of the document at position `i`. */
  function Block(i: nat, d: Document): string {
    Header(i, d) + "\n" + d.content
  }

  function Blocks(docs: seq<Document>): (bs: seq<string>)
    ensures |bs| == |docs| && forall i :: 0 <= i < |docs| ==> bs[i] == Block(i, docs[i])
  {
    seq(|docs|, i requires 0 <= i < |docs| => Block(i, docs[i]))
  }

  function FormatDocs(docs: seq<Document>): string {
    Join(Blocks(docs), Separator)
  }

  /** No documents give the empty context, and each further document adds
      the separator and its block, numbered one past the documents before it. */
  lemma FormatDocsSnoc(docs: seq<Document>, d: Document)
    ensures FormatDocs([]) == ""
    ensures docs == [] ==> FormatDocs([d]) == Block(0, d)
    ensures docs != [] ==> FormatDocs(docs + [d]) == FormatDocs(docs) + Separator + Block(|docs|, d)
  {
    if docs != [] {
      assert Blocks(docs + [d]) == Blocks(docs) + [Block(|docs|, d)];
      JoinSnoc(Blocks(docs), Block(|docs|, d), Separator);
    }
  }

  /** A block carries its 1-based position as a decimal number right after
      `[Source `, and ends with the document text unchanged. */
  lemma BlockShape(i: nat, d: Document)
    ensures var num := NatToString(i + 1);
      && StartsWith(Block(i, d), "[Source " + num + ": ")
      && ParseDigits(num) == i + 1
      && EndsWith(Block(i, d), "\n" + d.content)
  {
    ParseNatToString(i + 1);
    var pre := "[Source " + NatToString(i + 1) + ": ";
    var mid := Label(d.metadata) + ExtraInfo(d.metadata) + "]";
    var tail := "\n" + d.content;
    var b := Block(i, d);
    assert b == pre + mid + tail;
    ConcatEnds(pre, mid, tail);
  }

  lemma ConcatEnds(pre: string, mid: string, tail: string)
    ensures StartsWith(pre + mid + tail, pre) && EndsWith(pre + mid + tail, tail)
  {
    var b := pre + mid + tail;
    assert b[..|pre|] == pre;
    assert b[|b| - |tail|..] == tail;
  }

  /** The label prefers the file name, then the source, then `Unknown`. */
  lemma LabelFallback(m: Metadata)
    ensures "filename" in m ==> Label(m) == m["filename"]
    ensures "filename" !in m && "source" in m ==> Label(m) == m["source"]
    ensures "filename" !in m && "source" !in m ==> Label(m) == "Unknown"
  {
  }

  /** Only pdf, pptx and xlsx documents get a locator; anything else, such as
      the `file` type written by the migration, is labelled by name alone. */
  lemma NoLocatorUnlessPaged(i: nat, d: Document)
    requires var t := Get(d.metadata, "type", "unknown"); t != "pdf" && t != "pptx" && t != "xlsx"
    ensures Header(i, d) == "[Source " + NatToString(i + 1) + ": " + Label(d.metadata) + "]"
  {
  }
}
