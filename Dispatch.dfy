/** How ingest.py routes its inputs: `load_file` (459-480) picks a parser by
    the file name's extension and stamps every document with the upload's
    name; `load_url` (486-489) sends YouTube URLs to `load_youtube`, whose
    first step (367-370) needs a video id, and every other URL to the
    website loader. The parsers and loaders themselves are parameters that
    may fail; their raised message is passed on unchanged. */
module Dispatch {
  import opened Wrappers
  import opened Text
  import opened Documents
  import opened YouTube

  /** `load_pdf`, `load_docx`, `load_pptx`, `load_xlsx`. */
  datatype Loader = PdfLoader | WordLoader | SlidesLoader | SheetLoader

  /** `uploaded_file.name.lower().split(".")[-1]`. */
  function FileExtension(name: string): (ext: string)
    ensures '.' !in ext
  {
    var parts := SplitOn(Lower(name), '.');
    assert parts[|parts| - 1] in parts;
    parts[|parts| - 1]
  }

  function LoaderFor(ext: string): Option<Loader> {
    if ext == "pdf" then Some(PdfLoader)
    else if ext == "doc" || ext == "docx" then Some(WordLoader)
    else if ext == "ppt" || ext == "pptx" then Some(SlidesLoader)
    else if ext == "xls" || ext == "xlsx" then Some(SheetLoader)
    else None
  }

  /** What a parser or loader produces: its documents, or the message of the
      exception it raised (an empty PDF or Word file, a page that failed to
      load, a video without a usable transcript). */
  type Loaded = Result<seq<Document>, string>

  /** The `ValueError` raised for any other extension, the one raised when a
      YouTube URL has no video id, and an exception raised by a loader. */
  datatype LoadError = UnsupportedFileType(ext: string) | NoVideoId | LoaderFailed(message: string)

  /** `out` is `docs` with the `filename` metadata set to `name` and nothing else changed. */
  ghost predicate Renamed(out: seq<Document>, docs: seq<Document>, name: string) {
    |out| == |docs|
    && forall i :: 0 <= i < |docs| ==>
      out[i].content == docs[i].content && out[i].metadata == docs[i].metadata["filename" := name]
  }

  /** `for doc in documents: doc.metadata["filename"] = uploaded_file.name`. */
  method StampFilename(docs: seq<Document>, name: string) returns (out: seq<Document>)
    ensures Renamed(out, docs, name)
  {
    out := [];
    for i := 0 to |docs|
      invariant |out| == i
      invariant forall j :: 0 <= j < i ==>
        out[j].content == docs[j].content && out[j].metadata == docs[j].metadata["filename" := name]
    {
      out := out + [Document(docs[i].content, docs[i].metadata["filename" := name])];
    }
  }

  /** `load_file` with the temporary file left out: an unsupported extension
      is an error, a supported one runs its parser, lets the parser's
      exception through, and otherwise names every document after the upload. */
  method LoadFile(name: string, parse: Loader -> Loaded) returns (r: Result<seq<Document>, LoadError>)
    ensures LoaderFor(FileExtension(name)).None? <==> r == Err(UnsupportedFileType(FileExtension(name)))
    ensures r.Ok? <==> LoaderFor(FileExtension(name)).Some? && parse(LoaderFor(FileExtension(name)).value).Ok?
    ensures LoaderFor(FileExtension(name)).Some? && parse(LoaderFor(FileExtension(name)).value).Err? ==>
      r == Err(LoaderFailed(parse(LoaderFor(FileExtension(name)).value).error))
    ensures r.Ok? ==> Renamed(r.value, parse(LoaderFor(FileExtension(name)).value).value, name)
  {
    var ext := FileExtension(name);
    var loader := LoaderFor(ext);
    if loader.None? {
      return Err(UnsupportedFileType(ext));
    }
    var parsed := parse(loader.value);
    if parsed.Err? {
      return Err(LoaderFailed(parsed.error));
    }
    var named := StampFilename(parsed.value, name);
    r := Ok(named);
  }

  lemma LowerKeepsDot(s: string)
    ensures '.' in Lower(s) <==> '.' in s
  {
    if '.' in Lower(s) {
      var i :| 0 <= i < |s| && Lower(s)[i] == '.';
    }
    if '.' in s {
      var i :| 0 <= i < |s| && s[i] == '.';
      assert Lower(s)[i] == '.';
    }
  }

  /** The extension is the lower-cased text after the last dot. */
  lemma ExtensionAfterLastDot(base: string, ext: string)
    requires '.' !in ext
    ensures FileExtension(base + "." + ext) == Lower(ext)
  {
    assert Lower(base + "." + ext) == Lower(base) + ['.'] + Lower(ext);
    LowerKeepsDot(ext);
    SplitOnLast(Lower(base), '.', Lower(ext));
  }

  /** A name without a dot is its own extension, so a file named `pdf` is a PDF. */
  lemma ExtensionWithoutDot(name: string)
    requires '.' !in name
    ensures FileExtension(name) == Lower(name)
  {
    LowerKeepsDot(name);
    SplitOnNone(Lower(name), '.');
  }

  /** Only the seven extensions are accepted, each by one parser. */
  lemma AcceptedExtensions(ext: string)
    ensures LoaderFor(ext).Some? <==> ext in ["pdf", "doc", "docx", "ppt", "pptx", "xls", "xlsx"]
    ensures LoaderFor(ext) == Some(WordLoader) <==> ext == "doc" || ext == "docx"
  {
  }

  /** Upper-case extensions are accepted too: the name is lower-cased first. */
  lemma UpperCaseExtension(base: string)
    ensures LoaderFor(FileExtension(base + ".PPTX")) == Some(SlidesLoader)
  {
    assert base + ".PPTX" == base + "." + "PPTX";
    ExtensionAfterLastDot(base, "PPTX");
    var l := Lower("PPTX");
    assert l[0] == 'p' && l[1] == 'p' && l[2] == 't' && l[3] == 'x';
    assert l == "pptx";
  }

  // ---- URLs ----

  datatype Route = YouTubeRoute | WebsiteRoute

  function RouteOf(url: string): Route {
    if Contains(url, "youtube.com") || Contains(url, "youtu.be") then YouTubeRoute else WebsiteRoute
  }

  /** A loader's outcome as `load_url` passes it on. */
  function PassOn(l: Loaded): Result<seq<Document>, LoadError> {
    match l
      case Ok(docs) => Ok(docs)
      case Err(msg) => Err(LoaderFailed(msg))
  }

  /** `load_url`: a YouTube URL needs a video id before its loader runs, and
      whatever the chosen loader raises is raised again. */
  function LoadUrl(url: string, youtube: (string, string) -> Loaded,
                   website: string -> Loaded): (r: Result<seq<Document>, LoadError>)
    ensures RouteOf(url) == WebsiteRoute ==>
      (r.Ok? <==> website(url).Ok?)
      && (r.Ok? ==> r.value == website(url).value)
      && (r.Err? ==> r == Err(LoaderFailed(website(url).error)))
    ensures RouteOf(url) == YouTubeRoute ==>
      (r == Err(NoVideoId) <==> VideoIdOf(url).None?)
      && (r.Ok? <==> VideoIdOf(url).Some? && youtube(url, VideoIdOf(url).value).Ok?)
      && (r.Ok? ==> r.value == youtube(url, VideoIdOf(url).value).value)
      && (VideoIdOf(url).Some? && youtube(url, VideoIdOf(url).value).Err? ==>
            r == Err(LoaderFailed(youtube(url, VideoIdOf(url).value).error)))
  {
    match RouteOf(url)
      case WebsiteRoute => PassOn(website(url))
      case YouTubeRoute =>
        match VideoIdOf(url)
          case None => Err(NoVideoId)
          case Some(id) => PassOn(youtube(url, id))
  }

  /** A `youtu.be/` short link followed by an id is routed to YouTube and
      passes the id check, so it loads exactly when the YouTube loader does. */
  lemma ShortLinkLoads(url: string, p: nat, youtube: (string, string) -> Loaded,
                       website: string -> Loaded)
    requires LiteralAt(url, p, "youtu.be/") && IdAt(url, p + 9)
    ensures RouteOf(url) == YouTubeRoute && VideoIdOf(url).Some?
    ensures LoadUrl(url, youtube, website) != Err(NoVideoId)
    ensures LoadUrl(url, youtube, website).Ok? <==> youtube(url, VideoIdOf(url).value).Ok?
  {
    assert url[p..p + 8] == "youtu.be" by {
      assert url[p..p + 8] == url[p..p + 9][..8];
    }
    ContainsAt(url, "youtu.be", p);
    LaterPatternsImplyFirst(ShortLink, url, p);
    VideoIdIsFirstPattern(url);
  }
}
