# Retrieval core of a bilingual RAG assistant, in Dafny

This project models the deterministic core of a retrieval-augmented chat
assistant for a Korean university. That core consists of:

- **Query expansion.** Bilingual synonyms from the fixed Korean-to-English table `KR_EN_MAP` are appended to the query.
- **Keyword extraction.** A rule-based tokenizer drops stopwords, strips one grammatical suffix, adds dictionary synonyms and removes duplicates.
- **Hybrid search.** A semantic pool and a keyword pool are merged by content; rows get an exact additive keyword boost and are ranked by final score.
- **Embedding retry loop.** The remote embedding call is retried with a growing sleep between attempts.
- **Document store.** Insert, count, legacy-type migration, delete all, delete by type and count by type.
- **Source-label formatter.** `format_docs` builds the context handed to the language model.

It also models the deterministic helpers of the ingestion module:

- YouTube video-id extraction and the transcript title parse;
- the HTTP breadth-first crawler;
- the month window of the news search;
- the news-text post-processing;
- dispatch by file extension and by URL kind.

Modules:

| file | models |
|---|---|
| `Wrappers.dfy` | `Option` and `Result` |
| `Text.dfy` | the Python `str` operations the core uses (`strip`, `split()`, `split(c)`, `join`, ASCII `lower`, `replace`, `in`, `dict.fromkeys` de-duplication, decimal formatting) with their round trips |
| `Documents.dfy` | LangChain's `Document` and `metadata.get` |
| `Synonyms.dfy` | `KR_EN_MAP` as an ordered list of entries and dictionary lookup |
| `QueryExpansion.dfy` | `expand_query` |
| `Keywords.dfy` | `extract_keywords` |
| `KeywordExample.dfy` | `extract_keywords` on one fixed query, unfolded to its nine keywords |
| `Sorting.dfy` | `ORDER BY key DESC LIMIT n` as a relation, plus one concrete sort proved to satisfy it, and `WHERE` |
| `Ranking.dfy` | the SQL of `search_similar_documents` over a table of rows `(content, metadata, sim)` |
| `Search.dfy` | `search_similar_documents` end to end |
| `Embedding.dfy` | `embed_texts` and `embed_query` over an oracle for the remote call |
| `DocumentStore.dfy` | the `documents` table as a class over a sequence of rows, with the store operations as methods |
| `SourceFormat.dfy` | `format_docs` |
| `YouTube.dfy` | `extract_youtube_video_id` and the `제목:` title parse |
| `Crawler.dfy` | the HTTP branch of `crawl_website` |
| `NewsDates.dfy` | the `YYYY-MM` branch of the date window of `search_google_news` |
| `NewsText.dfy` | the line filter and 5000-character cap of `fetch_news_article` |
| `Dispatch.dfy` | `load_file`, `load_url` and the id check of `load_youtube` |

The SQL queries are modelled relationally where PostgreSQL leaves the order of ties open:

- `IsTopBy` says what any valid `ORDER BY ... LIMIT` answer is.
- `IsDistinctOnContent` says what any valid `DISTINCT ON (content)` answer is.
- The concrete functions `TopBy` and `DedupeMax` are proved to produce answers of those kinds.

Scores are exact `real`s, so the 0.03 and 0.3 boosts carry no rounding.

Because all of this code depends on I/O, every outside dependency is a parameter:

- The similarity function and the table are parameters.
- The embedding call is an oracle `(text, attempt) -> Option<vector>`, where `None` stands for a raised exception.
- Page fetching and `normalize_url` are function parameters.
- Each SQL failure is a boolean parameter that selects the `except` path.

## Model

| member | source | states |
|---|---|---|
| Synonyms.Lookup | rag_chain.py:199-200 | `KR_EN_MAP[key]` is absent exactly when no entry has that key, and otherwise is the value of an entry with that key |
| QueryExpansion.ExpandQuery | rag_chain.py:153-159 | the loop over `KR_EN_MAP` returns the query followed by the appended synonyms. It has the query as a prefix, contains `" " + value` for every key found in the query, and equals the query when no key matches |
| QueryExpansion.ExpandWith | rag_chain.py:153-159 | the same loop over any table |
| QueryExpansion.AppendedConcat | rag_chain.py:155-157 | the appended text is built entry by entry in table order |
| QueryExpansion.MatchedSynonymsAppended | rag_chain.py:156-157 | every entry whose key occurs in the query contributes `" " + value` |
| QueryExpansion.NoMatchNoChange | rag_chain.py:153-159 | when no key occurs in the query nothing is appended |
| QueryExpansion.AppendedDependsOnlyOnMatches | rag_chain.py:156 | matching tests the original query, so two queries matching the same keys get the same appended text, and appended synonyms never trigger further matches |
| Keywords.LongestFirstLengths | rag_chain.py:189 | a helper fact about the literal list, used by `SuffixesSorted`: the sorted list has three two-character suffixes, then one-character ones |
| Keywords.SourceSuffixLengths | rag_chain.py:176 | a helper fact about the literal list, used by `SuffixesSorted`: only `에서`, `에게` and `으로` of the listed suffixes have two characters |
| Keywords.SuffixesSorted | rag_chain.py:176-189 | `sorted(suffixes, key=len, reverse=True)` is longest first, and being stable it keeps the listed order within each length |
| Keywords.Clean | rag_chain.py:178 | replacing punctuation by spaces keeps the length |
| Keywords.StripSuffixLongest | rag_chain.py:188-192 | at most one suffix is removed, and only one that ends the token and leaves more than one character. No strictly longer listed suffix could have been removed, and with no such suffix the token is unchanged |
| Keywords.BaseShape | rag_chain.py:188-194 | the base of a token of at least two characters has at least two characters and is the token minus the longest strippable suffix, or the token itself |
| Keywords.LongWords | rag_chain.py:200-202 | the kept synonym words are words of the entry with at least two characters |
| Keywords.LongWordsMembership | rag_chain.py:200-202 | a word is kept exactly when it is in the entry and has at least two characters |
| Keywords.ExtractKeywords | rag_chain.py:162-204 | the nested loops with their early `break` compute the keyword list, which has no duplicates and only words of two or more characters |
| Keywords.ExtractKeywordsWith | rag_chain.py:162-204 | the same loops for any stopword set, synonym table and longest-first suffix list |
| Keywords.EmitToken | rag_chain.py:188-202 | a kept token emits its base, then the token when it differs from the base, then the word list of the base's dictionary entry |
| Keywords.LongWordsOf | rag_chain.py:200-202 | the loop keeping synonym words of two or more characters |
| Keywords.StripOneSuffix | rag_chain.py:188-192 | the suffix loop with its `break` |
| Keywords.RawKeywordsLong | rag_chain.py:185-202 | every keyword appended before de-duplication has at least two characters |
| Keywords.KeywordsShape | rag_chain.py:204 | `list(dict.fromkeys(...))` leaves no duplicates, and every keyword has at least two characters |
| Keywords.DroppedTokenIrrelevant | rag_chain.py:185-186 | a token shorter than two characters or a stopword contributes nothing, wherever it stands |
| Keywords.KeywordsMembership | rag_chain.py:180-204 | a word is a keyword exactly when some token emits it |
| Keywords.TokenEmission | rag_chain.py:194-202 | a kept token emits its base first, the token second when they differ, and exactly the base, the token and the long words of the base's entry |
| KeywordExample.StripSuffixAt | rag_chain.py:188-192 | the suffix loop removes the first listed suffix that can come off, and only that one |
| KeywordExample.StripSuffixNone | rag_chain.py:188-192 | when no listed suffix can come off, the token is left as it is |
| KeywordExample.ExampleTokens | rag_chain.py:178-180 | punctuation replaced and the query split on whitespace, "태재대학교 비전이 뭐야?" gives the three tokens 태재대학교, 비전이 and 뭐야 |
| KeywordExample.FirstTokenBase | rag_chain.py:188-194 | no suffix comes off 태재대학교 |
| KeywordExample.SecondTokenBase | rag_chain.py:188-194 | the base of 비전이 is 비전, which differs from the token |
| KeywordExample.ThirdTokenBase | rag_chain.py:188-194 | no suffix comes off 뭐야 |
| KeywordExample.ExampleKeywords | rag_chain.py:162-204 | on the example query the keywords are exactly 태재대학교, Taejae, TAEJAE, taejae.ac.kr, 비전, 비전이, vision, visions, 뭐야, in this order, given the dictionary entries of rag_chain.py:103 and 105 |
| Text.DistinctFirstOccurrenceOrder | rag_chain.py:204 | `dict.fromkeys` keeps every element once, in the order of first occurrence |
| Text.DistinctElements | rag_chain.py:204 | de-duplication keeps exactly the elements of the list |
| Text.DistinctNoDuplicates | rag_chain.py:204 | de-duplication leaves no duplicates |
| Ranking.MatchCount | rag_chain.py:234 | `keyword_count_expr` counts at most one per keyword |
| Ranking.MatchCountMeaning | rag_chain.py:221-234 | the match count is positive exactly under the keyword condition, and equals the number of keywords exactly under the all-match condition |
| Ranking.FullMatchAdvantage | rag_chain.py:225-232 | with two or more keywords, a row matching all of them outscores an equal-similarity row matching one by exactly 0.3 + 0.03·(n−1) |
| Ranking.MergeMaxRows | rag_chain.py:253-259 | folding a row into the content-distinct list only keeps rows it was given |
| Ranking.MergeMaxDistinct | rag_chain.py:253-259 | folding keeps contents pairwise distinct |
| Ranking.MergeMaxCovers | rag_chain.py:253-259 | after folding, every content seen has a row of at least its similarity |
| Ranking.DedupeMaxIsDistinctOn | rag_chain.py:252-260 | the concrete de-duplication is a valid `DISTINCT ON (content) ... ORDER BY content, base_similarity DESC` answer |
| Ranking.DistinctOnKeepsMax | rag_chain.py:253-259 | in any valid `DISTINCT ON` answer, the kept row of a content has the maximal similarity of that content |
| Ranking.SubDistinctContents | rag_chain.py:261-265 | a selection of a content-distinct list stays content-distinct |
| Ranking.HybridIsAnswer | rag_chain.py:236-266 | the concrete ranking is an answer the SQL may return: semantic top 50, keyword top 50 among matching rows, de-duplication and top `k` by final score |
| Ranking.HybridShape | rag_chain.py:236-266 | every hybrid answer has at most `k` rows with distinct contents, sorted by final score. Each pool has at most 50 rows, every keyword-pool row matches a keyword, and a kept row has the maximal similarity of its content among the pooled rows |
| Ranking.RankIsAnswer | rag_chain.py:220-289 | an error gives `[]`. No keywords gives a plain top `k` by similarity, and otherwise the result is a hybrid answer |
| Ranking.PlainTopKeepsDuplicates | rag_chain.py:267-273 | an example on two rows: the plain top `k` has no `DISTINCT ON`, so rows of equal content are both kept |
| Ranking.ToDocuments | rag_chain.py:277-286 | one document per fetched row, in order |
| Sorting.TopByIsTop | rag_chain.py:241-242 | the concrete sort-and-cut is a valid `ORDER BY ... LIMIT n` answer |
| Sorting.TopBounds | rag_chain.py:242 | a `LIMIT n` answer has at most `n` rows, all from the table |
| Sorting.SortBySorted | rag_chain.py:264 | the sort orders rows by non-increasing key |
| Sorting.TakeSortedIsTop | rag_chain.py:264-265 | cutting a sorted arrangement after `n` rows is a valid answer |
| Sorting.Filter | rag_chain.py:248 | `WHERE p` keeps exactly the rows satisfying `p` |
| Search.Scored | rag_chain.py:239 | each stored row gets its similarity to the query vector |
| Search.SearchSimilarDocuments | rag_chain.py:207-289 | the expanded query is embedded, and an embedding failure propagates. Otherwise the documents are those of the ranking of the scored table by the keywords of the unexpanded query |
| Embedding.EmbedTexts | rag_chain.py:33-51 | the nested retry loop returns, with its log of calls and sleeps, exactly the run its specification function describes |
| Embedding.EmbedText | rag_chain.py:37-50 | the retry loop for one text agrees with its specification function |
| Embedding.EmbedRunOk | rag_chain.py:33-51 | with a positive budget the run succeeds exactly when every text succeeds within `max_retries` attempts, and otherwise raises "failed after max_retries" |
| Embedding.EmbedRunVectors | rag_chain.py:36-45 | on success there is one vector per text, in input order, each the first successful answer for its text |
| Embedding.ErrorPersists | rag_chain.py:50 | a raise ends the loop, so no partial list is returned |
| Embedding.TextRunOutcome | rag_chain.py:37-50 | a text is exhausted exactly when every attempt fails, and a vector is the answer of the first successful attempt |
| Embedding.TextRunSchedule | rag_chain.py:37-48 | every call is for that text and within the budget. Every sleep follows a failed call and lasts 1.0·(attempt+1) seconds, and the log ends with a call |
| Embedding.TextRunAttempts | rag_chain.py:37 | at most `max_retries` calls per text, and exactly that many when all of them fail |
| Embedding.EmbedRunNoBudget | rag_chain.py:37 | with `max_retries <= 0` nothing is called and the list is empty |
| Embedding.EmbedQuery | rag_chain.py:54-55 | `embed_query` fails without a budget or when every attempt fails, and otherwise returns the first successful answer for the query |
| DocumentStore.Texts | rag_chain.py:72 | the texts of the documents, in order |
| DocumentStore.ZipRows | rag_chain.py:80-85 | `zip` stops at the shorter list |
| DocumentStore.DocumentTable.constructor | rag_chain.py:89 | a fresh table is empty |
| DocumentStore.DocumentTable.AddDocuments | rag_chain.py:68-99 | no documents inserts nothing and returns 0. An embedding failure or a failed insert leaves the table unchanged with the matching error, and otherwise the rows are appended and their number returned |
| DocumentStore.InsertedRows | rag_chain.py:72-94 | each inserted row carries its document's content and metadata and the vector embedded for that content |
| DocumentStore.DocumentTable.Count | rag_chain.py:294-303 | the row count, or 0 when the query fails |
| DocumentStore.DocumentTable.MigrateFileTypes | rag_chain.py:306-323 | the legacy types are rewritten to `file` and the updated rows counted. A failure changes nothing |
| DocumentStore.MigrateAll | rag_chain.py:310-314 | the update applies to every row in place |
| DocumentStore.MigratedShape | rag_chain.py:312-313 | only `type` of a `pdf`/`docx`/`pptx`/`xlsx` row changes, to `file`, and no migrated row is legacy |
| DocumentStore.MigrateIdempotent | rag_chain.py:306-323 | migrating twice is migrating once, and afterwards no legacy row remains |
| DocumentStore.DocumentTable.ClearAll | rag_chain.py:326-337 | the table is emptied, or on failure stays as it was and the error is raised |
| DocumentStore.DocumentTable.ClearByType | rag_chain.py:340-353 | exactly the rows of type `t` are deleted and counted, and the others stay in order. On failure nothing changes |
| DocumentStore.ClearByTypeSplit | rag_chain.py:345-346 | deleted and kept rows partition the table, and untyped rows are never deleted |
| DocumentStore.Groups | rag_chain.py:361 | every row's group is its type, or `unknown` |
| DocumentStore.DocumentTable.CountsByType | rag_chain.py:356-370 | the map from group to row count, or `{}` when the query fails |
| DocumentStore.CountsKeys | rag_chain.py:361-368 | the keys of the counts are exactly the groups present |
| DocumentStore.CountsSumToTotal | rag_chain.py:356-370 | the counts over the distinct groups sum to the number of rows |
| DocumentStore.GroupCountSnoc | rag_chain.py:361-363 | a new row adds one to its own group only |
| SourceFormat.Blocks | rag_chain.py:373-386 | one block per document, in order |
| SourceFormat.FormatDocsSnoc | rag_chain.py:373-388 | no documents give `""`. Each further document adds the separator and a block numbered one past the documents before it |
| SourceFormat.BlockShape | rag_chain.py:386 | a block starts with `[Source n: `, where `n` reads back as position + 1, and ends with a newline and the document text |
| SourceFormat.LabelFallback | rag_chain.py:376 | the label is the filename, else the source, else `Unknown` |
| SourceFormat.NoLocatorUnlessPaged | rag_chain.py:377-386 | only `pdf`, `pptx` and `xlsx` documents get a page, slide or sheet locator |
| YouTube.SearchFrom | ingest.py:23 | `re.search` finds the leftmost matching position, or none exists |
| YouTube.ExtractYoutubeVideoId | ingest.py:16-26 | the loops return the group of the leftmost match of the first matching pattern: `None` or eleven characters of `[0-9A-Za-z_-]` |
| YouTube.GroupShape | ingest.py:18-25 | a captured group is eleven id characters |
| YouTube.LaterPatternsImplyFirst | ingest.py:18-20 | wherever the `embed/` or `youtu.be/` pattern matches, the first pattern matches at the slash |
| YouTube.VideoIdIsFirstPattern | ingest.py:16-26 | so the result is decided by the first pattern alone |
| YouTube.VideoIdPosition | ingest.py:16-26 | a found id sits right after `v=` or `/` at the leftmost matching position |
| YouTube.ParseTitle | ingest.py:448-453 | the loop with its `break` returns the title of the first title line, or `""` |
| YouTube.TitleOfFirst | ingest.py:450-453 | the title comes from the first line whose stripped form starts with `제목:` |
| YouTube.TitleOfNone | ingest.py:448-453 | with no title line the title is `""` |
| YouTube.TitleOfStripped | ingest.py:452 | the title neither starts nor ends with whitespace |
| YouTube.TagOnlyLine | ingest.py:452 | a line holding only the tag gives `""` |
| Crawler.PageDocsShape | ingest.py:321-332 | a page yields a document exactly when its stripped text is longer than 100 characters. The document's type is `website`, and its filename is the title cut to 50 characters, or the URL when the title is empty |
| Crawler.HarvestFrom | ingest.py:321-332 | every document comes from a processed page, and there are at most as many documents as pages |
| Crawler.PageDocuments | ingest.py:321-332 | the document step of the loop body yields the page's documents as `PageDocs` defines them, so `PageDocsShape` describes what it appends |
| Crawler.NewLinksProps | ingest.py:334-338 | a link is enqueued only if it is on the base domain, not visited, blocked by no extension and not already queued. Every such link ends up queued, and the queue keeps no duplicates |
| Crawler.EnqueueLinks | ingest.py:334-338 | the link loop appends exactly the admissible new links, in page order |
| Crawler.NewlySeenCovers | ingest.py:307-314 | the processed URLs have pairwise distinct normal forms and cover every normal form popped |
| Crawler.CrawlHttp | ingest.py:304-340 | the URLs processed are exactly the reference breadth-first run `CrawlRun` from the start URL: pop the head of the queue, skip it when its normal form is visited, otherwise process it and append its admissible new links in page order. The documents are those of the processed pages. Its ghost results are the pop, enqueue and origin histories of that run, with every property `CrawlRunFacts` states. The crawl starts from the state set up at ingest.py lines 215-219 |
| Crawler.CrawlRunFacts | ingest.py:307-338 | the reference run processes at most `max_pages` pages, none twice up to normalization, in the order URLs leave the queue. The queue is popped in the order it was filled, starting with the start URL, and never holds duplicates. Every queued link was admissible on the page that introduced it, every link that passed the tests on a processed page was queued, and the queue is empty at the end unless the budget is used up |
| Crawler.RunKeepsInv | ingest.py:307-338 | every step of the reference run, skip or process, keeps the crawl invariant (visited set, queue history, link origins, harvested documents, links queued) and the budget, and the run ends with the queue empty or the budget reached |
| Crawler.BudgetKeepsLinkOrder | ingest.py:307-338 | a start page linking to `a` and then `b`, with a budget of two pages, processes the start page and `a`, never `b`: the queue is first in, first out and links are queued in page order |
| Crawler.FreshLinksKept | ingest.py:334-338 | two distinct admissible links that are not queued are both appended, in page order |
| Crawler.LinksQueuedStep | ingest.py:334-338 | processing a page keeps every admissible link found on a processed page in the queue history |
| Crawler.CrawlReach | ingest.py:307-338 | reach of the crawl from the start URL: with a positive budget the start URL is visited, and unless the budget is used up every admissible link found on a processed page is visited too, up to normalization |
| Crawler.SeenSnoc | ingest.py:314 | adding a URL adds its normal form to the visited set |
| NewsDates.MonthWindow | ingest.py:507-516 | the month branch is taken exactly when the date has seven characters |
| NewsDates.MonthWindowOfMonth | ingest.py:507-514 | for a `YYYY-MM` date the window runs from day 01 to the true last day, in both formats, with the month zero-padded |
| NewsDates.FebruaryWindow | ingest.py:511-512 | February ends on the 29th in leap years and the 28th otherwise |
| NewsDates.IllegalMonthRejected | ingest.py:511 | months 00 and 13-99 raise, as `calendar.monthrange` does |
| NewsDates.MonthLengths | ingest.py:511 | months have 28 to 31 days, and February has 29 exactly in leap years |
| NewsDates.YearLength | ingest.py:511 | the months of a year add up to 365 or 366 days |
| NewsDates.ZeroPad2Parse | ingest.py:510 | `{month:02d}` has two digits and reads back as the month |
| NewsText.ArticleBound | ingest.py:700-707 | the text is at most 5000 characters, and is the joined kept lines or their first 5000 characters |
| NewsText.KeptLinesMembership | ingest.py:701 | a line is kept exactly when its stripped form is longer than 10 characters |
| NewsText.ArticleLines | ingest.py:700-702 | under the cap, splitting the text gives back the kept lines in order |
| NewsText.ArticleIdempotent | ingest.py:700-707 | under the cap, post-processing its own output changes nothing |
| NewsText.NoContentLines | ingest.py:700-702 | with no long line the text is empty |
| Dispatch.FileExtension | ingest.py:459 | the extension holds no dot |
| Dispatch.ExtensionAfterLastDot | ingest.py:459 | the extension is the lowercased text after the last dot |
| Dispatch.ExtensionWithoutDot | ingest.py:459 | a name without a dot is its own extension, lowercased |
| Dispatch.AcceptedExtensions | ingest.py:466-475 | exactly pdf, doc, docx, ppt, pptx, xls and xlsx have a parser |
| Dispatch.UpperCaseExtension | ingest.py:459-471 | the extension is compared in lower case |
| Dispatch.StampFilename | ingest.py:477-478 | every document's filename becomes the upload name, and nothing else changes |
| Dispatch.LoadFile | ingest.py:459-480 | an unsupported extension raises with that extension. A supported one runs its parser: the load fails exactly when the parser raises, with the parser's message, and otherwise the parsed documents come back stamped with the upload name |
| Dispatch.LoadUrl | ingest.py:485-489 | a URL containing `youtube.com` or `youtu.be` goes to the YouTube loader. It fails with the id error exactly when no video id is found, fails with the loader's message when the loader raises, and succeeds exactly when there is an id and the loader succeeds. Every other URL goes to the website loader, which succeeds or fails in the same way. The id error is the check at the head of `load_youtube`, ingest.py lines 367-370 |
| Dispatch.ShortLinkLoads | ingest.py:486-487 | a `youtu.be/` link with an id is routed to YouTube and passes the id check, so it loads exactly when the YouTube loader does |

## Left out

- Database connection, SQL text, pgvector: the cosine distance, the `vector` type, connection caching, `rollback` and `commit` are not modelled. The similarity of a row is a given function of two vectors, and each query failure is a boolean choosing the `except` path. Opening the connection, the `rollback` and the cursor creation run before the `try` (rag_chain.py lines 213-215 in the search, lines 75-76 in the insertion), so a failure there raises instead of reaching the `except` path; the model has no such failure.
- Floating point: similarities and boosts are exact reals, so rounding in the sum is not modelled.
- Case folding and `ILIKE`: `lower()` and `ILIKE` are modelled on ASCII letters only. `%`, `_` and `\` inside a keyword are taken literally, while PostgreSQL treats `%` and `_` as wildcards and `\` as the escape character.
- KeywordExample.ExampleKeywords: takes as hypotheses that the dictionary maps 태재대학교 and 비전 to their entries, has no entry for 뭐야, and that none of the three tokens is a stopword. The verifier cannot unfold the 104-entry table or the 59-word stopword set far enough to check these facts, though the table text shows them.
- Order of the count-by-type result: `CountsByType` returns a map, so the `ORDER BY cnt DESC` order is not kept.
- Selenium: the Selenium branch of `crawl_website`, driver restarts and error counting are not modelled.
- Embedding.EmbedTexts: the oracle is a function of the text and the attempt, so two equal texts in one batch fail on the same attempts and get the same vector. The remote service does not promise that.
- Embedding.EmbedTexts: the raised message also carries the last exception (rag_chain.py line 50), but `EmbeddingFailed` keeps only the retry count, because the oracle answers `None` without an exception.
- `time.sleep`: the sleeps are recorded as log events, not waited.
- Progress callback: only the URLs handed to the progress callback are recorded, as `processed`; the callback's count arguments are not.
- Remote services: the Gemini embedding call and the LLM calls are outside the model. The embedding call is an oracle, and the LLM, the prompt and streaming are not modelled. YouTube transcript fetching and page fetching are function parameters.
- File parsers and the temporary file: `load_file` receives the parser's outcome, documents or the message it raised, as a function of the chosen loader. When a parser raises (an empty PDF or Word file, ingest.py lines 39-40 and 52) is up to that parameter. Writing and deleting the temporary file is not modelled.
- Website and transcript loaders: `load_url` receives each loader's outcome as a parameter. When `load_website` raises (ingest.py line 363) and when `load_youtube` finds no usable transcript (ingest.py lines 405-409) is up to those parameters.
- `normalize_url` and `get_base_domain`: both are opaque. Normalization is a function parameter (with `None` a possible result) and the base domain is a string parameter.
- JSON: metadata is a map from keys to the text that `->>` gives, so decoding a JSON string from the table is not modelled.
- Untitled pages: a page's title is a string, so a page without a title has the empty title rather than `None`.
- NewsDates.MonthWindow: `int()` also accepts a sign, surrounding whitespace and underscores. The model accepts only plain digits and reports anything else as `NotANumber`, so those inputs are rejected here where Python would go on.
- The day branch of the news search: `datetime.strptime` for a `YYYY-MM-DD` date is not modelled; `MonthWindow` reports it as `DayFormat`.
- Blank-line collapsing: the regular expression `\n\s*\n` that collapses blank lines before the news-text filter is not applied. Lines it rewrites are whitespace-only, and the filter drops those anyway.
- The other modules: the UI modules, RSS parsing, `split_documents` and `load_website` internals are not modelled.
