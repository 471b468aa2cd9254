# Document browser backend: search, extraction and file tree

This project models the core of the document browser's backend,
`backend/server.py`. The backend indexes the documents under a root directory,
shows them as a file tree and answers full-text searches. The model covers:

- the text of each kind of document (PDF pages, Word paragraphs, spreadsheet
  rows, plain text) and its 200-character preview;
- the dispatch that picks a reader from the lower-cased file suffix and the
  guessed mime type;
- the supported-extension filter of the directory scan and of the tree builder;
- `build_file_tree` over an in-memory directory;
- `search_documents`: the blank-query guard, the snippet window around the
  first case-insensitive match, and the assembly of the response.

Modules:

- `Wrappers`: `Option`.
- `Text`: the Python string built-ins the code relies on (`isspace`, `strip`,
  ASCII `lower`, `find`, `join`, `split`).
- `Paths`: `PurePath.suffix`, the supported extensions, child path strings.
- `Extraction`: the `extract_*_content` readers and `extract_document_content`.
- `FileTree`: the directory datatype, name order, `build_file_tree`.
- `Scan`: the files `scan_directory` hands to the indexer, and their agreement with the tree.
- `Search`: the snippet and `search_documents`.

The third-party readers are inputs. So are the mime type guess and the
documents the database ranks for a query.

## Model

| member | source | states |
|---|---|---|
| Text.Strip | backend/server.py:285 | `strip()` removes exactly the leading and trailing whitespace runs; the result is empty iff the text is whitespace only, otherwise it starts and ends with a non-space character |
| Text.Truncate | backend/server.py:325 | `s[:n] + "..."` when the text is longer than n, otherwise the text itself: at most n + 3 characters, starting with the text's first min(len, n) characters |
| Text.Lower | backend/server.py:319 | `str.lower()` for ASCII letters, one character at a time, keeping the length |
| Text.Find | backend/server.py:319 | `find` returns the least index where the substring occurs, or -1 exactly when it occurs nowhere |
| Text.Join | backend/server.py:124 | `"\t".join(cells)`: no parts give "", and the first part begins the result |
| Text.SplitJoin | backend/server.py:124 | for at least one piece, none of which contains the one-character separator, joining the pieces with it and splitting at it gives the pieces back (zero pieces join to "", which splits to one empty piece) |
| Paths.LastIndexBefore | backend/server.py:154 | the `rfind` that `PurePath.suffix` performs on the name behind `file_path.suffix`: the last index below a bound holding a character, or -1 when none does |
| Paths.Suffix | backend/server.py:154 | a file's suffix is non-empty iff a dot that is neither its first nor its last character has no dot after it; the suffix is then a proper tail of the name starting with that dot |
| Paths.SuffixFromLastDot | backend/server.py:154 | the suffix is the text from the last dot of the name when that dot is neither the first nor the last character, and empty otherwise |
| Paths.IsSupported | backend/server.py:244 | a name passes the filter `suffix.lower() in {...}` of the tree builder, and of the scan at :225, when its lower-cased suffix is one of the seven extensions |
| Paths.SupportedIffEndsWith | backend/server.py:225 | a name passes `suffix.lower() in {...}` iff, ignoring ASCII case, it ends in one of the seven extensions with at least one character before it: a hidden file named `.pdf` has no suffix and is skipped, `a..PDF` is kept |
| Paths.ChildPath | backend/server.py:243 | `str(child)` for an entry listed by `iterdir()`: the parent path, a separator and the name, with no extra separator after the root |
| Paths.ChildPathInjective | backend/server.py:243 | below one parent, different names give different child paths, and a child with a non-empty name never has its parent's path |
| Paths.Extension | backend/server.py:154 | the lower-cased suffix keeps the suffix's length and is the lower-cased tail of the name |
| Extraction.Preview | backend/server.py:89 | the preview is the text when it has at most 200 characters, otherwise 203 characters ending in "..."; either way the text's first min(len, 200) characters begin it |
| Extraction.LinesSnoc | backend/server.py:86 | one more page or paragraph appends its text and a newline |
| Extraction.LinesSplit | backend/server.py:102-103 | when no page or paragraph holds a newline of its own, the accumulated text splits at its newlines back into the paragraphs, plus the empty piece after the last newline; multi-line page or paragraph text is not covered |
| Extraction.LinesBlank | backend/server.py:102-103 | the accumulated text is whitespace only iff every paragraph is |
| Extraction.BlankDocument | backend/server.py:84-91 | the content of a PDF or Word document is empty iff every page or paragraph is whitespace only, and otherwise starts and ends with a non-space character |
| Extraction.ExtractLineText | backend/server.py:97-111 | the paragraph loop returns the stripped accumulated text with the preview of the unstripped text, and `("", "")` when the reader raises |
| Extraction.KeptLinesExactly | backend/server.py:125-126 | the kept lines are exactly the given lines that are not whitespace only |
| Extraction.KeptRows | backend/server.py:124-126 | a line is among a sheet's kept row lines (the sheet's text without its `Sheet: <name>` header) iff it is some row's cells joined by tabs and is not whitespace only |
| Extraction.RowLineCells | backend/server.py:124 | for a row of at least one cell in which no cell's text holds a tab, the row's line splits at its tabs back into the cell texts, `None` cells giving "" |
| Extraction.KeptLinesSnoc | backend/server.py:125-126 | one more row adds its line exactly when the line is not whitespace only |
| Extraction.WorkbookLinesSnoc | backend/server.py:119-121 | one more sheet adds its `Sheet: <name>` header and its kept rows |
| Extraction.AppendRows | backend/server.py:123-126 | the row loop appends each non-blank row's tab-joined line and a newline, in row order, and nothing else |
| Extraction.ExtractWorkbook | backend/server.py:113-134 | the workbook text is, sheet after sheet, a header line then the kept rows; the content is that text stripped, with its preview; `("", "")` when the reader raises |
| Extraction.PlainDocument | backend/server.py:136-148 | the plain-text reader returns the decoded text unstripped, with a preview that begins with its first min(len, 200) characters; `("", "")` when decoding raises |
| Extraction.Classify | backend/server.py:150-165 | first match in the order PDF, Word, spreadsheet, text; each test accepts the extension or the mime type; the result is unsupported iff neither the extension nor the mime type is recognised |
| Extraction.ExtractDocument | backend/server.py:150-168 | the file goes to the reader its classification names; a file no test accepts yields `("", "")` |
| FileTree.NameLeTotal | backend/server.py:243 | any two names are ordered one way or the other |
| FileTree.NameLeTransitive | backend/server.py:243 | the name order is transitive |
| FileTree.NameLeCommonPrefix | backend/server.py:243 | putting the same parent path in front of two names keeps their order |
| FileTree.InsertMultiset | backend/server.py:243 | insertion adds the entry and loses none |
| FileTree.InsertSorted | backend/server.py:243 | insertion into an ordered listing keeps it ordered |
| FileTree.SortByName | backend/server.py:243 | `sorted(path.iterdir())` as insertion sort by name; its order and permutation are stated by `FileTree.SortByNameCorrect` |
| FileTree.SortByNameCorrect | backend/server.py:243 | `sorted(iterdir())` is ordered by name and is a permutation of the listing |
| FileTree.Shown | backend/server.py:244 | the test `child.is_dir() or child.suffix.lower() in {...}`: a directory, or a file whose name is supported |
| FileTree.ShownAmongStep | backend/server.py:243-245 | one more entry passed is kept exactly when it passes the test at :244 |
| FileTree.ShownAmongExactly | backend/server.py:243-245 | the loop keeps exactly the subdirectories and supported files it has passed |
| FileTree.ShownAmongBelow | backend/server.py:243-245 | a bound on the names of the entries passed bounds the names of those kept |
| FileTree.ShownAmongSorted | backend/server.py:243-245 | keeping some entries of the sorted listing keeps them in order |
| FileTree.VisitedChildren | backend/server.py:243-245 | every visited child comes from the directory's listing |
| FileTree.VisitedChildrenShownSorted | backend/server.py:243-245 | the visited children are in name order and each is a directory or a supported file |
| FileTree.VisitedChildrenExactly | backend/server.py:243-245 | an entry is visited iff it is in the listing and is a directory or a supported file |
| FileTree.TreesOfSnoc | backend/server.py:245 | appending a child's tree keeps the children one for one with the visited entries |
| FileTree.DirectoryTree | backend/server.py:233-249 | a readable directory's node whose children are the trees of its visited entries is its tree |
| FileTree.SortedFromListing | backend/server.py:243 | every entry of the sorted listing comes from the listing |
| FileTree.BuildFileTree | backend/server.py:232-249 | the node has the entry's name and path and is a folder iff the entry is a directory; files and unreadable directories have no children; a readable directory has one child per subdirectory or supported file, in sorted order, each built the same way |
| FileTree.TreeOfUnique | backend/server.py:232-249 | an entry at a path has only one tree |
| FileTree.TreeWellFormed | backend/server.py:234-245 | in every built tree, file nodes have no children, each child's path is its parent's path joined with its name, every child that is a file has a supported extension (a file passed as the root itself is not filtered), and children are in ascending order of path |
| Scan.Scanned | backend/server.py:224-226 | the paths `rglob("*")` and the filter hand to `index_file` below an entry: a supported file's own path, nothing for an unreadable directory, and the union over a readable directory's entries |
| Scan.UnionOfSnoc | backend/server.py:224-225 | the union over one more entry adds that entry's files |
| Scan.UnionOfMember | backend/server.py:224-225 | a path is in a union over entries iff some entry contributes it |
| Scan.ScannedFromIsUnion | backend/server.py:224-225 | the files scanned below a directory are the union of those below each entry |
| Scan.UnshownScansNothing | backend/server.py:225 | an unsupported file contributes no file handed to the indexer |
| Scan.ChildFilesAreScanned | backend/server.py:224-245 | the files below a node's first n children are the files scanned below the first n visited entries |
| Scan.TreeShowsScannedFiles | backend/server.py:224-245 | for an in-memory entry that is a directory or a supported file, the files the tree shows below it are exactly the files the scan hands to the indexer there (an unsupported file passed as the root is shown but not scanned) |
| Search.MatchWindow | backend/server.py:321-322 | `start` is `i - 50`, or 0 when `i < 50`; `end` is `i + len(query) + 100`, or `len(content)` when that runs past the end; so `0 <= start <= i`, `i + len(query) <= end <= len(content)`, and the window is at most 150 characters longer than the query |
| Search.LowerSlice | backend/server.py:319 | lower-casing a slice is slicing the lower-cased text |
| Search.MatchesAtLowered | backend/server.py:317-319 | a case-insensitive match at k is an occurrence of the lower-cased query in the lower-cased content at k |
| Search.FirstMatch | backend/server.py:317-319 | the snippet is cut at the first case-insensitive match, and at -1 exactly when there is none |
| Search.ContentOf | backend/server.py:315 | `doc.get('content', '')`: the stored content, or "" when the document has none |
| Search.Framed | backend/server.py:323 | `"..." + s + "..."` is `s` with three dots on either side, six characters longer |
| Search.WrappedSlice | backend/server.py:321-323 | a stretch of the content inside the window shows in the framed window `3 + (k - start)` characters in |
| Search.Snippet | backend/server.py:315-325 | when the query occurs ignoring case, the snippet is the window `content[start:end]` around its first match between two ellipses, and shows the match, equal to the query but for case, `i - start` characters after the first ellipsis; otherwise it is `Text.Truncate(content, 150)`, at most 153 characters; either way at most `len(query) + 156` characters |
| Search.ResultFor | backend/server.py:335-339 | a result keeps the hit's document and score, and its snippet is at most `len(query) + 156` characters |
| Search.CollectResults | backend/server.py:314-340 | the loop over the pipeline's documents appends one result per document, in order, each with its document, score and snippet |
| Search.SearchDocuments | backend/server.py:281-346 | a blank query answers no results without reaching the pipeline; a non-positive limit answers HTTP 500; otherwise one result per ranked document up to the limit, in rank order, each with its document, score and snippet, with `total` the number of results and the query echoed |

## Left out

- MongoDB access (`replace_one`, `aggregate`, `find_one`, `count_documents`, index creation), FastAPI routing, CORS and file responses: database and framework I/O. The database's text match, scoring and order are the input `ranked` of `Search.SearchDocuments`.
- `periodic_scan`, the startup and shutdown hooks and `asyncio.sleep`: scheduling and concurrency.
- The internals of PyPDF2, python-docx, openpyxl, the UTF-8 decoder and `mimetypes.guess_type`: their output for a file is an input (`None` when they raise).
- The thumbnail's base64 data URL: the model keeps the preview text it encodes.
- Timestamps, ISO date parsing and UUID generation: library calls with nothing to state.
- `index_file` and the route handlers other than `search_documents`: they only combine extraction with database I/O.
- Real file-system traversal: a directory is an in-memory `Entry`, and a listing that raises `PermissionError` is `Denied`.
- FileTree.BuildFileTree: builds the tree of an in-memory `Entry`, so it has no symbolic links. On a real file system `build_file_tree` follows a symbolic link to a directory, because `is_dir()` follows links, and recurses forever on a link cycle. When `is_dir()` raises `PermissionError` part-way through a listing, the children appended so far are kept, whereas a `Denied` listing keeps none.
- Scan.TreeShowsScannedFiles: holds for the in-memory directory, which has no symbolic links and no files other than regular files and directories. On a real file system `build_file_tree` follows a symbolic link to a directory (and recurses forever on a link cycle) while `rglob` does not descend into it; a broken link or a FIFO with a supported suffix is shown but not scanned; and an `is_dir()` that raises `PermissionError` part-way through a listing keeps the children appended so far, where `Denied` keeps none. The scan counts files handed to `index_file`, which still drops a file whose extracted content is empty.
- Scan.Scanned: a directory that cannot be read contributes no files. The traversal order of `rglob` and the other errors it can raise are not modelled.
- Text.Lower: only ASCII letters are lower-cased, one character at a time, so the length never changes. Python's Unicode case mapping can change a string's length, which would misalign the snippet slice. Non-ASCII letters such as Ł/ł or É/é are not folded: a match that Python finds only through their case is missed by `Search.FirstMatch`, and `Search.Snippet` shows the 150-character fallback instead of the window.
- FileTree.SortByName: children are ordered by name. `sorted` compares whole paths, but siblings share their parent, so the two orders agree.
- Search.SearchDocuments: `limit` is a required input; the default of 20 that `SearchRequest` gives it is not modelled. A pipeline error other than a non-positive `$limit` is not modelled, nor is a stored document whose `content` is null. `index_file` stores only documents with non-empty content.
- Search.StoredDoc: the datetime fields and the thumbnail of a stored document are not part of the model.
