/**
 * Text extraction: the `extract_*_content` readers and the dispatch of
 * `extract_document_content`. The third-party readers (PDF pages, Word
 * paragraphs, workbook rows, the UTF-8 decoder) are opaque: their output for
 * a file is an input here, and `None` stands for a reader that raised.
 */
module Extraction {
  import opened Wrappers
  import opened Text
  import opened Paths

  /** Number of characters of text a thumbnail preview keeps. */
  const PreviewLimit := 200

  /**
   * The preview of every extractor: the text itself when it is at most 200
   * characters long, otherwise its first 200 characters and "...".
   */
  function Preview(text: string): (r: string)
    ensures |r| <= PreviewLimit + 3
    ensures |text| <= PreviewLimit ==> r == text
    ensures |text| > PreviewLimit ==> |r| == PreviewLimit + 3 && r[PreviewLimit..] == "..."
    ensures var n := if |text| <= PreviewLimit then |text| else PreviewLimit;
      n <= |r| && r[..n] == text[..n]
  {
    Truncate(text, PreviewLimit)
  }

  /**
   * The second half of an extractor's answer. `TextThumbnail(p)` is the data
   * URL that carries `p`; `NoThumbnail` is the empty string of the error path.
   */
  datatype Thumbnail = NoThumbnail | TextThumbnail(preview: string)

  /** The `(content, thumbnail)` pair an extractor returns. */
  datatype Extracted = Extracted(content: string, thumbnail: Thumbnail)

  /** What every extractor returns when its reader raises: `("", "")`. */
  const Unreadable := Extracted([], NoThumbnail)

  /** The text built by `text += item + "\n"` over a sequence of items. */
  function Lines(items: seq<string>): string
  {
    if items == [] then [] else items[0] + "\n" + Lines(items[1..])
  }

  /** One more item adds that item and a newline at the end. */
  lemma {:induction false} LinesSnoc(items: seq<string>, x: string)
    ensures Lines(items + [x]) == Lines(items) + x + "\n"
  {
    if items == [] {
      assert items + [x] == [x];
    } else {
      assert (items + [x])[1..] == items[1..] + [x];
      LinesSnoc(items[1..], x);
    }
  }

  /**
   * The accumulated text still tells its items apart: splitting it at the
   * newlines gives the items back, followed by the empty piece after the last
   * newline, as long as no item holds a newline of its own.
   */
  lemma {:induction false} LinesSplit(items: seq<string>)
    requires forall i :: 0 <= i < |items| ==> '\n' !in items[i]
    ensures Split(Lines(items), '\n') == items + [[]]
  {
    if items != [] {
      var rest := Lines(items[1..]);
      LinesSplit(items[1..]);
      assert Lines(items) == items[0] + ("\n" + rest);
      SplitAfter(items[0], '\n', "\n" + rest);
      assert ("\n" + rest)[1..] == rest;
      assert Split("\n" + rest, '\n') == [[]] + Split(rest, '\n');
      assert items[0] + [] == items[0];
      assert items == [items[0]] + items[1..];
    }
  }

  /** The accumulated text is whitespace only exactly when every item is. */
  lemma {:induction false} LinesBlank(items: seq<string>)
    ensures AllSpace(Lines(items)) <==> forall i :: 0 <= i < |items| ==> AllSpace(items[i])
  {
    if items != [] {
      var head := items[0] + "\n";
      var rest := Lines(items[1..]);
      LinesBlank(items[1..]);
      assert Lines(items) == head + rest;
      assert AllSpace(head + rest) <==> AllSpace(items[0]) && AllSpace(rest) by {
        if AllSpace(head + rest) {
          forall j | 0 <= j < |items[0]| ensures IsSpace(items[0][j]) {
            assert (head + rest)[j] == items[0][j];
          }
          forall j | 0 <= j < |rest| ensures IsSpace(rest[j]) {
            assert (head + rest)[|head| + j] == rest[j];
          }
        }
      }
      if forall i :: 0 <= i < |items| ==> AllSpace(items[i]) {
        forall i | 0 <= i < |items| - 1 ensures AllSpace(items[1..][i]) {
          assert items[1..][i] == items[i + 1];
        }
      }
      if AllSpace(items[0]) && forall i :: 0 <= i < |items| - 1 ==> AllSpace(items[1..][i]) {
        forall i | 0 <= i < |items| ensures AllSpace(items[i]) {
          if i > 0 { assert items[i] == items[1..][i - 1]; }
        }
      }
    }
  }

  /**
   * What `extract_pdf_content` and `extract_docx_content` return for the
   * page texts or paragraphs their reader yields: the stripped accumulated
   * text, and a preview of the accumulated text before stripping.
   */
  function LineDocument(items: Option<seq<string>>): Extracted
  {
    match items
    case None => Unreadable
    case Some(xs) => Extracted(Strip(Lines(xs)), TextThumbnail(Preview(Lines(xs))))
  }

  /**
   * A document whose pages or paragraphs are all whitespace extracts to empty
   * content (which the indexer then skips); any other yields content that
   * starts and ends with a non-whitespace character.
   */
  lemma BlankDocument(xs: seq<string>)
    ensures LineDocument(Some(xs)).content == [] <==> forall i :: 0 <= i < |xs| ==> AllSpace(xs[i])
    ensures var c := LineDocument(Some(xs)).content;
      c != [] ==> !IsSpace(c[0]) && !IsSpace(c[|c| - 1])
  {
    LinesBlank(xs);
  }

  /** The page or paragraph loop of `extract_pdf_content` and `extract_docx_content`. */
  method ExtractLineText(items: Option<seq<string>>) returns (e: Extracted)
    ensures e == LineDocument(items)
  {
    if items.None? {
      return Unreadable;
    }
    var xs := items.value;
    var text := "";
    for i := 0 to |xs|
      invariant text == Lines(xs[..i])
    {
      LinesSnoc(xs[..i], xs[i]);
      assert xs[..i + 1] == xs[..i] + [xs[i]];
      text := text + xs[i] + "\n";
    }
    assert xs[..|xs|] == xs;
    e := Extracted(Strip(text), TextThumbnail(Preview(text)));
  }

  /** A worksheet cell as `iter_rows(values_only=True)` yields it: `None` or a value's `str`. */
  datatype Cell = Empty | Value(text: string)

  /** A worksheet: its name and its rows of cells, in order. */
  datatype Sheet = Sheet(name: string, rows: seq<seq<Cell>>)

  /** `str(cell) if cell is not None else ""`. */
  function CellText(c: Cell): string
  {
    match c
    case Empty => []
    case Value(t) => t
  }

  function CellTexts(row: seq<Cell>): seq<string>
  {
    seq(|row|, k requires 0 <= k < |row| => CellText(row[k]))
  }

  /** `"\t".join(...)` over a row's cells. */
  function RowLine(row: seq<Cell>): string
  {
    Join("\t", CellTexts(row))
  }

  /**
   * A row is kept when `row_text.strip()` is truthy, which by the contract
   * of `Strip` is when its line is not whitespace only.
   */
  predicate Kept(line: string) {
    !AllSpace(line)
  }

  /** The kept ones among a sequence of row lines, in order. */
  function KeptLines(lines: seq<string>): seq<string>
  {
    if lines == [] then []
    else
      var line := lines[|lines| - 1];
      KeptLines(lines[..|lines| - 1]) + (if Kept(line) then [line] else [])
  }

  /** The line of each row. */
  function RowLines(rows: seq<seq<Cell>>): (r: seq<string>)
    ensures |r| == |rows|
  {
    seq(|rows|, j requires 0 <= j < |rows| => RowLine(rows[j]))
  }

  /** The lines a sheet's rows contribute: each row's line unless it strips to "". */
  function KeptRowLines(rows: seq<seq<Cell>>): seq<string>
  {
    KeptLines(RowLines(rows))
  }

  /** A sheet's lines: its `Sheet: <name>` header, then its kept rows. */
  function SheetLines(s: Sheet): seq<string>
  {
    ["Sheet: " + s.name] + KeptRowLines(s.rows)
  }

  /** The lines of a whole workbook, sheet after sheet. */
  function WorkbookLines(sheets: seq<Sheet>): seq<string>
  {
    if sheets == [] then []
    else WorkbookLines(sheets[..|sheets| - 1]) + SheetLines(sheets[|sheets| - 1])
  }

  /** The kept lines are exactly the given lines that are not whitespace only. */
  lemma {:induction false} KeptLinesExactly(lines: seq<string>)
    ensures forall line :: line in KeptLines(lines) <==> line in lines && Kept(line)
  {
    if lines != [] {
      var init := lines[..|lines| - 1];
      var last := lines[|lines| - 1];
      KeptLinesExactly(init);
      assert lines == init + [last];
    }
  }

  /**
   * Exactly the rows that are not whitespace only make it into a sheet's
   * kept row lines (the sheet's text after its header): a line is kept if
   * and only if it is the line of one of the rows and is not whitespace only.
   */
  lemma KeptRows(rows: seq<seq<Cell>>)
    ensures forall line :: line in KeptRowLines(rows) <==>
      !AllSpace(line) && exists j :: 0 <= j < |rows| && line == RowLine(rows[j])
  {
    var lines := RowLines(rows);
    KeptLinesExactly(lines);
    forall line ensures line in lines <==> exists j :: 0 <= j < |rows| && line == RowLine(rows[j]) {
      if line in lines {
        var j :| 0 <= j < |lines| && lines[j] == line;
        assert line == RowLine(rows[j]);
      }
      if exists j :: 0 <= j < |rows| && line == RowLine(rows[j]) {
        var j :| 0 <= j < |rows| && line == RowLine(rows[j]);
        assert lines[j] == line;
      }
    }
  }

  /** A row line splits back into its cells when no cell holds a tab. */
  lemma RowLineCells(row: seq<Cell>)
    requires |row| >= 1
    requires forall k :: 0 <= k < |row| ==> '\t' !in CellText(row[k])
    ensures Split(RowLine(row), '\t') == CellTexts(row)
  {
    SplitJoin(CellTexts(row), '\t');
  }

  /** What `extract_xlsx_content` returns for the sheets the workbook reader yields. */
  function WorkbookDocument(sheets: Option<seq<Sheet>>): Extracted
  {
    match sheets
    case None => Unreadable
    case Some(ss) =>
      var text := Lines(WorkbookLines(ss));
      Extracted(Strip(text), TextThumbnail(Preview(text)))
  }

  /** One more line is appended when it is kept. */
  lemma KeptLinesSnoc(lines: seq<string>, j: nat)
    requires j < |lines|
    ensures KeptLines(lines[..j + 1]) == KeptLines(lines[..j]) + (if Kept(lines[j]) then [lines[j]] else [])
  {
    assert lines[..j + 1][..j] == lines[..j];
  }

  /** One more sheet adds its lines to the workbook's. */
  lemma WorkbookLinesSnoc(sheets: seq<Sheet>, i: nat)
    requires i < |sheets|
    ensures WorkbookLines(sheets[..i + 1]) == WorkbookLines(sheets[..i]) + SheetLines(sheets[i])
  {
    assert sheets[..i + 1][..i] == sheets[..i];
  }

  /**
   * The row loop of `extract_xlsx_content`: appends the line of every row
   * that is not blank, each followed by a newline.
   */
  method AppendRows(text: string, rows: seq<seq<Cell>>, ghost before: seq<string>) returns (out: string)
    requires text == Lines(before)
    ensures out == Lines(before + KeptRowLines(rows))
  {
    ghost var lines := RowLines(rows);
    out := text;
    assert before + KeptLines(lines[..0]) == before;
    for j := 0 to |rows|
      invariant out == Lines(before + KeptLines(lines[..j]))
    {
      var rowText := RowLine(rows[j]);
      assert rowText == lines[j];
      KeptLinesSnoc(lines, j);
      if Kept(rowText) {
        LinesSnoc(before + KeptLines(lines[..j]), rowText);
        assert before + KeptLines(lines[..j + 1]) == before + KeptLines(lines[..j]) + [rowText];
        out := out + rowText + "\n";
      } else {
        assert KeptLines(lines[..j + 1]) == KeptLines(lines[..j]);
      }
    }
    assert lines[..|rows|] == lines;
  }

  /** The sheet loop of `extract_xlsx_content`. */
  method ExtractWorkbook(sheets: Option<seq<Sheet>>) returns (e: Extracted)
    ensures e == WorkbookDocument(sheets)
  {
    if sheets.None? {
      return Unreadable;
    }
    var ss := sheets.value;
    var text := "";
    for i := 0 to |ss|
      invariant text == Lines(WorkbookLines(ss[..i]))
    {
      var header := "Sheet: " + ss[i].name;
      LinesSnoc(WorkbookLines(ss[..i]), header);
      text := text + header + "\n";
      text := AppendRows(text, ss[i].rows, WorkbookLines(ss[..i]) + [header]);
      WorkbookLinesSnoc(ss, i);
      assert WorkbookLines(ss[..i]) + [header] + KeptRowLines(ss[i].rows) == WorkbookLines(ss[..i + 1]);
    }
    assert ss[..|ss|] == ss;
    e := Extracted(Strip(text), TextThumbnail(Preview(text)));
  }

  /** What `extract_text_content` returns: the decoded text unstripped, and its preview. */
  function PlainDocument(text: Option<string>): (e: Extracted)
    ensures text.None? ==> e == Unreadable
    ensures text.Some? ==> e.content == text.value && e.thumbnail.TextThumbnail?
    ensures text.Some? ==> var n := if |text.value| <= PreviewLimit then |text.value| else PreviewLimit;
      n <= |e.thumbnail.preview| && e.thumbnail.preview[..n] == text.value[..n]
  {
    match text
    case None => Unreadable
    case Some(t) => Extracted(t, TextThumbnail(Preview(t)))
  }

  /** The reader `extract_document_content` hands a file to. */
  datatype Kind = Pdf | WordDocument | Spreadsheet | PlainText | Unsupported

  const PdfMime := "application/pdf"
  const DocxMime := "application/vnd.openxmlformats-officedocument.wordprocessingml.document"
  const XlsxMime := "application/vnd.openxmlformats-officedocument.spreadsheetml.sheet"
  const TextMime := "text/plain"

  /** The reader an extension alone selects. */
  function KindOfExtension(ext: string): Kind
  {
    if ext == ".pdf" then Pdf
    else if ext == ".docx" || ext == ".doc" then WordDocument
    else if ext == ".xlsx" || ext == ".xls" then Spreadsheet
    else if ext == ".txt" || ext == ".rtf" then PlainText
    else Unsupported
  }

  /** The reader a guessed mime type alone selects. */
  function KindOfMime(mime: Option<string>): Kind
  {
    match mime
    case None => Unsupported
    case Some(m) =>
      if m == PdfMime then Pdf
      else if m == DocxMime then WordDocument
      else if m == XlsxMime then Spreadsheet
      else if m == TextMime then PlainText
      else Unsupported
  }

  /** Position of a reader in the order the dispatch tests them. */
  function Rank(k: Kind): nat
  {
    match k
    case Pdf => 0
    case WordDocument => 1
    case Spreadsheet => 2
    case PlainText => 3
    case Unsupported => 4
  }

  /**
   * The dispatch of `extract_document_content` on the lower-cased extension
   * and the guessed mime type. Each test accepts either, and the first that
   * passes wins: the result is whichever of the two lookups comes first in
   * the test order. A file is handled by some reader exactly when its
   * extension is a supported one or its mime type is one of the four named.
   */
  function Classify(ext: string, mime: Option<string>): (k: Kind)
    ensures k == (if Rank(KindOfExtension(ext)) <= Rank(KindOfMime(mime))
                  then KindOfExtension(ext) else KindOfMime(mime))
    ensures k == Unsupported <==> ext !in SupportedExtensions && KindOfMime(mime) == Unsupported
    ensures mime.None? ==> (k != Unsupported <==> ext in SupportedExtensions)
  {
    if ext == ".pdf" || mime == Some(PdfMime) then Pdf
    else if ext in [".docx", ".doc"] || mime in [Some(DocxMime)] then WordDocument
    else if ext in [".xlsx", ".xls"] || mime in [Some(XlsxMime)] then Spreadsheet
    else if ext in [".txt", ".rtf"] || mime == Some(TextMime) then PlainText
    else Unsupported
  }

  /** What each opaque reader yields for one file. */
  datatype Readings = Readings(
    pages: Option<seq<string>>,
    paragraphs: Option<seq<string>>,
    workbook: Option<seq<Sheet>>,
    text: Option<string>)

  /** What the reader of a kind returns for a file. */
  function DocumentFor(k: Kind, file: Readings): Extracted
  {
    match k
    case Pdf => LineDocument(file.pages)
    case WordDocument => LineDocument(file.paragraphs)
    case Spreadsheet => WorkbookDocument(file.workbook)
    case PlainText => PlainDocument(file.text)
    case Unsupported => Unreadable
  }

  /**
   * `extract_document_content`: the file named `name`, with the mime type
   * guessed for it, goes to the reader its classification names; a file no
   * reader handles yields `("", "")`.
   */
  method ExtractDocument(name: string, mime: Option<string>, file: Readings) returns (e: Extracted)
    ensures e == DocumentFor(Classify(Extension(name), mime), file)
    ensures Extension(name) !in SupportedExtensions && KindOfMime(mime) == Unsupported ==> e == Unreadable
  {
    var kind := Classify(Extension(name), mime);
    match kind
    case Pdf => e := ExtractLineText(file.pages);
    case WordDocument => e := ExtractLineText(file.paragraphs);
    case Spreadsheet => e := ExtractWorkbook(file.workbook);
    case PlainText => e := PlainDocument(file.text);
    case Unsupported => e := Unreadable;
  }
}
