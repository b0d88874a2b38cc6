/**
 * Bulk generation (generateAllCertificates): every spreadsheet row becomes a one-
 * or two-page A4 document, stored in the download archive under the row's file
 * name, while a progress counter follows the rows.
 *
 * Canvas drawing, JPEG encoding, jsPDF and JSZip are not modelled bit for bit: a
 * rendered page is the background plus the list of text runs drawn on it, a PDF is
 * its list of pages, and the archive is a map from entry names to documents.
 */
module Certificates {
  import opened Wrappers
  import opened Cells
  import opened Fields
  import opened FileNames
  import opened Archives

  /** One entry of backgroundImages: a rasterised template page. */
  datatype PageImage = PageImage(imageData: string, width: int, height: int, pageNumber: int)

  /** What a raster back end reports for page `n` of a PDF: its data URL and pixel size. */
  type Rasterizer = nat -> (string, int, int)

  /** convertPdfToImages: the first two pages at most, numbered from 1, and the page count. */
  method ConvertPdfToImages(numPages: nat, rasterize: Rasterizer) returns (pages: seq<PageImage>, totalPages: nat)
    ensures totalPages == numPages
    ensures |pages| == (if numPages < 2 then numPages else 2)
    ensures forall k :: 0 <= k < |pages| ==>
      pages[k] == PageImage(rasterize(k + 1).0, rasterize(k + 1).1, rasterize(k + 1).2, k + 1)
  {
    var maxPages := if numPages < 2 then numPages else 2;
    pages := [];
    var i := 1;
    while i <= maxPages
      invariant 1 <= i <= maxPages + 1
      invariant |pages| == i - 1
      invariant forall k :: 0 <= k < |pages| ==>
        pages[k] == PageImage(rasterize(k + 1).0, rasterize(k + 1).1, rasterize(k + 1).2, k + 1)
    {
      var (imageData, width, height) := rasterize(i);
      pages := pages + [PageImage(imageData, width, height, i)];
      i := i + 1;
    }
    totalPages := numPages;
  }

  datatype Orientation = Portrait | Landscape

  /** `page.width > page.height ? 'landscape' : 'portrait'`. */
  function OrientationOf(p: PageImage): (o: Orientation)
    ensures o == Landscape <==> p.width > p.height
  {
    if p.width > p.height then Landscape else Portrait
  }

  /** A canvas with the background drawn and then the fields' text runs painted on it. */
  datatype Raster = Raster(background: PageImage, runs: seq<TextRun>)

  /** One A4 page of the document, the raster stretched over it. */
  datatype PdfPage = PdfPage(orientation: Orientation, image: Raster)

  datatype Pdf = Pdf(pages: seq<PdfPage>)

  /** Everything the run shares between rows: the background pages, the front
   *  (page 1) and back (page 2) field lists and the text measure. */
  datatype Design = Design(pages: seq<PageImage>, front: seq<Field>, back: seq<Field>, measure: Measure)

  function RenderPage(page: PageImage, fs: seq<Field>, row: seq<Cell>, measure: Measure): Raster {
    Raster(page, DrawFields(fs, row, measure))
  }

  /** The document of one row: the front page, and the back page when the design has a second background. */
  function CertificatePdf(row: seq<Cell>, d: Design): (pdf: Pdf)
    requires |d.pages| > 0
  {
    var first := PdfPage(OrientationOf(d.pages[0]), RenderPage(d.pages[0], d.front, row, d.measure));
    if |d.pages| > 1 then
      Pdf([first, PdfPage(OrientationOf(d.pages[1]), RenderPage(d.pages[1], d.back, row, d.measure))])
    else Pdf([first])
  }

  /** A page 2 exists only with a second background; each page is landscape exactly
   *  when its background is wider than tall; both pages print the same row, the
   *  front with the page-1 fields and the back with the page-2 fields. */
  lemma CertificatePages(row: seq<Cell>, d: Design)
    requires |d.pages| > 0
    ensures var pdf := CertificatePdf(row, d);
      && |pdf.pages| == (if |d.pages| > 1 then 2 else 1)
      && (forall k :: 0 <= k < |pdf.pages| ==>
            && (pdf.pages[k].orientation == Landscape <==> d.pages[k].width > d.pages[k].height)
            && pdf.pages[k].image.background == d.pages[k])
      && pdf.pages[0].image.runs == DrawFields(d.front, row, d.measure)
      && (|d.pages| > 1 ==> pdf.pages[1].image.runs == DrawFields(d.back, row, d.measure))
  {
  }

  // ---------------------------------------------------------------------------
  // The archive

  type Archive = map<string, Pdf>

  /** How the loop names a row: the entry name of row `i`, or `None` when building
   *  the name throws. The application names rows by `CertificateFileName`; the laws
   *  of the archive and of the run below hold for any naming. */
  type Naming = (seq<Cell>, nat) -> Option<string>

  /** The first `n` rows all get a name. */
  predicate AllNamed(rows: seq<seq<Cell>>, n: nat, name: Naming)
    requires n <= |rows|
  {
    forall i :: 0 <= i < n ==> name(rows[i], i).Some?
  }

  /** With the application's naming, a row gets a name exactly when its cell 0 is truthy. */
  lemma CertificateNamed(rows: seq<seq<Cell>>, n: nat)
    requires n <= |rows|
    ensures AllNamed(rows, n, CertificateFileName) <==> forall i :: 0 <= i < n ==> Truthy(CellAt(rows[i], 0))
  {
    assert forall i :: 0 <= i < n ==> (CertificateFileName(rows[i], i).Some? <==> Truthy(CellAt(rows[i], 0)));
  }

  function NameOf(rows: seq<seq<Cell>>, i: nat, name: Naming): string
    requires i < |rows| && name(rows[i], i).Some?
  {
    name(rows[i], i).value
  }

  /** The entries written for rows `0 .. n - 1`, in order: each row's name and document. */
  function Entries(rows: seq<seq<Cell>>, n: nat, d: Design, name: Naming): (e: seq<(string, Pdf)>)
    requires |d.pages| > 0 && n <= |rows| && AllNamed(rows, n, name)
    ensures |e| == n
    ensures forall i :: 0 <= i < n ==> e[i] == (NameOf(rows, i, name), CertificatePdf(rows[i], d))
  {
    seq(n, i requires 0 <= i < n => (NameOf(rows, i, name), CertificatePdf(rows[i], d)))
  }

  /** The archive after rows `0 .. n - 1`: `zip.file(name, pdf)` for each, in order, each
   *  row writing over the archive so far. */
  function ArchiveUpTo(rows: seq<seq<Cell>>, n: nat, d: Design, name: Naming): Archive
    requires |d.pages| > 0 && n <= |rows| && AllNamed(rows, n, name)
  {
    if n == 0 then map[]
    else ArchiveUpTo(rows, n - 1, d, name)[NameOf(rows, n - 1, name) := CertificatePdf(rows[n - 1], d)]
  }

  /** One more row appends its entry to the entries so far. */
  lemma EntriesStep(rows: seq<seq<Cell>>, n: nat, d: Design, name: Naming)
    requires |d.pages| > 0 && n < |rows| && AllNamed(rows, n + 1, name)
    ensures Entries(rows, n + 1, d, name) == Entries(rows, n, d, name) + [(NameOf(rows, n, name), CertificatePdf(rows[n], d))]
  {
    var e, e' := Entries(rows, n, d, name), Entries(rows, n + 1, d, name);
    forall i | 0 <= i < n
      ensures e'[i] == e[i]
    {
    }
    assert e'[..n] == e;
  }

  /** The archive is the one the entries of the rows write, in order. */
  lemma {:induction false} ArchiveIsWrite(rows: seq<seq<Cell>>, n: nat, d: Design, name: Naming)
    requires |d.pages| > 0 && n <= |rows| && AllNamed(rows, n, name)
    ensures ArchiveUpTo(rows, n, d, name) == Write(Entries(rows, n, d, name))
  {
    if n > 0 {
      ArchiveIsWrite(rows, n - 1, d, name);
      EntriesStep(rows, n - 1, d, name);
      WriteAppend(Entries(rows, n - 1, d, name), NameOf(rows, n - 1, name), CertificatePdf(rows[n - 1], d));
    }
  }

  /** The archive holds exactly the rows' names. */
  lemma ArchiveKeys(rows: seq<seq<Cell>>, n: nat, d: Design, name: Naming)
    requires |d.pages| > 0 && n <= |rows| && AllNamed(rows, n, name)
    ensures ArchiveUpTo(rows, n, d, name).Keys == set i | 0 <= i < n :: NameOf(rows, i, name)
  {
    ArchiveIsWrite(rows, n, d, name);
    var e := Entries(rows, n, d, name);
    WriteKeys(e);
    assert Names(e) == set i | 0 <= i < n :: NameOf(rows, i, name) by {
      forall x | x in Names(e)
        ensures x in set i | 0 <= i < n :: NameOf(rows, i, name)
      {
        var i :| 0 <= i < |e| && e[i].0 == x;
        assert x == NameOf(rows, i, name);
      }
      forall x | x in set i | 0 <= i < n :: NameOf(rows, i, name)
        ensures x in Names(e)
      {
        var i :| 0 <= i < n && NameOf(rows, i, name) == x;
        assert e[i].0 == x;
      }
    }
  }

  /** The entry under a row's name holds the document of the last row with that name:
   *  a repeated name overwrites the earlier entry. */
  lemma ArchiveLastWins(rows: seq<seq<Cell>>, n: nat, d: Design, name: Naming, i: nat)
    requires |d.pages| > 0 && n <= |rows| && AllNamed(rows, n, name) && i < n
    requires forall j :: i < j < n ==> NameOf(rows, j, name) != NameOf(rows, i, name)
    ensures NameOf(rows, i, name) in ArchiveUpTo(rows, n, d, name)
    ensures ArchiveUpTo(rows, n, d, name)[NameOf(rows, i, name)] == CertificatePdf(rows[i], d)
  {
    ArchiveIsWrite(rows, n, d, name);
    var e := Entries(rows, n, d, name);
    assert forall j :: i < j < |e| ==> e[j].0 != e[i].0 by {
      forall j | i < j < |e|
        ensures e[j].0 != e[i].0
      {
        assert e[j].0 == NameOf(rows, j, name);
      }
    }
    WriteLastWins(e, i);
  }

  /** There are never more entries than rows. */
  lemma ArchiveSize(rows: seq<seq<Cell>>, n: nat, d: Design, name: Naming)
    requires |d.pages| > 0 && n <= |rows| && AllNamed(rows, n, name)
    ensures |ArchiveUpTo(rows, n, d, name)| <= n
  {
    ArchiveIsWrite(rows, n, d, name);
    WriteSize(Entries(rows, n, d, name));
  }

  /** When all the rows' names differ, every row keeps its own entry. */
  lemma ArchiveSizeDistinct(rows: seq<seq<Cell>>, n: nat, d: Design, name: Naming)
    requires |d.pages| > 0 && n <= |rows| && AllNamed(rows, n, name)
    requires forall i, j :: 0 <= i < j < n ==> NameOf(rows, i, name) != NameOf(rows, j, name)
    ensures |ArchiveUpTo(rows, n, d, name)| == n
  {
    ArchiveIsWrite(rows, n, d, name);
    var e := Entries(rows, n, d, name);
    forall i, j | 0 <= i < j < |e|
      ensures e[i].0 != e[j].0
    {
      assert e[i].0 == NameOf(rows, i, name) && e[j].0 == NameOf(rows, j, name);
    }
    WriteSize(e);
  }

  // ---------------------------------------------------------------------------
  // The generation run

  datatype GenerationError =
    | NoBackground                   // backgroundImages is empty: reading page 1 throws
    | CleanStringOnNumber(row: nat)  // naming row `row` throws: with the application's naming,
                                     // its cell 0 is falsy and cleanString(i + 1) throws

  datatype Generation = Delivered(archive: Archive) | Aborted(error: GenerationError)

  /** The successive values of the progress counter: 0, then one more after each of `n` rows. */
  function Counting(n: nat): (s: seq<nat>)
    ensures |s| == n + 1 && s[0] == 0 && s[n] == n
  {
    if n == 0 then [0] else Counting(n - 1) + [n]
  }

  /** After `k` rows the counter reads `k`: the run reports every row, in order. */
  lemma {:induction false} CountingCounts(n: nat)
    ensures forall k :: 0 <= k <= n ==> Counting(n)[k] == k
  {
    if n > 0 {
      CountingCounts(n - 1);
      assert forall k :: 0 <= k < n ==> Counting(n)[k] == Counting(n - 1)[k];
    }
  }

  /** The first row, from `i` on, that gets no name: the row at which naming throws. */
  function FirstUnnamedFrom(rows: seq<seq<Cell>>, i: nat, name: Naming): (r: Option<nat>)
    requires i <= |rows|
    ensures r.Some? ==> i <= r.value < |rows| && name(rows[r.value], r.value).None?
    ensures r.Some? ==> forall j :: i <= j < r.value ==> name(rows[j], j).Some?
    ensures r.None? <==> forall j :: i <= j < |rows| ==> name(rows[j], j).Some?
    decreases |rows| - i
  {
    if i == |rows| then None
    else if name(rows[i], i).None? then Some(i)
    else FirstUnnamedFrom(rows, i + 1, name)
  }

  /** What a run delivers: nothing without a background, nothing when naming some row
   *  throws (the first such row is reported), and otherwise the whole archive. */
  function GenerationOf(rows: seq<seq<Cell>>, d: Design, name: Naming): Generation {
    if d.pages == [] then Aborted(NoBackground)
    else match FirstUnnamedFrom(rows, 0, name)
      case Some(k) => Aborted(CleanStringOnNumber(k))
      case None => Delivered(ArchiveUpTo(rows, |rows|, d, name))
  }

  /** How many rows a run writes before it ends: the last value of the progress counter. */
  function RowsWritten(rows: seq<seq<Cell>>, d: Design, name: Naming): nat {
    if d.pages == [] then 0
    else match FirstUnnamedFrom(rows, 0, name)
      case Some(k) => k
      case None => |rows|
  }

  /** A run delivers exactly when there is a background and every row gets a name; an
   *  aborted run with a background stops at the first unnamed row, having written
   *  every row before it. */
  lemma GenerationOutcome(rows: seq<seq<Cell>>, d: Design, name: Naming)
    ensures GenerationOf(rows, d, name).Delivered? <==> d.pages != [] && AllNamed(rows, |rows|, name)
    ensures GenerationOf(rows, d, name).Delivered? ==> RowsWritten(rows, d, name) == |rows|
    ensures d.pages == [] ==> GenerationOf(rows, d, name) == Aborted(NoBackground) && RowsWritten(rows, d, name) == 0
    ensures d.pages != [] && GenerationOf(rows, d, name).Aborted? ==>
      && GenerationOf(rows, d, name).error.CleanStringOnNumber?
      && var k := GenerationOf(rows, d, name).error.row;
         k == RowsWritten(rows, d, name) && k < |rows| && AllNamed(rows, k, name) && name(rows[k], k).None?
  {
  }

  /** generateAllCertificates with the application's naming delivers exactly when there
   *  is a background and every row has a truthy cell 0, and otherwise stops at the first
   *  row whose cell 0 is falsy. */
  lemma CertificateRunOutcome(rows: seq<seq<Cell>>, d: Design)
    ensures GenerationOf(rows, d, CertificateFileName).Delivered? <==>
      d.pages != [] && forall i :: 0 <= i < |rows| ==> Truthy(CellAt(rows[i], 0))
    ensures d.pages != [] && GenerationOf(rows, d, CertificateFileName).Aborted? ==>
      var k := GenerationOf(rows, d, CertificateFileName).error.row;
      && k < |rows| && !Truthy(CellAt(rows[k], 0))
      && forall i :: 0 <= i < k ==> Truthy(CellAt(rows[i], 0))
  {
    GenerationOutcome(rows, d, CertificateFileName);
    CertificateNamed(rows, |rows|);
    if d.pages != [] && GenerationOf(rows, d, CertificateFileName).Aborted? {
      CertificateNamed(rows, GenerationOf(rows, d, CertificateFileName).error.row);
    }
  }

  /** A run with a background that meets an unnamed row after `i` named ones stops there. */
  lemma AbortedAt(rows: seq<seq<Cell>>, i: nat, d: Design, name: Naming)
    requires |d.pages| > 0 && i < |rows| && AllNamed(rows, i, name) && name(rows[i], i).None?
    ensures GenerationOf(rows, d, name) == Aborted(CleanStringOnNumber(i))
    ensures RowsWritten(rows, d, name) == i
  {
    assert FirstUnnamedFrom(rows, 0, name) == Some(i);
  }

  /** A run with a background over named rows only delivers the whole archive. */
  lemma DeliveredAll(rows: seq<seq<Cell>>, d: Design, name: Naming)
    requires |d.pages| > 0 && AllNamed(rows, |rows|, name)
    ensures GenerationOf(rows, d, name) == Delivered(ArchiveUpTo(rows, |rows|, d, name))
    ensures RowsWritten(rows, d, name) == |rows|
  {
    assert FirstUnnamedFrom(rows, 0, name).None?;
  }

  /** generateAllCertificates once the data is checked, for the application's naming.
   *  `progress` lists the values passed to the progress setter, in order. Any
   *  exception ends the whole run: nothing is delivered. */
  method GenerateAll(rows: seq<seq<Cell>>, d: Design) returns (outcome: Generation, progress: seq<nat>)
    ensures outcome == GenerationOf(rows, d, CertificateFileName)
    ensures progress == Counting(RowsWritten(rows, d, CertificateFileName))
  {
    if |d.pages| == 0 {
      return Aborted(NoBackground), [0];
    }
    outcome, progress := WriteRows(rows, d, CertificateFileName);
  }

  /** The loop over the rows, once the first background is loaded. */
  method WriteRows(rows: seq<seq<Cell>>, d: Design, name: Naming) returns (outcome: Generation, progress: seq<nat>)
    requires |d.pages| > 0
    ensures outcome == GenerationOf(rows, d, name)
    ensures progress == Counting(RowsWritten(rows, d, name))
  {
    progress := [0];
    var zip: Archive := map[];
    var i := 0;
    while i < |rows|
      invariant 0 <= i <= |rows|
      invariant AllNamed(rows, i, name)
      invariant zip == ArchiveUpTo(rows, i, d, name)
      invariant progress == Counting(i)
    {
      var rowData := rows[i];
      var pdf := CertificatePdf(rowData, d);
      var fileName := name(rowData, i);
      if fileName.None? {
        AbortedAt(rows, i, d, name);
        return Aborted(CleanStringOnNumber(i)), progress;
      }
      zip := zip[fileName.value := pdf];
      progress := progress + [i + 1];
      i := i + 1;
    }
    DeliveredAll(rows, d, name);
    return Delivered(zip), progress;
  }
}
