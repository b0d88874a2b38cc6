/**
 * The PDF re-serialiser of the tools page (handleOptimizePDFs): it opens an
 * uploaded ZIP, keeps the PDF entries, re-saves each PDF with pdf-lib and offers
 * a new ZIP keyed by the PDFs' base names.
 *
 * JSZip and pdf-lib are inputs: an upload is its file name and, when it is a
 * readable ZIP, its list of entries, each with its bytes when they can be read;
 * pdf-lib's load-and-save is a `Resaver` that returns None when it throws.
 */
module Optimizer {
  import opened Wrappers
  import opened JsText
  import opened Archives

  /** One entry of `zip.files`: its path, whether it is a folder, and its bytes
   *  (None when extracting them fails). */
  datatype Entry = Entry(name: string, dir: bool, data: Option<Bytes>)

  /** The selected file: its name and, when JSZip can open it, its entries in archive order. */
  datatype Upload = Upload(name: string, entries: Option<seq<Entry>>)

  /** `PDFDocument.load(bytes)` then `save(...)`; None when either throws. */
  type Resaver = Bytes -> Option<Bytes>

  // ---------------------------------------------------------------------------
  // Classifying the entries

  /** `name.toLowerCase().endsWith('.pdf') && !file.dir`. */
  predicate IsPdfEntry(e: Entry) {
    EndsWithIgnoringCase(e.name, ".pdf") && !e.dir
  }

  /** A `.rar`, or a `.zip` other than the upload itself (folders included). */
  predicate IsNestedArchive(name: string, uploadName: string) {
    EndsWithIgnoringCase(name, ".rar") || (EndsWithIgnoringCase(name, ".zip") && name != uploadName)
  }

  /** pdfEntries, in archive order. */
  function PdfEntries(es: seq<Entry>): (r: seq<Entry>)
    ensures |r| <= |es|
    ensures forall e :: e in r <==> e in es && IsPdfEntry(e)
  {
    if es == [] then []
    else (if IsPdfEntry(es[0]) then [es[0]] else []) + PdfEntries(es[1..])
  }

  /** nestedArchives: the names of the nested archives, in archive order. */
  function NestedArchives(es: seq<Entry>, uploadName: string): (r: seq<string>)
    ensures |r| <= |es|
    ensures forall n :: n in r <==> (exists e :: e in es && e.name == n) && IsNestedArchive(n, uploadName)
  {
    if es == [] then []
    else (if IsNestedArchive(es[0].name, uploadName) then [es[0].name] else []) + NestedArchives(es[1..], uploadName)
  }

  // ---------------------------------------------------------------------------
  // Base names

  /** The position of the last `c` in `s`, or -1 when there is none. */
  function LastSeparator(s: string, c: char): (k: int)
    ensures -1 <= k < |s|
    decreases |s|
  {
    if s == [] then -1
    else if s[|s| - 1] == c then |s| - 1
    else LastSeparator(s[..|s| - 1], c)
  }

  /** The position found holds a `c` and no `c` follows it. */
  lemma {:induction false} LastSeparatorFacts(s: string, c: char)
    ensures var k := LastSeparator(s, c);
      && (k >= 0 ==> s[k] == c)
      && forall j :: k < j < |s| ==> s[j] != c
    decreases |s|
  {
    if s != [] && s[|s| - 1] != c {
      LastSeparatorFacts(s[..|s| - 1], c);
    }
  }

  /** `s.split(c).pop()`: the text after the last `c`, or all of `s` without one. */
  function AfterLast(s: string, c: char): (r: string)
    ensures c !in r
    ensures |r| <= |s| && r == s[|s| - |r|..]
    ensures |r| < |s| ==> s[|s| - |r| - 1] == c
    ensures c !in s ==> r == s
  {
    LastSeparatorFacts(s, c);
    s[LastSeparator(s, c) + 1..]
  }

  /** The part after the last separator is what follows the separator written last. */
  lemma AfterLastSeparator(a: string, c: char, b: string)
    requires c !in b
    ensures AfterLast(a + [c] + b, c) == b
  {
    var s := a + [c] + b;
    LastSeparatorFacts(s, c);
    var k := LastSeparator(s, c);
    assert s[|a|] == c;
    assert k == |a|;
    assert s[|a| + 1..] == b;
  }

  /** `fileName.split('/').pop().split('\\').pop()`. */
  function BaseName(path: string): (r: string)
    ensures '/' !in r && '\\' !in r
    ensures |r| <= |path| && r == path[|path| - |r|..]
  {
    AfterLast(AfterLast(path, '/'), '\\')
  }

  /** A name without separators is its own base name, so taking it twice changes nothing. */
  lemma BaseNameIdempotent(path: string)
    ensures '/' !in path && '\\' !in path ==> BaseName(path) == path
    ensures BaseName(BaseName(path)) == BaseName(path)
  {
  }

  /** The same file name in two folders gives the same base name. */
  lemma SameNameInFolders(dir1: string, dir2: string, name: string)
    requires '/' !in name && '\\' !in name
    ensures BaseName(dir1 + "/" + name) == name && BaseName(dir2 + "/" + name) == name
  {
    AfterLastSeparator(dir1, '/', name);
    AfterLastSeparator(dir2, '/', name);
    assert dir1 + "/" + name == dir1 + ['/'] + name;
    assert dir2 + "/" + name == dir2 + ['/'] + name;
  }

  // ---------------------------------------------------------------------------
  // Extracting the PDFs

  /** One element of pdfFilesData. */
  datatype PdfFile = PdfFile(name: string, data: Bytes, originalPath: string)

  /** pdfFilesData after the entries `es`: each readable entry under its base name;
   *  an unreadable one is skipped. */
  function Extracted(es: seq<Entry>): (r: seq<PdfFile>)
    ensures |r| <= |es|
  {
    if es == [] then []
    else
      var last := es[|es| - 1];
      Extracted(es[..|es| - 1])
        + (if last.data.Some? then [PdfFile(BaseName(last.name), last.data.value, last.name)] else [])
  }

  /** Extraction keeps exactly the readable entries, each under its base name: every
   *  extracted file comes from a readable entry, and every readable entry is extracted. */
  lemma {:induction false} ExtractedFiles(es: seq<Entry>)
    ensures forall f :: f in Extracted(es) ==>
      exists e :: e in es && e.data == Some(f.data) && f.originalPath == e.name && f.name == BaseName(e.name)
    ensures forall e :: e in es && e.data.Some? ==> ExtractedFile(e) in Extracted(es)
    ensures (forall e :: e in es ==> e.data.None?) <==> Extracted(es) == []
  {
    if es != [] {
      var front := es[..|es| - 1];
      ExtractedFiles(front);
      assert forall e :: e in front ==> e in es;
      assert es[|es| - 1] in es;
      ExtractedComplete(es);
      if forall e :: e in es ==> e.data.None? {
        assert forall e :: e in front ==> e.data.None?;
      }
    }
  }

  /** The file a readable entry becomes. */
  function ExtractedFile(e: Entry): PdfFile
    requires e.data.Some?
  {
    PdfFile(BaseName(e.name), e.data.value, e.name)
  }

  /** Every readable entry is extracted. */
  lemma {:induction false} ExtractedComplete(es: seq<Entry>)
    ensures forall e :: e in es && e.data.Some? ==> ExtractedFile(e) in Extracted(es)
  {
    if es != [] {
      var front := es[..|es| - 1];
      var last := es[|es| - 1];
      ExtractedComplete(front);
      assert es == front + [last];
      forall e | e in es && e.data.Some?
        ensures ExtractedFile(e) in Extracted(es)
      {
        if e != last {
          assert e in front;
        }
      }
    }
  }

  /** The entry an extracted file was read from. */
  lemma SourceEntry(es: seq<Entry>, f: PdfFile) returns (e: Entry)
    requires f in Extracted(es)
    ensures e in es && e.data == Some(f.data) && f.originalPath == e.name && f.name == BaseName(e.name)
  {
    ExtractedFiles(es);
    e :| e in es && e.data == Some(f.data) && f.originalPath == e.name && f.name == BaseName(e.name);
  }

  /** pdfEntries keeps the archive order: the PDFs of two runs of entries are those of
   *  the first run, then those of the second. */
  lemma {:induction false} PdfEntriesAppend(a: seq<Entry>, b: seq<Entry>)
    ensures PdfEntries(a + b) == PdfEntries(a) + PdfEntries(b)
  {
    if a != [] {
      assert (a + b)[1..] == a[1..] + b;
      PdfEntriesAppend(a[1..], b);
    } else {
      assert a + b == b;
    }
  }

  /** Extraction keeps the order of the entries it is given. */
  lemma {:induction false} ExtractedAppend(a: seq<Entry>, b: seq<Entry>)
    ensures Extracted(a + b) == Extracted(a) + Extracted(b)
    decreases |b|
  {
    if b == [] {
      assert a + b == a;
    } else {
      var front := b[..|b| - 1];
      assert (a + b)[..|a + b| - 1] == a + front;
      assert (a + b)[|a + b| - 1] == b[|b| - 1];
      ExtractedAppend(a, front);
    }
  }

  /** The extraction loop (`for (const fileName of pdfEntries)`), skipping entries whose
   *  bytes cannot be read. */
  method ExtractPdfs(es: seq<Entry>) returns (files: seq<PdfFile>)
    ensures files == Extracted(es)
  {
    files := [];
    var i := 0;
    while i < |es|
      invariant 0 <= i <= |es|
      invariant files == Extracted(es[..i])
    {
      var e := es[i];
      assert es[..i + 1][..i] == es[..i];
      if e.data.Some? {
        files := files + [PdfFile(BaseName(e.name), e.data.value, e.name)];
      }
      i := i + 1;
    }
    assert es[..|es|] == es;
  }

  // ---------------------------------------------------------------------------
  // Re-saving

  /** The bytes written for a PDF: the re-saved ones, or the original ones when pdf-lib throws. */
  function Output(f: PdfFile, resave: Resaver): (b: Bytes)
    ensures resave(f.data).Some? ==> b == resave(f.data).value
    ensures resave(f.data).None? ==> b == f.data
  {
    resave(f.data).GetOr(f.data)
  }

  /** The writes into optimizedZip, in order: one per extracted PDF, under its base name. */
  function OutputEntries(files: seq<PdfFile>, resave: Resaver): (r: seq<(string, Bytes)>)
    ensures |r| == |files|
    ensures forall i :: 0 <= i < |files| ==> r[i] == (files[i].name, Output(files[i], resave))
  {
    seq(|files|, i requires 0 <= i < |files| => (files[i].name, Output(files[i], resave)))
  }

  /** The values passed to setProgress by the first `n` iterations: `i + 1` after
   *  each successful re-save, nothing after a fallback. */
  function ProgressUpdates(files: seq<PdfFile>, resave: Resaver, n: nat): (r: seq<nat>)
    requires n <= |files|
    ensures |r| <= n
  {
    if n == 0 then []
    else ProgressUpdates(files, resave, n - 1)
         + (if resave(files[n - 1].data).Some? then [n] else [])
  }

  /** What the progress values mean after `n` iterations: they only move forward,
   *  stay within 1..n, and show `k` exactly when the k-th PDF was re-saved. */
  predicate ProgressMeaning(r: seq<nat>, files: seq<PdfFile>, resave: Resaver, n: nat)
    requires n <= |files|
  {
    && (forall i, j :: 0 <= i < j < |r| ==> r[i] < r[j])
    && (forall i :: 0 <= i < |r| ==> 1 <= r[i] <= n)
    && (forall k :: 1 <= k <= n ==> (k in r <==> resave(files[k - 1].data).Some?))
  }

  /** One more iteration keeps the meaning of the progress values. */
  lemma ProgressMeaningStep(p: seq<nat>, files: seq<PdfFile>, resave: Resaver, n: nat)
    requires 0 < n <= |files| && ProgressMeaning(p, files, resave, n - 1)
    ensures ProgressMeaning(p + (if resave(files[n - 1].data).Some? then [n] else []), files, resave, n)
  {
    assert n !in p;
    if resave(files[n - 1].data).Some? {
      var r := p + [n];
      forall k | 1 <= k <= n
        ensures k in r <==> resave(files[k - 1].data).Some?
      {
        assert k in r <==> k in p || k == n;
      }
    }
  }

  /** The progress bar only moves forward, never beyond the number of PDFs, and shows
   *  `k` exactly when the k-th PDF was re-saved. */
  lemma {:induction false} ProgressUpdatesMeaning(files: seq<PdfFile>, resave: Resaver, n: nat)
    requires n <= |files|
    ensures ProgressMeaning(ProgressUpdates(files, resave, n), files, resave, n)
  {
    if n > 0 {
      ProgressUpdatesMeaning(files, resave, n - 1);
      ProgressMeaningStep(ProgressUpdates(files, resave, n - 1), files, resave, n);
    }
  }

  /** The re-save loop (`for (let i = 0; i < pdfFilesData.length; i++)`). */
  method ReserializeAll(files: seq<PdfFile>, resave: Resaver) returns (zip: map<string, Bytes>, updates: seq<nat>)
    ensures zip == Write(OutputEntries(files, resave))
    ensures updates == ProgressUpdates(files, resave, |files|)
  {
    zip := map[];
    updates := [];
    var i := 0;
    while i < |files|
      invariant 0 <= i <= |files|
      invariant zip == Write(OutputEntries(files, resave)[..i])
      invariant updates == ProgressUpdates(files, resave, i)
    {
      var f := files[i];
      assert OutputEntries(files, resave)[..i + 1] == OutputEntries(files, resave)[..i] + [(f.name, Output(f, resave))];
      WriteAppend(OutputEntries(files, resave)[..i], f.name, Output(f, resave));
      var optimized := resave(f.data);
      if optimized.Some? {
        zip := zip[f.name := optimized.value];
        updates := updates + [i + 1];
      } else {
        zip := zip[f.name := f.data];
      }
      i := i + 1;
    }
    assert OutputEntries(files, resave)[..|files|] == OutputEntries(files, resave);
  }

  /** Every extracted PDF has an entry under its base name, whether or not it could be
   *  re-saved, and the output holds no other names. */
  lemma OutputNames(files: seq<PdfFile>, resave: Resaver)
    ensures Write(OutputEntries(files, resave)).Keys == set i | 0 <= i < |files| :: files[i].name
  {
    var e := OutputEntries(files, resave);
    WriteKeys(e);
    assert Names(e) == set i | 0 <= i < |files| :: files[i].name by {
      forall x | x in Names(e)
        ensures x in set i | 0 <= i < |files| :: files[i].name
      {
        var i :| 0 <= i < |e| && e[i].0 == x;
        assert files[i].name == x;
      }
      forall x | x in set i | 0 <= i < |files| :: files[i].name
        ensures x in Names(e)
      {
        var i :| 0 <= i < |files| && files[i].name == x;
        assert e[i].0 == x;
      }
    }
  }

  /** Of two PDFs with the same base name, the one extracted later wins. */
  lemma OutputLaterWins(files: seq<PdfFile>, resave: Resaver, i: nat)
    requires i < |files|
    requires forall j :: i < j < |files| ==> files[j].name != files[i].name
    ensures files[i].name in Write(OutputEntries(files, resave))
    ensures Write(OutputEntries(files, resave))[files[i].name] == Output(files[i], resave)
  {
    var e := OutputEntries(files, resave);
    assert forall j :: i < j < |e| ==> e[j].0 != e[i].0 by {
      forall j | i < j < |e|
        ensures e[j].0 != e[i].0
      {
        assert e[j].0 == files[j].name;
      }
    }
    WriteLastWins(e, i);
  }

  /** The PDFs extracted around one readable PDF entry: those before it, its own file,
   *  and those after it. */
  lemma ExtractedAround(a: seq<Entry>, e: Entry, b: seq<Entry>)
    requires IsPdfEntry(e) && e.data.Some?
    ensures Extracted(PdfEntries(a + [e] + b)) == Extracted(PdfEntries(a)) + [ExtractedFile(e)] + Extracted(PdfEntries(b))
  {
    PdfEntriesAppend(a + [e], b);
    PdfEntriesAppend(a, [e]);
    assert PdfEntries([e]) == [e] by {
      assert [e][1..] == [];
    }
    var pa, pb := PdfEntries(a), PdfEntries(b);
    ExtractedAppend(pa + [e], pb);
    ExtractedAppend(pa, [e]);
    assert Extracted([e]) == [ExtractedFile(e)] by {
      assert [e][..0] == [];
    }
  }

  /** No file extracted from `b` has the base name `name` when none of its readable
   *  PDF entries has it. */
  lemma LaterNamesDiffer(b: seq<Entry>, name: string)
    requires forall x :: x in b && IsPdfEntry(x) && x.data.Some? ==> BaseName(x.name) != name
    ensures forall k :: 0 <= k < |Extracted(PdfEntries(b))| ==> Extracted(PdfEntries(b))[k].name != name
  {
    var after := Extracted(PdfEntries(b));
    forall k | 0 <= k < |after|
      ensures after[k].name != name
    {
      var x := SourceEntry(PdfEntries(b), after[k]);
    }
  }

  /** A file followed by no file of the same name decides what the output holds
   *  under that name. */
  lemma LaterFileWins(before: seq<PdfFile>, f: PdfFile, after: seq<PdfFile>, resave: Resaver)
    requires forall k :: 0 <= k < |after| ==> after[k].name != f.name
    ensures f.name in Write(OutputEntries(before + [f] + after, resave))
    ensures Write(OutputEntries(before + [f] + after, resave))[f.name] == Output(f, resave)
  {
    var files := before + [f] + after;
    var i := |before|;
    forall j | i < j < |files|
      ensures files[j].name != files[i].name
    {
      assert files[j] == after[j - i - 1];
    }
    OutputLaterWins(files, resave, i);
  }

  /** In archive order, the last readable PDF entry with a given base name decides
   *  what the output holds under that name, as the later JSZip write replaces the
   *  earlier one. */
  lemma LaterEntryWins(a: seq<Entry>, e: Entry, b: seq<Entry>, resave: Resaver)
    requires IsPdfEntry(e) && e.data.Some?
    requires forall x :: x in b && IsPdfEntry(x) && x.data.Some? ==> BaseName(x.name) != BaseName(e.name)
    ensures var files := Extracted(PdfEntries(a + [e] + b));
      && BaseName(e.name) in Write(OutputEntries(files, resave))
      && Write(OutputEntries(files, resave))[BaseName(e.name)] == Output(ExtractedFile(e), resave)
  {
    ExtractedAround(a, e, b);
    LaterNamesDiffer(b, BaseName(e.name));
    LaterFileWins(Extracted(PdfEntries(a)), ExtractedFile(e), Extracted(PdfEntries(b)), resave);
  }

  // ---------------------------------------------------------------------------
  // The handler

  datatype Optimization =
    | NoFileSelected                      // the warning, before anything else
    | NotAZip                             // JSZip cannot open the upload
    | NestedOnly(archives: seq<string>)   // nested archives and no PDF: nothing is processed
    | NoPdfFound                          // no PDF could be extracted: the error is raised
    | Optimized(archive: map<string, Bytes>, count: nat)

  /** What the handler ends with for the selected upload. */
  function OptimizationOf(zipFile: Option<Upload>, resave: Resaver): Optimization {
    match zipFile
    case None => NoFileSelected
    case Some(upload) =>
      match upload.entries
      case None => NotAZip
      case Some(es) =>
        var pdfs := PdfEntries(es);
        var nested := NestedArchives(es, upload.name);
        if |nested| > 0 && |pdfs| == 0 then NestedOnly(nested)
        else
          var files := Extracted(pdfs);
          if |files| == 0 then NoPdfFound
          else Optimized(Write(OutputEntries(files, resave)), |files|)
  }

  /** pdfEntries is empty exactly when no entry is a PDF. */
  lemma NoPdfEntries(es: seq<Entry>)
    ensures PdfEntries(es) == [] <==> forall e :: e in es ==> !IsPdfEntry(e)
  {
    var pdfs := PdfEntries(es);
    if pdfs != [] {
      assert pdfs[0] in pdfs;
    }
  }

  /** Some PDF is extracted exactly when some PDF entry is readable. */
  lemma SomePdfExtracted(es: seq<Entry>)
    ensures Extracted(PdfEntries(es)) != [] <==> exists e :: e in es && IsPdfEntry(e) && e.data.Some?
  {
    var pdfs := PdfEntries(es);
    ExtractedFiles(pdfs);
    if exists e :: e in es && IsPdfEntry(e) && e.data.Some? {
      var e :| e in es && IsPdfEntry(e) && e.data.Some?;
      assert e in pdfs;
    }
  }

  /** nestedArchives is non-empty exactly when some entry is a nested archive. */
  lemma NestedArchivesFound(es: seq<Entry>, uploadName: string)
    ensures |NestedArchives(es, uploadName)| > 0 <==> exists e :: e in es && IsNestedArchive(e.name, uploadName)
  {
    var nested := NestedArchives(es, uploadName);
    if |nested| > 0 {
      assert nested[0] in nested;
    }
  }

  /** The run stops on nested archives only when there is no PDF beside them, and it
   *  delivers exactly when some PDF entry is readable. */
  lemma OptimizationOutcome(upload: Upload, es: seq<Entry>, resave: Resaver)
    requires upload.entries == Some(es)
    ensures OptimizationOf(Some(upload), resave).NestedOnly? <==>
      (exists e :: e in es && IsNestedArchive(e.name, upload.name)) && (forall e :: e in es ==> !IsPdfEntry(e))
    ensures OptimizationOf(Some(upload), resave).Optimized? <==> exists e :: e in es && IsPdfEntry(e) && e.data.Some?
  {
    NoPdfEntries(es);
    SomePdfExtracted(es);
    NestedArchivesFound(es, upload.name);
  }

  // ---------------------------------------------------------------------------
  // The page state

  class Tools {
    var zipFile: Option<Upload>
    var isProcessing: bool
    var progress: nat
    var totalPDFs: nat

    constructor ()
      ensures zipFile == None && !isProcessing && progress == 0 && totalPDFs == 0
    {
      zipFile, isProcessing, progress, totalPDFs := None, false, 0, 0;
    }

    /** handleOptimizePDFs. `shown` lists the values the progress bar takes during the
     *  run. With no upload nothing changes; every other run ends not processing, and a
     *  successful one resets the upload, the progress and the total. */
    method HandleOptimizePDFs(resave: Resaver) returns (result: Optimization, shown: seq<nat>)
      modifies this`zipFile, this`isProcessing, this`progress, this`totalPDFs
      ensures result == OptimizationOf(old(zipFile), resave)
      ensures old(zipFile).None? ==> shown == [] && unchanged(this`zipFile, this`isProcessing, this`progress, this`totalPDFs)
      ensures old(zipFile).Some? ==> !isProcessing && progress == 0
      ensures result.Optimized? ==> zipFile == None && totalPDFs == 0
      ensures result.Optimized? ==>
        var files := Extracted(PdfEntries(old(zipFile).value.entries.value));
        shown == [0] + ProgressUpdates(files, resave, |files|) + [0]
      ensures old(zipFile).Some? && !result.Optimized? ==>
        shown == [0] && zipFile == old(zipFile) && totalPDFs == old(totalPDFs)
    {
      shown := [];
      if zipFile.None? {
        return NoFileSelected, shown;
      }
      var upload := zipFile.value;
      isProcessing, progress := true, 0;
      shown := shown + [0];
      if upload.entries.None? {
        isProcessing := false;
        return NotAZip, shown;
      }
      var es := upload.entries.value;
      var pdfEntries := PdfEntries(es);
      var nestedArchives := NestedArchives(es, upload.name);
      if |nestedArchives| > 0 && |pdfEntries| == 0 {
        isProcessing := false;
        return NestedOnly(nestedArchives), shown;
      }
      var pdfFilesData := ExtractPdfs(pdfEntries);
      if |pdfFilesData| == 0 {
        isProcessing := false;
        return NoPdfFound, shown;
      }
      totalPDFs := |pdfFilesData|;
      var optimizedZip, updates := ReserializeAll(pdfFilesData, resave);
      if |updates| > 0 {
        progress := updates[|updates| - 1];
      }
      shown := shown + updates;
      isProcessing, zipFile, progress, totalPDFs := false, None, 0, 0;
      shown := shown + [0];
      return Optimized(optimizedZip, |pdfFilesData|), shown;
    }
  }
}
