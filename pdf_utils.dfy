/** The two conversions of services/pdfUtils.ts: files to thumbnail records
    (`renderPdfToThumbnails`) and records to one combined document
    (`createFinalPdf`). Both PDF libraries are black boxes given as functions. */
module PdfUtils {
  import opened Types

  // ---------------------------------------------------------------------------
  // Thumbnail records
  // ---------------------------------------------------------------------------

  /** What the rendering library does with one page: `getPage` and `render`
      may throw, the canvas may yield no 2D context, and a rendered canvas
      encodes to a data URL. */
  datatype PageStep = Rendered(dataUrl: string) | NoContext | Throws

  /** The rendering library (pdf.js) as seen by the renderer. `open` covers
      reading the file's bytes and `getDocument`: `None` when either throws,
      otherwise the document's page count. `page` is indexed by the 1-based
      page number that `getPage` takes. */
  datatype Rasterizer = Rasterizer(open: File -> Option<nat>, page: (File, nat) -> PageStep)

  /** The records one file pushes, and whether its processing threw. */
  datatype FileRun = FileRun(pages: seq<PageData>, failed: bool)

  /** The records of a whole call, and the files for which a warning was raised. */
  datatype Thumbnails = Thumbnails(pages: seq<PageData>, failedFiles: seq<File>)

  /** The id of a pushed record: file name, timestamp and 1-based page number,
      joined by dashes. */
  function PageId(f: File, stamp: nat, pageNumber: nat): (id: string)
    ensures |id| == |f.name| + |NatToString(stamp)| + |NatToString(pageNumber)| + 2
    ensures id[..|f.name|] == f.name && id[|f.name|] == '-'
    ensures id[|id| - |NatToString(pageNumber)|..] == NatToString(pageNumber)
    ensures id[|id| - |NatToString(pageNumber)| - 1] == '-'
  {
    f.name + "-" + NatToString(stamp) + "-" + NatToString(pageNumber)
  }

  /** `clock(k)` is the value `Date.now()` returns when the k-th record (0-based)
      of the call is pushed. */
  function Record(f: File, clock: nat -> nat, pushed: nat, pageNumber: nat, url: string): (rec: PageData)
    requires pageNumber >= 1
  {
    PageData(PageId(f, clock(pushed), pageNumber), f, pageNumber - 1, url)
  }

  /** What pages i..n of file f push, `pushed` records having been pushed before. */
  function RunPages(r: Rasterizer, clock: nat -> nat, f: File, n: nat, i: nat, pushed: nat): (run: FileRun)
    requires i >= 1
    decreases n + 1 - i
  {
    if i > n then FileRun([], false)
    else match r.page(f, i)
      case Throws => FileRun([], true)
      case NoContext => RunPages(r, clock, f, n, i + 1, pushed)
      case Rendered(url) =>
        var rest := RunPages(r, clock, f, n, i + 1, pushed + 1);
        FileRun([Record(f, clock, pushed, i, url)] + rest.pages, rest.failed)
  }

  /** What one file pushes inside its `try`. */
  function RunFile(r: Rasterizer, clock: nat -> nat, f: File, pushed: nat): (run: FileRun)
  {
    match r.open(f)
    case None => FileRun([], true)
    case Some(n) => RunPages(r, clock, f, n, 1, pushed)
  }

  /** The files processed one after another, in order: the last file's run
      follows whatever the files before it gave. */
  function RenderFiles(r: Rasterizer, clock: nat -> nat, files: seq<File>, pushed: nat): (t: Thumbnails)
    decreases |files|
  {
    if files == [] then Thumbnails([], [])
    else
      var prev := RenderFiles(r, clock, files[..|files| - 1], pushed);
      var last := files[|files| - 1];
      var run := RunFile(r, clock, last, pushed + |prev.pages|);
      Thumbnails(prev.pages + run.pages, prev.failedFiles + (if run.failed then [last] else []))
  }

  /** The whole of `renderPdfToThumbnails`: nothing at all when the library is absent. */
  function RenderSpec(r: Rasterizer, clock: nat -> nat, pdfjsLoaded: bool, files: seq<File>): (t: Thumbnails)
    ensures !pdfjsLoaded ==> t == Thumbnails([], [])
  {
    if pdfjsLoaded then RenderFiles(r, clock, files, 0) else Thumbnails([], [])
  }

  function Combine(pages: seq<PageData>, failedFiles: seq<File>, t: Thumbnails): Thumbnails
  {
    Thumbnails(pages + t.pages, failedFiles + t.failedFiles)
  }

  /** `renderPdfToThumbnails`: for each file in order, inside a `try`, push one
      record per page that has a drawing context; a throw ends that file, keeps
      what it already pushed, raises a warning naming it and moves on. */
  method RenderPdfToThumbnails(r: Rasterizer, clock: nat -> nat, pdfjsLoaded: bool, files: seq<File>)
    returns (allPages: seq<PageData>, failedFiles: seq<File>)
    ensures !pdfjsLoaded ==> allPages == [] && failedFiles == []
    ensures Thumbnails(allPages, failedFiles) == RenderSpec(r, clock, pdfjsLoaded, files)
  {
    allPages, failedFiles := [], [];
    if !pdfjsLoaded {
      return;
    }
    var j := 0;
    while j < |files|
      invariant 0 <= j <= |files|
      invariant Thumbnails(allPages, failedFiles) == RenderFiles(r, clock, files[..j], 0)
    {
      var file := files[j];
      assert files[..j + 1][..j] == files[..j] && files[..j + 1][j] == file;
      var failed;
      allPages, failed := RenderFile(r, clock, file, allPages);
      if failed {
        failedFiles := failedFiles + [file];
      }
      j := j + 1;
    }
    assert files[..j] == files;
  }

  /** The body of the per-file `try`: open the file, then push a record for
      each page in ascending order that has a drawing context, until a page
      throws. Records pushed before a throw stay pushed. */
  method RenderFile(r: Rasterizer, clock: nat -> nat, file: File, allPages: seq<PageData>)
    returns (pagesAfter: seq<PageData>, failed: bool)
    ensures pagesAfter == allPages + RunFile(r, clock, file, |allPages|).pages
    ensures failed == RunFile(r, clock, file, |allPages|).failed
  {
    pagesAfter, failed := allPages, false;
    ghost var goal := RunFile(r, clock, file, |allPages|);
    var document := r.open(file);
    if document.None? {
      failed := true;
      return;
    }
    var numPages := document.value;
    var i := 1;
    while i <= numPages
      invariant 1 <= i <= numPages + 1
      invariant pagesAfter + RunPages(r, clock, file, numPages, i, |pagesAfter|).pages == allPages + goal.pages
      invariant RunPages(r, clock, file, numPages, i, |pagesAfter|).failed == goal.failed
    {
      var step := r.page(file, i);
      if step.Throws? {
        failed := true;
        return;
      }
      RunPagesStep(r, clock, file, numPages, i, |pagesAfter|, pagesAfter);
      if step.Rendered? {
        pagesAfter := pagesAfter + [Record(file, clock, |pagesAfter|, i, step.dataUrl)];
      }
      i := i + 1;
    }
  }

  /** One step of the page loop: a page without a context pushes nothing, a
      rendered page pushes its record. */
  lemma RunPagesStep(r: Rasterizer, clock: nat -> nat, f: File, n: nat, i: nat, pushed: nat, prefix: seq<PageData>)
    requires 1 <= i <= n
    ensures r.page(f, i).NoContext? ==>
      RunPages(r, clock, f, n, i, pushed) == RunPages(r, clock, f, n, i + 1, pushed)
    ensures r.page(f, i).Rendered? ==>
      && prefix + [Record(f, clock, pushed, i, r.page(f, i).dataUrl)] + RunPages(r, clock, f, n, i + 1, pushed + 1).pages
         == prefix + RunPages(r, clock, f, n, i, pushed).pages
      && RunPages(r, clock, f, n, i + 1, pushed + 1).failed == RunPages(r, clock, f, n, i, pushed).failed
  {
  }

  /** Every record of `ps` names file f, has a 0-based index in [lo, n), was
      pushed because its page rendered to exactly its thumbnail, and indices
      strictly ascend. */
  ghost predicate RecordsOfFile(r: Rasterizer, f: File, lo: int, n: nat, ps: seq<PageData>)
  {
    && (forall k :: 0 <= k < |ps| ==>
          && ps[k].originalFile == f
          && lo <= ps[k].originalPageIndex < n
          && r.page(f, ps[k].originalPageIndex + 1) == Rendered(ps[k].thumbnailUrl))
    && (forall k, m :: 0 <= k < m < |ps| ==> ps[k].originalPageIndex < ps[m].originalPageIndex)
  }

  /** Within one file, every record names that file, has an index in range,
      was pushed only because its page rendered (so a page without a drawing
      context is absent), and indices ascend. */
  lemma {:induction false} RunPagesShape(r: Rasterizer, clock: nat -> nat, f: File, n: nat, i: nat, pushed: nat)
    requires i >= 1
    ensures RecordsOfFile(r, f, i - 1, n, RunPages(r, clock, f, n, i, pushed).pages)
    decreases n + 1 - i
  {
    if i <= n {
      var ps := RunPages(r, clock, f, n, i, pushed).pages;
      match r.page(f, i)
      case Throws =>
      case NoContext =>
        RunPagesShape(r, clock, f, n, i + 1, pushed);
      case Rendered(url) =>
        RunPagesShape(r, clock, f, n, i + 1, pushed + 1);
        RecordsOfFileCons(r, f, i - 1, n, Record(f, clock, pushed, i, url),
                          RunPages(r, clock, f, n, i + 1, pushed + 1).pages);
    }
  }

  /** A record for page index lo ahead of records with larger indices. */
  lemma RecordsOfFileCons(r: Rasterizer, f: File, lo: nat, n: nat, rec: PageData, rest: seq<PageData>)
    requires RecordsOfFile(r, f, lo + 1, n, rest)
    requires rec.originalFile == f && rec.originalPageIndex == lo < n
    requires r.page(f, lo + 1) == Rendered(rec.thumbnailUrl)
    ensures RecordsOfFile(r, f, lo, n, [rec] + rest)
  {
  }

  /** Some record of `ps` is for the page with 1-based number k. */
  ghost predicate HasPage(ps: seq<PageData>, k: nat)
  {
    exists m :: 0 <= m < |ps| && ps[m].originalPageIndex + 1 == k
  }

  /** Page k is among pages i..n, rendered, and no page from i up to it threw. */
  ghost predicate ReachedAndRendered(r: Rasterizer, f: File, n: nat, i: nat, k: nat)
  {
    i <= k <= n && r.page(f, k).Rendered? && forall j :: i <= j < k ==> !r.page(f, j).Throws?
  }

  /** Page k (1-based) of a file gets a record exactly when it rendered and no
      earlier page of the file threw. */
  lemma {:induction false} RunPagesRecordsPage(r: Rasterizer, clock: nat -> nat, f: File, n: nat, i: nat, pushed: nat, k: nat)
    requires 1 <= i
    ensures HasPage(RunPages(r, clock, f, n, i, pushed).pages, k) <==> ReachedAndRendered(r, f, n, i, k)
    decreases n + 1 - i
  {
    var ps := RunPages(r, clock, f, n, i, pushed).pages;
    if i <= n {
      match r.page(f, i)
      case Throws =>
        assert !ReachedAndRendered(r, f, n, i, k) by {
          if k > i { assert i <= i < k; }
        }
      case NoContext =>
        RunPagesRecordsPage(r, clock, f, n, i + 1, pushed, k);
        assert ReachedAndRendered(r, f, n, i, k) <==> ReachedAndRendered(r, f, n, i + 1, k);
      case Rendered(url) =>
        RunPagesRecordsPage(r, clock, f, n, i + 1, pushed + 1, k);
        var rest := RunPages(r, clock, f, n, i + 1, pushed + 1).pages;
        assert ps == [Record(f, clock, pushed, i, url)] + rest;
        if k != i {
          assert HasPage(ps, k) <==> HasPage(rest, k) by {
            if HasPage(ps, k) {
              var m :| 0 <= m < |ps| && ps[m].originalPageIndex + 1 == k;
              assert m > 0 && ps[m] == rest[m - 1];
            }
            if HasPage(rest, k) {
              var m :| 0 <= m < |rest| && rest[m].originalPageIndex + 1 == k;
              assert ps[m + 1] == rest[m];
            }
          }
          assert ReachedAndRendered(r, f, n, i, k) <==> ReachedAndRendered(r, f, n, i + 1, k);
        } else {
          assert ps[0].originalPageIndex + 1 == k;
        }
    }
  }

  /** Every record of `ps` is for file f, pages numbered i, i+1, ... in order,
      each with the thumbnail its page rendered to. */
  ghost predicate ConsecutivePages(r: Rasterizer, f: File, i: nat, ps: seq<PageData>)
  {
    forall m :: 0 <= m < |ps| ==>
      && ps[m].originalFile == f
      && ps[m].originalPageIndex + 1 == i + m
      && r.page(f, i + m) == Rendered(ps[m].thumbnailUrl)
  }

  /** Pages i..n that all render give one record each, for page numbers i..n
      in order, none failing. */
  lemma {:induction false} RunPagesComplete(r: Rasterizer, clock: nat -> nat, f: File, n: nat, i: nat, pushed: nat)
    requires 1 <= i <= n + 1
    requires forall j :: i <= j <= n ==> r.page(f, j).Rendered?
    ensures !RunPages(r, clock, f, n, i, pushed).failed
    ensures |RunPages(r, clock, f, n, i, pushed).pages| == n + 1 - i
    ensures ConsecutivePages(r, f, i, RunPages(r, clock, f, n, i, pushed).pages)
    decreases n + 1 - i
  {
    if i <= n {
      RunPagesComplete(r, clock, f, n, i + 1, pushed + 1);
      var ps := RunPages(r, clock, f, n, i, pushed).pages;
      var rest := RunPages(r, clock, f, n, i + 1, pushed + 1).pages;
      assert ps == [Record(f, clock, pushed, i, r.page(f, i).dataUrl)] + rest;
      assert forall m :: 0 < m < |ps| ==> ps[m] == rest[m - 1];
    }
  }

  /** A page that throws ends its file: the records pushed for the pages before
      it stay, exactly those a file ending just before it would give, and the
      file is marked failed. */
  lemma {:induction false} RunPagesFailure(r: Rasterizer, clock: nat -> nat, f: File, n: nat, i: nat, pushed: nat, k: nat)
    requires 1 <= i <= k <= n
    requires r.page(f, k).Throws?
    requires forall j :: i <= j < k ==> !r.page(f, j).Throws?
    ensures RunPages(r, clock, f, n, i, pushed).failed
    ensures RunPages(r, clock, f, n, i, pushed).pages == RunPages(r, clock, f, k - 1, i, pushed).pages
    decreases k - i
  {
    if i < k {
      match r.page(f, i)
      case Throws =>
      case NoContext =>
        RunPagesFailure(r, clock, f, n, i + 1, pushed, k);
      case Rendered(url) =>
        RunPagesFailure(r, clock, f, n, i + 1, pushed + 1, k);
    }
  }

  /** A file renders fully when it opens and every one of its pages renders. */
  predicate FullyRenders(r: Rasterizer, f: File)
  {
    r.open(f).Some? && forall j :: 1 <= j <= r.open(f).value ==> r.page(f, j).Rendered?
  }

  /** A fully rendering file of n pages gives exactly n records, for that
      file, with 0-based indices 0..n-1 in order, and raises no warning. */
  lemma RunFileComplete(r: Rasterizer, clock: nat -> nat, f: File, pushed: nat)
    requires FullyRenders(r, f)
    ensures !RunFile(r, clock, f, pushed).failed
    ensures |RunFile(r, clock, f, pushed).pages| == r.open(f).value
    ensures forall m :: 0 <= m < |RunFile(r, clock, f, pushed).pages| ==>
      RunFile(r, clock, f, pushed).pages[m].originalFile == f
      && RunFile(r, clock, f, pushed).pages[m].originalPageIndex == m
  {
    RunPagesComplete(r, clock, f, r.open(f).value, 1, pushed);
  }

  /** Files are processed in order and independently: the result for a
      concatenation is the result for the first part followed by the result for
      the second, whatever failed in the first. */
  lemma {:induction false} RenderFilesAppend(r: Rasterizer, clock: nat -> nat, a: seq<File>, b: seq<File>, pushed: nat)
    ensures RenderFiles(r, clock, a + b, pushed)
      == Combine(RenderFiles(r, clock, a, pushed).pages, RenderFiles(r, clock, a, pushed).failedFiles,
                 RenderFiles(r, clock, b, pushed + |RenderFiles(r, clock, a, pushed).pages|))
    decreases |b|
  {
    var ta := RenderFiles(r, clock, a, pushed);
    if b == [] {
      assert a + b == a;
    } else {
      var init := b[..|b| - 1];
      var last := b[|b| - 1];
      assert (a + b)[..|a + b| - 1] == a + init && (a + b)[|a + b| - 1] == last;
      RenderFilesAppend(r, clock, a, init, pushed);
      var tb := RenderFiles(r, clock, init, pushed + |ta.pages|);
      var prev := RenderFiles(r, clock, a + init, pushed);
      assert pushed + |prev.pages| == pushed + |ta.pages| + |tb.pages|;
      var run := RunFile(r, clock, last, pushed + |ta.pages| + |tb.pages|);
      var mine := if run.failed then [last] else [];
      assert RenderFiles(r, clock, a + b, pushed) == Thumbnails(prev.pages + run.pages, prev.failedFiles + mine);
      assert RenderFiles(r, clock, b, pushed + |ta.pages|) == Thumbnails(tb.pages + run.pages, tb.failedFiles + mine);
      CombineSnoc(ta, tb, run.pages, mine);
    }
  }

  /** Appending to the second part of a combination appends to the whole. */
  lemma CombineSnoc(ta: Thumbnails, tb: Thumbnails, pages: seq<PageData>, failedFiles: seq<File>)
    ensures Combine(ta.pages, ta.failedFiles, Thumbnails(tb.pages + pages, tb.failedFiles + failedFiles))
      == Thumbnails(Combine(ta.pages, ta.failedFiles, tb).pages + pages,
                    Combine(ta.pages, ta.failedFiles, tb).failedFiles + failedFiles)
  {
  }

  /** A file pushes at most one record per page, and none when it does not open. */
  lemma {:induction false} RunPagesBound(r: Rasterizer, clock: nat -> nat, f: File, n: nat, i: nat, pushed: nat)
    requires 1 <= i <= n + 1
    ensures |RunPages(r, clock, f, n, i, pushed).pages| <= n + 1 - i
    decreases n + 1 - i
  {
    if i <= n {
      match r.page(f, i)
      case Throws =>
      case NoContext =>
        RunPagesBound(r, clock, f, n, i + 1, pushed);
      case Rendered(url) =>
        RunPagesBound(r, clock, f, n, i + 1, pushed + 1);
    }
  }

  /** A whole call gives at most as many records as the opened files have
      pages, and at most one warning per file. */
  lemma {:induction false} RenderFilesBound(r: Rasterizer, clock: nat -> nat, files: seq<File>, pushed: nat)
    ensures |RenderFiles(r, clock, files, pushed).pages| <= SumPages(r, files)
    ensures |RenderFiles(r, clock, files, pushed).failedFiles| <= |files|
    decreases |files|
  {
    if files != [] {
      var init := files[..|files| - 1];
      var last := files[|files| - 1];
      RenderFilesBound(r, clock, init, pushed);
      var p := pushed + |RenderFiles(r, clock, init, pushed).pages|;
      if r.open(last).Some? {
        RunPagesBound(r, clock, last, r.open(last).value, 1, p);
      }
    }
  }

  /** The page count of a file that opens, 0 for one that does not. */
  function PageCount(r: Rasterizer, f: File): nat
  {
    match r.open(f) case None => 0 case Some(n) => n
  }

  /** The total page count of the files that open. */
  function SumPages(r: Rasterizer, files: seq<File>): nat
    decreases |files|
  {
    if files == [] then 0
    else SumPages(r, files[..|files| - 1]) + PageCount(r, files[|files| - 1])
  }

  /** When every file renders fully, the number of records is the sum of the
      page counts and no warning is raised. */
  lemma {:induction false} RenderFilesCount(r: Rasterizer, clock: nat -> nat, files: seq<File>, pushed: nat)
    requires forall k :: 0 <= k < |files| ==> FullyRenders(r, files[k])
    ensures |RenderFiles(r, clock, files, pushed).pages| == SumPages(r, files)
    ensures RenderFiles(r, clock, files, pushed).failedFiles == []
    decreases |files|
  {
    if files != [] {
      var init := files[..|files| - 1];
      assert forall k :: 0 <= k < |init| ==> init[k] == files[k];
      RenderFilesCount(r, clock, init, pushed);
      RunFileComplete(r, clock, files[|files| - 1], pushed + |RenderFiles(r, clock, init, pushed).pages|);
    }
  }

  // ---------------------------------------------------------------------------
  // Document assembly
  // ---------------------------------------------------------------------------

  /** The construction library (pdf-lib) as seen by the assembler: `load`
      parses a file (`None` when it throws) and `copy` copies one 0-based page
      of a parsed document (`None` when it throws). */
  datatype PdfLib<!Doc, Page> = PdfLib(load: File -> Option<Doc>, copy: (Doc, nat) -> Option<Page>)

  /** The error that escapes `createFinalPdf`. */
  datatype AssemblyError = LoadFailed(file: File) | CopyFailed(file: File, pageIndex: nat)

  /** The record's file parses and its page copies. */
  predicate Copiable<Doc, Page>(lib: PdfLib<Doc, Page>, p: PageData)
  {
    match lib.load(p.originalFile)
    case None => false
    case Some(doc) => lib.copy(doc, p.originalPageIndex).Some?
  }

  /** The page `copy(load(file), index)` of a copiable record. */
  function CopyOf<Doc, Page>(lib: PdfLib<Doc, Page>, p: PageData): Page
    requires Copiable(lib, p)
  {
    lib.copy(lib.load(p.originalFile).value, p.originalPageIndex).value
  }

  /** The error a record that is not copiable raises. */
  function ErrorOf<Doc, Page>(lib: PdfLib<Doc, Page>, p: PageData): AssemblyError
    requires !Copiable(lib, p)
  {
    if lib.load(p.originalFile).None? then LoadFailed(p.originalFile)
    else CopyFailed(p.originalFile, p.originalPageIndex)
  }

  function Prepend<Page>(out: seq<Page>, rest: Result<seq<Page>, AssemblyError>): Result<seq<Page>, AssemblyError>
  {
    match rest
    case Success(ps) => Success(out + ps)
    case Failure(e) => Failure(e)
  }

  /** The document `createFinalPdf` builds: one copied page per record, in
      order, or the first error. */
  function Assemble<Doc, Page>(lib: PdfLib<Doc, Page>, pages: seq<PageData>): (res: Result<seq<Page>, AssemblyError>)
    decreases |pages|
  {
    if pages == [] then Success([])
    else if !Copiable(lib, pages[0]) then Failure(ErrorOf(lib, pages[0]))
    else Prepend([CopyOf(lib, pages[0])], Assemble(lib, pages[1..]))
  }

  /** Assembly succeeds exactly when every record is copiable; then output page
      k is the copy of record k's page (so the empty list gives the empty
      document); otherwise the error is that of the first failing record. */
  lemma {:induction false} AssembleMeaning<Doc, Page>(lib: PdfLib<Doc, Page>, pages: seq<PageData>)
    ensures Assemble(lib, pages).Success? <==> forall k :: 0 <= k < |pages| ==> Copiable(lib, pages[k])
    ensures Assemble(lib, pages).Success? ==>
      && |Assemble(lib, pages).value| == |pages|
      && forall k :: 0 <= k < |pages| ==> Assemble(lib, pages).value[k] == CopyOf(lib, pages[k])
    ensures Assemble(lib, pages).Failure? ==>
      exists k :: 0 <= k < |pages| && !Copiable(lib, pages[k])
        && (forall j :: 0 <= j < k ==> Copiable(lib, pages[j]))
        && Assemble(lib, pages).error == ErrorOf(lib, pages[k])
    decreases |pages|
  {
    if pages != [] {
      AssembleMeaning(lib, pages[1..]);
      if Copiable(lib, pages[0]) {
        var res := Assemble(lib, pages);
        var rest := Assemble(lib, pages[1..]);
        if rest.Success? {
          forall k | 0 <= k < |pages| ensures res.value[k] == CopyOf(lib, pages[k]) {
            if k > 0 { assert res.value[k] == rest.value[k - 1]; }
          }
        } else {
          var k :| 0 <= k < |pages[1..]| && !Copiable(lib, pages[1..][k])
            && (forall j :: 0 <= j < k ==> Copiable(lib, pages[1..][j]))
            && rest.error == ErrorOf(lib, pages[1..][k]);
          assert pages[k + 1] == pages[1..][k];
          forall j | 0 <= j < k + 1 ensures Copiable(lib, pages[j]) {
            if j > 0 { assert pages[j] == pages[1..][j - 1]; }
          }
        }
        if !(forall k :: 0 <= k < |pages[1..]| ==> Copiable(lib, pages[1..][k])) {
          var k :| 0 <= k < |pages[1..]| && !Copiable(lib, pages[1..][k]);
          assert pages[k + 1] == pages[1..][k];
        }
      }
    }
  }

  /** The files of the records in order of first use, each once. */
  function FirstUses(pages: seq<PageData>): (fs: seq<File>)
    decreases |pages|
  {
    if pages == [] then []
    else
      var prev := FirstUses(pages[..|pages| - 1]);
      var f := pages[|pages| - 1].originalFile;
      if f in prev then prev else prev + [f]
  }

  predicate NoDuplicates<T(==)>(s: seq<T>)
  {
    forall i, j :: 0 <= i < j < |s| ==> s[i] != s[j]
  }

  /** First uses name each file of the records exactly once. */
  lemma {:induction false} FirstUsesDistinct(pages: seq<PageData>)
    ensures NoDuplicates(FirstUses(pages))
    ensures forall f :: f in FirstUses(pages) <==> exists k :: 0 <= k < |pages| && pages[k].originalFile == f
    decreases |pages|
  {
    if pages != [] {
      var init := pages[..|pages| - 1];
      FirstUsesDistinct(init);
      forall f | f in FirstUses(pages) ensures exists k :: 0 <= k < |pages| && pages[k].originalFile == f {
        if f in FirstUses(init) {
          var k :| 0 <= k < |init| && init[k].originalFile == f;
          assert pages[k] == init[k];
        } else {
          assert pages[|pages| - 1].originalFile == f;
        }
      }
      forall f | exists k :: 0 <= k < |pages| && pages[k].originalFile == f ensures f in FirstUses(pages) {
        var k :| 0 <= k < |pages| && pages[k].originalFile == f;
        if k < |pages| - 1 {
          assert init[k] == pages[k];
        }
      }
    }
  }

  /** The per-call cache after the first k records: its keys are exactly the
      files those records use, and each value is what `load` gave for its key. */
  ghost predicate CacheCovers<Doc, Page>(lib: PdfLib<Doc, Page>, cache: map<File, Doc>, prefix: seq<PageData>)
  {
    && (forall f :: f in cache <==> exists k :: 0 <= k < |prefix| && prefix[k].originalFile == f)
    && (forall f :: f in cache ==> lib.load(f) == Some(cache[f]))
  }

  /** One step of the assembly loop: a copiable record appends its copy, any
      other record ends assembly with its error. */
  lemma AssembleStep<Doc, Page>(lib: PdfLib<Doc, Page>, pages: seq<PageData>, k: nat, out: seq<Page>)
    requires k < |pages|
    ensures Copiable(lib, pages[k]) ==>
      Prepend(out, Assemble(lib, pages[k..])) == Prepend(out + [CopyOf(lib, pages[k])], Assemble(lib, pages[k + 1..]))
    ensures !Copiable(lib, pages[k]) ==> Assemble(lib, pages[k..]) == Failure(ErrorOf(lib, pages[k]))
  {
    assert pages[k..][0] == pages[k];
    assert pages[k..][1..] == pages[k + 1..];
    if Copiable(lib, pages[k]) {
      var rest := Assemble(lib, pages[k + 1..]);
      if rest.Success? {
        assert out + ([CopyOf(lib, pages[k])] + rest.value) == out + [CopyOf(lib, pages[k])] + rest.value;
      }
    }
  }

  /** One step of `FirstUses`: record k adds its file unless it was used before. */
  lemma FirstUsesStep(pages: seq<PageData>, k: nat)
    requires k < |pages|
    ensures FirstUses(pages[..k + 1])
      == if pages[k].originalFile in FirstUses(pages[..k]) then FirstUses(pages[..k])
         else FirstUses(pages[..k]) + [pages[k].originalFile]
  {
    assert pages[..k + 1][..k] == pages[..k];
    assert pages[..k + 1][k] == pages[k];
  }

  /** A cache whose keys are the first uses of a prefix, holding what `load`
      gave, covers that prefix. */
  lemma CacheCoversFirstUses<Doc, Page>(lib: PdfLib<Doc, Page>, cache: map<File, Doc>, prefix: seq<PageData>)
    requires forall f :: f in cache <==> f in FirstUses(prefix)
    requires forall f :: f in cache ==> lib.load(f) == Some(cache[f])
    ensures CacheCovers(lib, cache, prefix)
  {
    FirstUsesDistinct(prefix);
  }

  /** The lookup of `createFinalPdf`: the cached document of `file` if there
      is one, otherwise a fresh parse, cached when it succeeds. `parsedNow`
      says whether `load` was called. */
  method CachedLoad<Doc, Page>(lib: PdfLib<Doc, Page>, cache: map<File, Doc>, file: File)
    returns (doc: Option<Doc>, cacheAfter: map<File, Doc>, parsedNow: bool)
    requires forall f :: f in cache ==> lib.load(f) == Some(cache[f])
    ensures doc == lib.load(file)
    ensures parsedNow <==> file !in cache
    ensures file in cache ==> cacheAfter == cache
    ensures file !in cache && doc.Some? ==> cacheAfter == cache[file := doc.value]
  {
    cacheAfter, parsedNow := cache, false;
    if file in cache {
      doc := Some(cache[file]);
    } else {
      parsedNow := true;
      doc := lib.load(file);
      if doc.Some? {
        cacheAfter := cache[file := doc.value];
      }
    }
  }

  /** `createFinalPdf`: for each record in order, parse its file unless the
      per-call cache already holds it, then copy its page onto the end of the
      output document. Any failure escapes and no document is returned.
      `loads` is the sequence of files parsed, in order. */
  method CreateFinalPdf<Doc, Page>(lib: PdfLib<Doc, Page>, pages: seq<PageData>)
    returns (result: Result<seq<Page>, AssemblyError>, ghost loads: seq<File>)
    ensures result == Assemble(lib, pages)
    ensures NoDuplicates(loads)
    ensures result.Success? ==> loads == FirstUses(pages)
  {
    var finalDoc: seq<Page> := [];
    var loadedPdfs: map<File, Doc> := map[];
    loads := [];
    var k := 0;
    assert pages[k..] == pages;
    assert Prepend(finalDoc, Assemble(lib, pages)) == Assemble(lib, pages) by {
      if Assemble(lib, pages).Success? {
        assert finalDoc + Assemble(lib, pages).value == Assemble(lib, pages).value;
      }
    }
    while k < |pages|
      invariant 0 <= k <= |pages|
      invariant loads == FirstUses(pages[..k])
      invariant forall f :: f in loadedPdfs <==> f in loads
      invariant forall f :: f in loadedPdfs ==> lib.load(f) == Some(loadedPdfs[f])
      invariant Assemble(lib, pages) == Prepend(finalDoc, Assemble(lib, pages[k..]))
    {
      var page := pages[k];
      AssembleStep(lib, pages, k, finalDoc);
      FirstUsesStep(pages, k);
      var source, parsedNow;
      source, loadedPdfs, parsedNow := CachedLoad(lib, loadedPdfs, page.originalFile);
      if parsedNow {
        loads := loads + [page.originalFile];
      }
      if source.None? {
        result := Failure(LoadFailed(page.originalFile));
        FirstUsesDistinct(pages[..k + 1]);
        return;
      }
      var copied := lib.copy(source.value, page.originalPageIndex);
      if copied.None? {
        assert !Copiable(lib, page);
        result := Failure(CopyFailed(page.originalFile, page.originalPageIndex));
        FirstUsesDistinct(pages[..k + 1]);
        return;
      }
      finalDoc := finalDoc + [copied.value];
      k := k + 1;
      // The cache's keys are the files of the first k records.
      CacheCoversFirstUses(lib, loadedPdfs, pages[..k]);
    }
    assert pages[..k] == pages;
    assert pages[k..] == [];
    assert finalDoc + [] == finalDoc;
    result := Success(finalDoc);
    FirstUsesDistinct(pages);
  }
}
