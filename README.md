# PDF Page Manager — a verified model of its core logic

PDF Page Manager is a browser application. It does five things:

- It turns uploaded PDF files into a grid of page thumbnails.
- It lets the user delete pages and reorder them by drag and drop.
- It assembles the remaining pages, in grid order, into one new PDF that the browser downloads.
- It filters dropped files so that only PDFs are processed.
- It tracks a "drag is over the surface" flag, plus the two busy flags of the application ("processing PDFs", "generating").

This project models the sequential logic of those pieces in Dafny and proves what it promises.

The two PDF libraries are black boxes, given as functions that are parameters of the model:

- `PdfUtils.Rasterizer` stands for pdf.js. `open` reads a file and returns its page count, or `None` when reading or parsing throws. `page` renders one 1-based page. Its result is `Rendered(dataUrl)`, `NoContext` when the canvas has no 2D context, or `Throws`.
- `PdfUtils.PdfLib` stands for pdf-lib. `load` parses a file, or returns `None` when it throws. `copy` copies one 0-based page of a parsed document, or returns `None` when it throws.

Other inputs:

- A `File` is a value whose `ident` stands for the browser object's identity. The application keys its document cache by object.
- `Date.now()` becomes a parameter. In the renderer it is `clock(k)`, the time read when the k-th record of the call is pushed. In the download it is the timestamp `now`.

Modules follow the source files:

- `Types` models types.ts, plus shared predicates.
- `PdfUtils` models services/pdfUtils.ts. It is imperative: one method per loop, each proved equal to a recursive specification function. Lemmas prove the promised properties of those functions.
- `App` models App.tsx. The list operations are functions. The component state is the class `App.AppState`, whose handler methods update the list and the flags.
- `PageGrid` models components/PageGrid.tsx, as pure functions.
- `FileUpload` models components/FileUpload.tsx. The drop decision is a function, and the `isDragging` flag lives in the class `FileUpload.UploadSurface`.

Where the documentation and the code disagree, the model follows the code. When a file throws partway through rendering, the records already pushed for its earlier pages stay in the result. Only the rest of that file is abandoned, and a warning naming the file is raised.

## Model

| member | source | states |
|---|---|---|
| PdfUtils.PageId | services/pdfUtils.ts:40 | a record's id is the file name, a dash, the decimal timestamp, a dash and the decimal 1-based page number: it starts with the file name and a dash and ends with a dash and the page number |
| PdfUtils.Record | services/pdfUtils.ts:39-44 | the pushed record: id from the file name, the clock reading for this push and the page number; the file itself; the 0-based index `i - 1`; the page's data URL |
| PdfUtils.RunPages | services/pdfUtils.ts:28-47 | the defining equation of the page loop from page i: past the last page nothing more; a throwing page ends the file, marked failed, with nothing more pushed; a page without a context is skipped; a rendered page pushes its record ahead of what the later pages push (its properties are the lemmas below) |
| PdfUtils.RunFile | services/pdfUtils.ts:23-51 | one file's `try`: a file that does not open pushes nothing and is marked failed; otherwise the page loop from page 1 to its page count |
| PdfUtils.RenderFiles | services/pdfUtils.ts:22-52 | the outer loop: the files before the last give their records and warnings, then the last file's run follows, its records numbered on from theirs and the file warned about when its run failed |
| PdfUtils.RenderSpec | services/pdfUtils.ts:12-55 | the whole call: nothing without pdf.js, otherwise the outer loop with no records pushed yet |
| PdfUtils.RunPagesBound | services/pdfUtils.ts:28-44 | pages i..n push at most one record each |
| PdfUtils.RenderFilesBound | services/pdfUtils.ts:22-52 | a call gives at most as many records as the opened files have pages, and at most one warning per file |
| PdfUtils.RenderPdfToThumbnails | services/pdfUtils.ts:12-55 | without pdf.js nothing is processed and the result is empty; otherwise the records and the warned files are exactly those of processing the files one after another, each in its own `try` |
| PdfUtils.RenderFile | services/pdfUtils.ts:23-51 | one file's `try` body: if the file does not open, it pushes nothing and is marked failed; otherwise it walks pages 1..n in order, pushes a record for each page with a context, and stops at the first page that throws, keeping what it pushed |
| PdfUtils.RunPagesStep | services/pdfUtils.ts:28-45 | a page without a drawing context pushes nothing; a rendered page pushes exactly its record ahead of what the later pages push |
| PdfUtils.RunPagesShape | services/pdfUtils.ts:37-44 | every record names its file, has a 0-based index within the page count, carries the thumbnail its page rendered to, and indices strictly ascend |
| PdfUtils.RunPagesRecordsPage | services/pdfUtils.ts:28-47 | a page gets a record if and only if it rendered with a context and no earlier page of the same file threw |
| PdfUtils.RunPagesComplete | services/pdfUtils.ts:28-44 | when pages i..n all render, they give n+1-i records, in page order, with no failure |
| PdfUtils.RunPagesFailure | services/pdfUtils.ts:23-51 | a page that throws marks its file failed, and the records of the pages before it remain, exactly as if the file had ended just before that page |
| PdfUtils.RunFileComplete | services/pdfUtils.ts:25-44 | a file of n pages that renders fully gives exactly n records for that file, with indices 0..n-1 in order, and raises no warning |
| PdfUtils.RenderFilesAppend | services/pdfUtils.ts:22-52 | files are processed in order and independently: the result for a concatenation is the first part's result followed by the second part's, whatever failed in the first |
| PdfUtils.RenderFilesCount | services/pdfUtils.ts:22-47 | when every file renders fully, the number of records is the sum of the page counts and no file is warned about |
| PdfUtils.CreateFinalPdf | services/pdfUtils.ts:62-80 | the result is the recursive assembly of the records; each distinct file is loaded at most once, and on success exactly once per file, in order of first use; after each record its loop establishes that the cache's keys are exactly the files of the records seen so far, each mapped to what `load` gave |
| PdfUtils.CachedLoad | services/pdfUtils.ts:67-73 | the document is what `load` gives for the file; `load` is called exactly when the file is not cached; a cached file leaves the cache as it was, and a fresh successful parse is added to it |
| PdfUtils.Assemble | services/pdfUtils.ts:62-80 | the defining equation of the assembly: the empty list gives the empty document; a first record whose file does not load or whose page does not copy ends assembly with its error; otherwise its copied page comes first, followed by the assembly of the rest (its properties are `AssembleMeaning`) |
| PdfUtils.FirstUses | services/pdfUtils.ts:64-73 | the files the loop parses, in order: a record adds its file when no earlier record used it (its properties are `FirstUsesDistinct`) |
| PdfUtils.AssembleMeaning | services/pdfUtils.ts:66-77 | assembly succeeds if and only if every record's file loads and its page copies; the output then has one page per record, page k being the copy of record k's page; otherwise the error is that of the first failing record; an empty list gives an empty document |
| PdfUtils.FirstUsesDistinct | services/pdfUtils.ts:64-73 | the files in order of first use have no duplicates, and a file is among them exactly when some record uses it |
| PdfUtils.AssembleStep | services/pdfUtils.ts:66-77 | one copiable record extends the output by its copied page |
| PdfUtils.FirstUsesStep | services/pdfUtils.ts:67-73 | one more record adds its file to the first uses exactly when that file was not yet used |
| PdfUtils.CacheCoversFirstUses | services/pdfUtils.ts:64-73 | a cache keyed by the first uses of the records seen so far, holding what `load` gave, has as keys exactly the files those records use |
| App.ArrayMove | App.tsx:26-28 | for in-range indices the length is kept, the moved element lands at the new index, and the others keep their relative order |
| App.ArrayMovePermutes | App.tsx:26-28 | a move neither loses nor duplicates an element |
| App.ArrayMoveInverse | App.tsx:26-28 | moving back undoes a move |
| App.MovedIndex | App.tsx:26-28 | element i of the moved list comes from a single source position, and distinct positions come from distinct sources |
| App.InsertRemove | App.tsx:26-28 | reinserting a removed element at its place restores the list |
| App.RemoveInsert | App.tsx:26-28 | removing an element just inserted restores the list |
| App.AppendPages | App.tsx:17-18 | the old list is kept as a prefix, and the new batch follows it |
| App.DeletePage | App.tsx:22-24 | the filtered list is never longer than the list |
| App.DeletePageMembers | App.tsx:22-24 | a record remains if and only if it was in the list and its id differs; no record with the id remains |
| App.DeletePageAppend | App.tsx:22-24 | deletion distributes over concatenation, so relative order is kept |
| App.DeletePageAbsent | App.tsx:22-24 | deleting an id that no record has changes nothing |
| App.DeletePageUnique | App.tsx:22-24 | with unique ids, deleting record k's id removes exactly position k |
| App.DeleteKeepsUnique | App.tsx:22-24 | deletion keeps ids unique |
| App.MoveKeepsUnique | App.tsx:26-28 | an in-range move keeps ids unique |
| App.MainView | App.tsx:62-81 | the upload surface is shown if and only if the list is empty; otherwise the grid shows one tile per record, numbered in list order, and the download button counts the records |
| App.DownloadName | App.tsx:42 | the saved file's name is `combined_document_`, then the decimal timestamp, then `.pdf` |
| App.AppState.View | App.tsx:62-81 | the upload surface is shown exactly when the list is empty; otherwise there is one tile per record and the download button counts the records |
| App.AppState.constructor | App.tsx:11-13 | the list is empty and both flags are down |
| App.AppState.HandleFilesChange | App.tsx:15-20 | the loading flag is up while rendering and down afterwards; the rendered records are appended to the old list |
| App.AppState.HandleDeletePage | App.tsx:22-24 | the list becomes the filtered list, and the flags are untouched |
| App.AppState.HandleReorderPages | App.tsx:26-28 | the list becomes the moved list, and the flags are untouched |
| App.AppState.HandleDragEnd | components/PageGrid.tsx:30-37 | no drop target, or the dragged tile itself as target, leaves the list as it was; otherwise the list is moved between the first positions of the two ids; ids that were unique stay unique, and duplicate ids are accepted as the source accepts them |
| App.AppState.HandleDownload | App.tsx:30-52 | an empty list only warns and does not assemble; otherwise the generating flag is up during assembly and down afterwards, on success and on failure alike; success downloads the assembled document under the timestamped name, failure reports the assembly error; the list is kept |
| PageGrid.FindIndex | components/PageGrid.tsx:33-34 | the first position holding the id, or -1 exactly when no record has it |
| PageGrid.HandleDragEnd | components/PageGrid.tsx:30-37 | a reorder is requested if and only if there is a drop target other than the dragged tile |
| PageGrid.DragEndIndices | components/PageGrid.tsx:32-35 | with both ids present, a request has two distinct in-range indices naming the dragged tile and the target, whether or not ids are unique |
| PageGrid.Tiles | components/PageGrid.tsx:48-53 | one tile per record, in list order, with its id and thumbnail, and page numbers 1..n |
| FileUpload.PdfFiles | components/FileUpload.tsx:44 | the kept files are exactly the PDFs among the dropped ones; nothing shrinks exactly when all were PDFs |
| FileUpload.PdfFilesAppend | components/FileUpload.tsx:44 | filtering distributes over concatenation, so the original order is kept |
| FileUpload.Drop | components/FileUpload.tsx:42-50 | a warning is raised if and only if some dropped file is not a PDF; a non-empty batch of exactly the PDFs is forwarded if and only if some file is a PDF; an empty drop does nothing |
| FileUpload.UploadSurface.constructor | components/FileUpload.tsx:10 | no drag is over the surface initially |
| FileUpload.UploadSurface.HandleDragIn | components/FileUpload.tsx:24-30 | the flag is raised only when the drag carries items |
| FileUpload.UploadSurface.HandleDragOut | components/FileUpload.tsx:32-36 | the flag is lowered |
| FileUpload.UploadSurface.HandleDrop | components/FileUpload.tsx:38-53 | the flag is lowered, and the warning and forwarded batch are those of the drop decision |
| FileUpload.FileChange | components/FileUpload.tsx:13-17 | the selected files are forwarded unfiltered, even an empty selection; only an absent list is not forwarded |
| Types.NatToString | App.tsx:42 | the decimal rendering of a timestamp is never empty |

## Left out

- pdf.js rendering internals are black boxes, as described above. This covers the canvas, the 0.5 viewport scale, JPEG encoding at quality 0.8 and the worker-source assignment. They are floating point or foreign library code.
- PdfUtils.RunPages: `page.cleanup()` is assumed never to throw. In the source it runs after the push, so a throw there would keep that page's record and still mark the file failed. `PageStep` has no case for that: `Throws` stands for a throw before the push.
- pdf-lib parsing, `copyPages` internals and `save()` serialisation are also black boxes. The output document is the sequence of copied pages.
- Blob, object URL and anchor-click download plumbing is browser I/O. The outcome `Downloaded(name, pages)` stands for it.
- `alert` and `console.error` are modelled only as results: the renderer's list of warned files, the drop's warning flag, and the download's `NothingToDownload` and `GenerationFailed` outcomes.
- services/scriptLoader.ts, components/PageThumbnail.tsx, components/Spinner.tsx and components/Header.tsx are not part of this model. They are DOM script injection and presentation.
- Asynchronous interleaving is not modelled; each handler runs atomically. For example, an upload that finishes after a delete is concurrency, not sequential logic.
- App.AppState.HandleFilesChange and App.AppState.HandleDownload: "the flag is up during the call" is stated through a ghost out-parameter that captures the flag just after the library call returns. React's batched state updates are not modelled.
- App.ArrayMove: `arrayMove` belongs to the dnd-kit library, whose source is not part of this model. It is modelled as remove-then-insert, with in-range indices required. Its behaviour for an index of -1 is not modelled. App.AppState.HandleDragEnd therefore requires both ids to be present; PageGrid.DragEndIndices shows that the indices are then in range.
- The visual swap strategy of the grid (`rectSwappingStrategy`), the `handleDrag` dragover handler (which only stops the event) and `clearData` are UI-only and are not modelled.
- PdfUtils.RenderFile models the inner page loop of `renderPdfToThumbnails` as a method of its own, called once per file. The `try`/`catch` is its `failed` result.
- Types.NatToString: id and file-name strings are built with decimal timestamps, but only the non-emptiness of the rendering is proved. Uniqueness of ids is not claimed, because the source does not guarantee it.
