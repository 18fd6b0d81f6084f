/** The orchestrator (App.tsx): it owns the page list and the two busy flags,
    and wires uploads, deletions, reorders and the download to them. */
module App {
  import opened Types
  import PdfUtils
  import PageGrid

  // ---------------------------------------------------------------------------
  // The page-list operations
  // ---------------------------------------------------------------------------

  /** The list without position i. */
  function RemoveAt<T>(s: seq<T>, i: nat): (r: seq<T>)
    requires i < |s|
    ensures |r| == |s| - 1
  {
    s[..i] + s[i + 1..]
  }

  /** The list with x inserted before position i. */
  function InsertAt<T>(s: seq<T>, i: nat, x: T): (r: seq<T>)
    requires i <= |s|
    ensures |r| == |s| + 1
  {
    s[..i] + [x] + s[i..]
  }

  lemma InsertRemove<T>(s: seq<T>, i: nat)
    requires i < |s|
    ensures InsertAt(RemoveAt(s, i), i, s[i]) == s
  {
  }

  lemma RemoveInsert<T>(s: seq<T>, i: nat, x: T)
    requires i <= |s|
    ensures RemoveAt(InsertAt(s, i, x), i) == s
  {
  }

  /** `arrayMove` of the sortable library, taken to remove the element at
      `from` and insert it again so that it ends at `to`, the others
      shifting by one. */
  function ArrayMove<T>(s: seq<T>, from: nat, to: nat): (r: seq<T>)
    requires from < |s| && to < |s|
    ensures |r| == |s|
    ensures r[to] == s[from]
    ensures RemoveAt(r, to) == RemoveAt(s, from)
  {
    var rest := RemoveAt(s, from);
    RemoveInsert(rest, to, s[from]);
    InsertAt(rest, to, s[from])
  }

  /** A move neither loses nor duplicates an element. */
  lemma ArrayMovePermutes<T>(s: seq<T>, from: nat, to: nat)
    requires from < |s| && to < |s|
    ensures multiset(ArrayMove(s, from, to)) == multiset(s)
  {
    var rest := RemoveAt(s, from);
    assert ArrayMove(s, from, to) == rest[..to] + [s[from]] + rest[to..];
    assert rest == rest[..to] + rest[to..];
    assert multiset(ArrayMove(s, from, to)) == multiset(rest) + multiset{s[from]};
    assert s == s[..from] + [s[from]] + s[from + 1..];
    assert multiset(s) == multiset(s[..from]) + multiset{s[from]} + multiset(s[from + 1..]);
  }

  /** Moving back undoes a move. */
  lemma ArrayMoveInverse<T>(s: seq<T>, from: nat, to: nat)
    requires from < |s| && to < |s|
    ensures ArrayMove(ArrayMove(s, from, to), to, from) == s
  {
  }

  /** Appending a batch keeps the old list as a prefix and puts the batch after it. */
  function AppendPages(prev: seq<PageData>, newPages: seq<PageData>): (r: seq<PageData>)
    ensures |r| == |prev| + |newPages|
    ensures r[..|prev|] == prev && r[|prev|..] == newPages
  {
    prev + newPages
  }

  /** `filter(page => page.id !== id)`. */
  function DeletePage(pages: seq<PageData>, id: string): (r: seq<PageData>)
    ensures |r| <= |pages|
    decreases |pages|
  {
    if pages == [] then []
    else if pages[0].id == id then DeletePage(pages[1..], id)
    else [pages[0]] + DeletePage(pages[1..], id)
  }

  /** A record survives deletion exactly when it was there and has another
      id; so no record with the id is left. */
  lemma {:induction false} DeletePageMembers(pages: seq<PageData>, id: string)
    ensures forall p :: p in DeletePage(pages, id) <==> p in pages && p.id != id
    ensures !HasId(DeletePage(pages, id), id)
    decreases |pages|
  {
    if pages != [] {
      DeletePageMembers(pages[1..], id);
      assert forall k :: 0 < k < |pages| ==> pages[k] == pages[1..][k - 1];
      assert pages == [pages[0]] + pages[1..];
    }
  }

  /** Deleting keeps relative order: it distributes over concatenation. */
  lemma {:induction false} DeletePageAppend(a: seq<PageData>, b: seq<PageData>, id: string)
    ensures DeletePage(a + b, id) == DeletePage(a, id) + DeletePage(b, id)
    decreases |a|
  {
    if a == [] {
      assert a + b == b;
    } else {
      assert (a + b)[1..] == a[1..] + b;
      DeletePageAppend(a[1..], b, id);
    }
  }

  /** Deleting an id that no record has changes nothing. */
  lemma {:induction false} DeletePageAbsent(pages: seq<PageData>, id: string)
    requires !HasId(pages, id)
    ensures DeletePage(pages, id) == pages
    decreases |pages|
  {
    if pages != [] {
      assert forall k :: 0 < k < |pages| ==> pages[k] == pages[1..][k - 1];
      DeletePageAbsent(pages[1..], id);
    }
  }

  /** With unique ids, deleting the id of record k removes exactly that record. */
  lemma {:induction false} DeletePageUnique(pages: seq<PageData>, id: string, k: nat)
    requires UniqueIds(pages)
    requires k < |pages| && pages[k].id == id
    ensures DeletePage(pages, id) == RemoveAt(pages, k)
    ensures |DeletePage(pages, id)| == |pages| - 1
    decreases k
  {
    var tail := pages[1..];
    assert forall j :: 0 <= j < |tail| ==> tail[j] == pages[j + 1];
    if k == 0 {
      assert !HasId(tail, id);
      DeletePageAbsent(tail, id);
      assert RemoveAt(pages, 0) == tail;
    } else {
      assert UniqueIds(tail);
      DeletePageUnique(tail, id, k - 1);
      assert RemoveAt(pages, k) == [pages[0]] + RemoveAt(tail, k - 1);
    }
  }

  /** Moving keeps ids unique. */
  lemma MoveKeepsUnique(pages: seq<PageData>, from: nat, to: nat)
    requires UniqueIds(pages)
    requires from < |pages| && to < |pages|
    ensures UniqueIds(ArrayMove(pages, from, to))
  {
    var r := ArrayMove(pages, from, to);
    forall i, j | 0 <= i < j < |r| ensures r[i].id != r[j].id {
      MovedIndex(pages, from, to, i);
      MovedIndex(pages, from, to, j);
    }
  }

  /** Deleting keeps ids unique. */
  lemma {:induction false} DeleteKeepsUnique(pages: seq<PageData>, id: string)
    requires UniqueIds(pages)
    ensures UniqueIds(DeletePage(pages, id))
    decreases |pages|
  {
    if pages != [] {
      assert forall k :: 0 < k < |pages| ==> pages[k] == pages[1..][k - 1];
      DeleteKeepsUnique(pages[1..], id);
      DeletePageMembers(pages[1..], id);
      var rest := DeletePage(pages[1..], id);
      if pages[0].id != id {
        var r := [pages[0]] + rest;
        forall j | 0 < j < |r| ensures r[0].id != r[j].id {
          assert r[j] in pages[1..];
        }
      }
    }
  }

  /** Where element i of a moved list came from. */
  function SourceIndex(n: nat, from: nat, to: nat, i: nat): nat
  {
    if i == to then from
    else if from < to && from <= i < to then i + 1
    else if to < from && to < i <= from then i - 1
    else i
  }

  lemma MovedIndex<T>(s: seq<T>, from: nat, to: nat, i: nat)
    requires from < |s| && to < |s| && i < |s|
    ensures SourceIndex(|s|, from, to, i) < |s|
    ensures ArrayMove(s, from, to)[i] == s[SourceIndex(|s|, from, to, i)]
    ensures forall j :: 0 <= j < |s| && j != i ==> SourceIndex(|s|, from, to, j) != SourceIndex(|s|, from, to, i)
  {
  }

  // ---------------------------------------------------------------------------
  // What the main area shows
  // ---------------------------------------------------------------------------

  /** The main area: the primary upload surface, or the grid with its footer
      (second upload button and a download button labelled with the count). */
  datatype Screen = PrimaryUpload | Workspace(tiles: seq<PageGrid.Tile>, downloadCount: nat)

  function MainView(pages: seq<PageData>): (v: Screen)
    ensures v.PrimaryUpload? <==> pages == []
    ensures v.Workspace? ==> |v.tiles| == |pages| == v.downloadCount
    ensures v.Workspace? ==> forall k :: 0 <= k < |pages| ==>
      v.tiles[k].id == pages[k].id && v.tiles[k].pageNumber == k + 1
  {
    if |pages| == 0 then PrimaryUpload else Workspace(PageGrid.Tiles(pages), |pages|)
  }

  // ---------------------------------------------------------------------------
  // The component's state and handlers
  // ---------------------------------------------------------------------------

  /** What a press of the download button ends in. */
  datatype DownloadOutcome<Page> =
    | NothingToDownload
    | Downloaded(fileName: string, document: seq<Page>)
    | GenerationFailed(error: PdfUtils.AssemblyError)

  /** The default name of the saved file, from the timestamp at save time. */
  function DownloadName(now: nat): (name: string)
    ensures |name| == 22 + |NatToString(now)|
    ensures name[..18] == "combined_document_"
    ensures name[|name| - 4..] == ".pdf"
    ensures name[18..|name| - 4] == NatToString(now)
  {
    "combined_document_" + NatToString(now) + ".pdf"
  }

  class AppState {
    var pages: seq<PageData>
    var isLoading: bool
    var isGenerating: bool

    constructor ()
      ensures pages == [] && !isLoading && !isGenerating
    {
      pages, isLoading, isGenerating := [], false, false;
    }

    /** What the main area shows for the current list. */
    function View(): (v: Screen)
      reads this
      ensures v.PrimaryUpload? <==> pages == []
      ensures v.Workspace? ==> |v.tiles| == v.downloadCount == |pages|
    {
      MainView(pages)
    }

    /** `handleFilesChange`: render the batch while the loading flag is up,
        then append its records. `loadingWhileRendering` is the flag's value
        while the renderer runs. */
    method HandleFilesChange(r: PdfUtils.Rasterizer, clock: nat -> nat, pdfjsLoaded: bool, files: seq<File>)
      returns (failedFiles: seq<File>, ghost loadingWhileRendering: bool)
      modifies this
      ensures pages == AppendPages(old(pages), PdfUtils.RenderSpec(r, clock, pdfjsLoaded, files).pages)
      ensures failedFiles == PdfUtils.RenderSpec(r, clock, pdfjsLoaded, files).failedFiles
      ensures loadingWhileRendering && !isLoading && isGenerating == old(isGenerating)
    {
      isLoading := true;
      var newPages;
      newPages, failedFiles := PdfUtils.RenderPdfToThumbnails(r, clock, pdfjsLoaded, files);
      loadingWhileRendering := isLoading;
      pages := AppendPages(pages, newPages);
      isLoading := false;
    }

    /** `handleDeletePage`. */
    method HandleDeletePage(id: string)
      modifies this
      ensures pages == DeletePage(old(pages), id)
      ensures isLoading == old(isLoading) && isGenerating == old(isGenerating)
    {
      pages := DeletePage(pages, id);
    }

    /** `handleReorderPages`. */
    method HandleReorderPages(oldIndex: int, newIndex: int)
      requires 0 <= oldIndex < |pages| && 0 <= newIndex < |pages|
      modifies this
      ensures pages == ArrayMove(old(pages), oldIndex, newIndex)
      ensures isLoading == old(isLoading) && isGenerating == old(isGenerating)
    {
      pages := ArrayMove(pages, oldIndex, newIndex);
    }

    /** A drag ending on the grid: what `handleDragEnd` decides, applied. */
    method HandleDragEnd(active: string, over: Option<string>)
      requires HasId(pages, active)
      requires over.Some? ==> HasId(pages, over.value)
      modifies this
      ensures over.None? || over.value == active ==> pages == old(pages)
      ensures over.Some? && over.value != active ==>
        pages == ArrayMove(old(pages), PageGrid.FindIndex(old(pages), active),
                           PageGrid.FindIndex(old(pages), over.value))
      ensures old(UniqueIds(pages)) ==> UniqueIds(pages)
      ensures isGenerating == old(isGenerating) && isLoading == old(isLoading)
    {
      var d := PageGrid.HandleDragEnd(pages, active, over);
      if d.Reorder? {
        PageGrid.DragEndIndices(pages, active, over.value);
        if UniqueIds(pages) {
          MoveKeepsUnique(pages, d.oldIndex, d.newIndex);
        }
        HandleReorderPages(d.oldIndex, d.newIndex);
      }
    }

    /** `handleDownload`: an empty list only warns; otherwise assemble with the
        generating flag up and lower it whether assembly succeeded or failed.
        The list is left as it was. */
    method HandleDownload<Doc, Page>(lib: PdfUtils.PdfLib<Doc, Page>, now: nat)
      returns (outcome: DownloadOutcome<Page>, ghost generatingWhileAssembling: bool)
      modifies this
      ensures pages == old(pages) && isLoading == old(isLoading)
      ensures old(pages) == [] ==> outcome == NothingToDownload && isGenerating == old(isGenerating)
      ensures old(pages) != [] ==> generatingWhileAssembling && !isGenerating
      ensures old(pages) != [] ==>
        match PdfUtils.Assemble(lib, old(pages))
        case Success(doc) => outcome == Downloaded(DownloadName(now), doc)
        case Failure(e) => outcome == GenerationFailed(e)
    {
      if |pages| == 0 {
        return NothingToDownload, false;
      }
      isGenerating := true;
      var result, loads := PdfUtils.CreateFinalPdf(lib, pages);
      generatingWhileAssembling := isGenerating;
      match result {
        case Success(doc) =>
          outcome := Downloaded(DownloadName(now), doc);
        case Failure(e) =>
          outcome := GenerationFailed(e);
      }
      isGenerating := false;
    }
  }
}
