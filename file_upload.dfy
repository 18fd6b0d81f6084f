/** The upload surface (components/FileUpload.tsx): the click path forwards
    what was selected, the drop path keeps only PDFs, and a flag tracks
    whether a drag is over the surface. */
module FileUpload {
  import opened Types

  /** The dropped files whose declared type is `application/pdf`, in order. */
  function PdfFiles(files: seq<File>): (pdfs: seq<File>)
    ensures forall f :: f in pdfs <==> f in files && f.mime == PdfMime
    ensures AllPdf(pdfs)
    ensures |pdfs| <= |files|
    ensures |pdfs| == |files| <==> AllPdf(files)
    decreases |files|
  {
    if files == [] then []
    else
      var rest := PdfFiles(files[1..]);
      assert forall k :: 0 < k < |files| ==> files[k] == files[1..][k - 1];
      if files[0].mime == PdfMime then [files[0]] + rest else rest
  }

  /** Filtering keeps relative order: it distributes over concatenation. */
  lemma {:induction false} PdfFilesAppend(a: seq<File>, b: seq<File>)
    ensures PdfFiles(a + b) == PdfFiles(a) + PdfFiles(b)
    decreases |a|
  {
    if a == [] {
      assert a + b == b;
    } else {
      assert (a + b)[1..] == a[1..] + b;
      PdfFilesAppend(a[1..], b);
    }
  }

  /** What a drop does: whether it warns, and the batch it forwards, if any. */
  datatype DropDecision = DropDecision(warn: bool, forwarded: Option<seq<File>>)

  /** The decision of `handleDrop` for the dropped files (an absent file list
      is the empty one). */
  function Drop(files: seq<File>): (d: DropDecision)
    ensures d.warn <==> exists k :: 0 <= k < |files| && files[k].mime != PdfMime
    ensures d.forwarded.Some? <==> exists k :: 0 <= k < |files| && files[k].mime == PdfMime
    ensures d.forwarded.Some? ==> d.forwarded.value == PdfFiles(files) && d.forwarded.value != []
    ensures files == [] ==> d == DropDecision(false, None)
  {
    if |files| > 0 then
      var pdfFiles := PdfFiles(files);
      assert forall k :: 0 <= k < |files| && files[k].mime == PdfMime ==> files[k] in pdfFiles;
      assert |pdfFiles| > 0 ==> pdfFiles[0] in files && pdfFiles[0].mime == PdfMime;
      DropDecision(|pdfFiles| != |files|, if |pdfFiles| > 0 then Some(pdfFiles) else None)
    else DropDecision(false, None)
  }

  /** `handleFileChange`: the batch the file input forwards. The selected
      files go on as they are, unfiltered, even when the selection is empty;
      only an absent list forwards nothing. */
  function FileChange(selected: Option<seq<File>>): (forwarded: Option<seq<File>>)
    ensures forwarded == selected
  {
    match selected
    case None => None
    case Some(files) => Some(files)
  }

  /** The drop zone's state: whether a drag with items is over it. */
  class UploadSurface {
    var isDragging: bool

    constructor ()
      ensures !isDragging
    {
      isDragging := false;
    }

    /** `handleDragIn`: set only when the drag carries items. */
    method HandleDragIn(itemCount: nat)
      modifies this
      ensures isDragging == (old(isDragging) || itemCount > 0)
    {
      if itemCount > 0 {
        isDragging := true;
      }
    }

    /** `handleDragOut`. */
    method HandleDragOut()
      modifies this
      ensures !isDragging
    {
      isDragging := false;
    }

    /** `handleDrop`: clear the flag, then warn and forward as `Drop` decides. */
    method HandleDrop(files: seq<File>) returns (warn: bool, forwarded: Option<seq<File>>)
      modifies this
      ensures !isDragging
      ensures DropDecision(warn, forwarded) == Drop(files)
    {
      isDragging := false;
      warn, forwarded := false, None;
      if |files| > 0 {
        var pdfFiles := PdfFiles(files);
        if |pdfFiles| != |files| {
          warn := true;
        }
        if |pdfFiles| > 0 {
          forwarded := Some(pdfFiles);
        }
      }
    }
  }
}
