/** The records the application passes around (types.ts) and small shared helpers. */
module Types {

  datatype Option<T> = None | Some(value: T)

  datatype Result<T, E> = Success(value: T) | Failure(error: E)

  /** A browser `File` object. `ident` stands for the object's identity: the
      application keys maps by object reference, so two distinct uploads are
      two distinct values even when their name and type agree. */
  datatype File = File(ident: nat, name: string, mime: string)

  /** One page pending inclusion in the output document (`PageData`). */
  datatype PageData = PageData(
    id: string,
    originalFile: File,
    originalPageIndex: nat,  // 0-based
    thumbnailUrl: string)

  /** The MIME type the upload surface accepts. */
  const PdfMime: string := "application/pdf"

  /** Every file of `files` is a PDF by its declared type. */
  predicate AllPdf(files: seq<File>)
  {
    forall k :: 0 <= k < |files| ==> files[k].mime == PdfMime
  }

  /** No two records of the list share an id. */
  predicate UniqueIds(pages: seq<PageData>)
  {
    forall i, j :: 0 <= i < j < |pages| ==> pages[i].id != pages[j].id
  }

  /** Some record of the list has id `id`. */
  predicate HasId(pages: seq<PageData>, id: string)
  {
    exists k :: 0 <= k < |pages| && pages[k].id == id
  }

  /** Decimal rendering of a natural number, as JavaScript's template strings print it. */
  function NatToString(n: nat): (s: string)
    ensures |s| > 0
    decreases n
  {
    if n < 10 then [DigitChar(n)] else NatToString(n / 10) + [DigitChar(n % 10)]
  }

  function DigitChar(d: nat): char
    requires d < 10
  {
    (48 + d) as char
  }
}
