/** The grid of thumbnails (components/PageGrid.tsx): numbering the tiles and
    turning the end of a drag into a reorder request. */
module PageGrid {
  import opened Types

  /** `findIndex` by id: the first position holding `id`, or -1. */
  function FindIndex(pages: seq<PageData>, id: string): (r: int)
    ensures -1 <= r < |pages|
    ensures r == -1 <==> !HasId(pages, id)
    ensures r >= 0 ==> pages[r].id == id && forall k :: 0 <= k < r ==> pages[k].id != id
    decreases |pages|
  {
    if pages == [] then -1
    else if pages[0].id == id then 0
    else
      var j := FindIndex(pages[1..], id);
      assert forall k :: 0 < k < |pages| ==> pages[k] == pages[1..][k - 1];
      if j == -1 then -1 else j + 1
  }

  /** What the end of a drag asks of the list. */
  datatype DragOutcome = NoReorder | Reorder(oldIndex: int, newIndex: int)

  /** `handleDragEnd`: no request when there is no drop target or the target
      is the dragged tile itself; otherwise the first positions of the two ids. */
  function HandleDragEnd(pages: seq<PageData>, active: string, over: Option<string>): (d: DragOutcome)
    ensures d.Reorder? <==> over.Some? && over.value != active
  {
    match over
    case None => NoReorder
    case Some(target) =>
      if active == target then NoReorder
      else Reorder(FindIndex(pages, active), FindIndex(pages, target))
  }

  /** With both tiles in the grid, a request moves a tile to a different
      position, both indices in range, each naming its tile. Ids need not be
      unique: the first positions of two different ids always differ. */
  lemma DragEndIndices(pages: seq<PageData>, active: string, over: string)
    requires HasId(pages, active) && HasId(pages, over)
    requires active != over
    ensures HandleDragEnd(pages, active, Some(over)).Reorder?
    ensures var d := HandleDragEnd(pages, active, Some(over));
      && 0 <= d.oldIndex < |pages| && 0 <= d.newIndex < |pages|
      && d.oldIndex != d.newIndex
      && pages[d.oldIndex].id == active && pages[d.newIndex].id == over
  {
  }

  /** One tile as shown: its key, its image and its 1-based page number. */
  datatype Tile = Tile(id: string, thumbnailUrl: string, pageNumber: nat)

  /** The render map: tile k shows record k with page number k + 1. */
  function Tiles(pages: seq<PageData>): (tiles: seq<Tile>)
    ensures |tiles| == |pages|
    ensures forall k :: 0 <= k < |tiles| ==>
      tiles[k].id == pages[k].id && tiles[k].thumbnailUrl == pages[k].thumbnailUrl
    ensures forall k :: 0 <= k < |tiles| ==> tiles[k].pageNumber == k + 1
    decreases |pages|
  {
    if pages == [] then []
    else
      var last := pages[|pages| - 1];
      Tiles(pages[..|pages| - 1]) + [Tile(last.id, last.thumbnailUrl, |pages|)]
  }
}
