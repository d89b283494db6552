/**
 * The `UITableView` extension: the row `scrollToBottom` scrolls to, and which
 * cell `postCell` builds for a row of a post.
 */
module TableViewExtensions {
  import opened Wrappers
  import opened StreamTypes

  /**
   * A table's data source: the optional `numberOfSections(in:)` and
   * `tableView(_:numberOfRowsInSection:)`, which may be asked about any section.
   */
  datatype DataSource = DataSource(numberOfSections: Option<int>, numberOfRows: int -> int)

  datatype IndexPath = IndexPath(row: int, section: int)

  /** `numberOfSections ?? 1`: a data source without the method has one section. */
  function SectionCount(ds: DataSource): int {
    if ds.numberOfSections.Some? then ds.numberOfSections.value else 1
  }

  /** `s` is the last section with at least one row. */
  ghost predicate IsLastNonEmptySection(ds: DataSource, s: int) {
    && 0 <= s < SectionCount(ds)
    && ds.numberOfRows(s) >= 1
    && forall j :: s < j < SectionCount(ds) ==> ds.numberOfRows(j) < 1
  }

  /**
   * `scrollToBottom(animated:)`: scans down from the last section to the last one
   * with a row and yields the index path of that section's last row, which the
   * table then scrolls to; nothing when there is no data source or no row.
   */
  method ScrollToBottom(dataSource: Option<DataSource>) returns (target: Option<IndexPath>)
    ensures dataSource.None? ==> target.None?
    ensures dataSource.Some? ==>
      (target.Some? <==> exists j :: 0 <= j < SectionCount(dataSource.value) && dataSource.value.numberOfRows(j) >= 1)
    ensures target.Some? ==>
      && IsLastNonEmptySection(dataSource.value, target.value.section)
      && target.value.row == dataSource.value.numberOfRows(target.value.section) - 1
  {
    if dataSource.None? {
      return None;
    }
    var ds := dataSource.value;
    var lastSectionWithAtLeastOneElement := SectionCount(ds) - 1;
    while ds.numberOfRows(lastSectionWithAtLeastOneElement) < 1 && lastSectionWithAtLeastOneElement > 0
      invariant lastSectionWithAtLeastOneElement <= SectionCount(ds) - 1
      invariant SectionCount(ds) >= 1 ==> lastSectionWithAtLeastOneElement >= 0
      invariant forall j :: lastSectionWithAtLeastOneElement < j < SectionCount(ds) ==> ds.numberOfRows(j) < 1
      decreases lastSectionWithAtLeastOneElement
    {
      lastSectionWithAtLeastOneElement := lastSectionWithAtLeastOneElement - 1;
    }
    var lastRow := ds.numberOfRows(lastSectionWithAtLeastOneElement) - 1;
    if !(lastSectionWithAtLeastOneElement > -1 && lastRow > -1) {
      return None;
    }
    target := Some(IndexPath(lastRow, lastSectionWithAtLeastOneElement));
  }

  /** The kinds of row a post presenter reports, with their payloads. */
  datatype CellType =
    | ActivityRow
    | AttachmentImages(mediaItems: seq<UploadedMediaItem>)
    | AttachmentOpenGraphData(ogData: OGResponse)
    | Actions
    | Separator

  /**
   * The configured cell: for the attachment gallery, the items it shows and the
   * list handed to the tap callback.
   */
  datatype PostCell =
    | PostHeaderCell
    | PostAttachmentImagesCell(shown: seq<UploadedMediaItem>, tapped: seq<UploadedMediaItem>)
    | OpenGraphCell(ogData: OGResponse)
    | PostActionsCell
    | SeparatorCell

  /**
   * `postCell(at:presenter:imagesTappedAction:)`, given the presenter's cell type
   * for the row: no cell when there is none, nor for a gallery of at most one
   * item; a gallery cell shows all items but the first, while its tap callback
   * receives the full list.
   */
  method PostCellFor(cellType: Option<CellType>) returns (cell: Option<PostCell>)
    ensures cellType.None? ==> cell.None?
    ensures cellType.Some? && cellType.value.AttachmentImages? ==>
      var mediaItems := cellType.value.mediaItems;
      && (cell.None? <==> |mediaItems| <= 1)
      && (cell.Some? ==> cell.value.PostAttachmentImagesCell? && cell.value.tapped == mediaItems
                         && [mediaItems[0]] + cell.value.shown == mediaItems)
    ensures cellType.Some? && cellType.value.ActivityRow? ==> cell == Some(PostHeaderCell)
    ensures cellType.Some? && cellType.value.AttachmentOpenGraphData? ==> cell == Some(OpenGraphCell(cellType.value.ogData))
    ensures cellType.Some? && cellType.value.Actions? ==> cell == Some(PostActionsCell)
    ensures cellType.Some? && cellType.value.Separator? ==> cell == Some(SeparatorCell)
  {
    if cellType.None? {
      return None;
    }
    match cellType.value
    case ActivityRow =>
      cell := Some(PostHeaderCell);
    case AttachmentImages(mediaItems) =>
      if !(|mediaItems| > 1) {
        return None;
      }
      var updatedMediaItem := mediaItems;
      updatedMediaItem := updatedMediaItem[1..];
      cell := Some(PostAttachmentImagesCell(updatedMediaItem, mediaItems));
    case AttachmentOpenGraphData(ogData) =>
      cell := Some(OpenGraphCell(ogData));
    case Actions =>
      cell := Some(PostActionsCell);
    case Separator =>
      cell := Some(SeparatorCell);
  }
}
