/**
 * The `AttachmentRepresentable` protocol extension: the Open Graph data of a
 * post and the list of items its attachment gallery shows.
 * The protocol's two requirements, `attachment` and `media`, are parameters.
 */
module AttachmentRepresentable {
  import opened Wrappers
  import opened StreamTypes

  /** The item built for a bare image URL: media type "image", no video, no thumbnail. */
  function ImageItem(url: Url): UploadedMediaItem {
    UploadedMediaItem("image", Some(url), None, None)
  }

  /** True of an item that carries only an image URL, as every item built from a URL does. */
  predicate IsPlainImage(item: UploadedMediaItem) {
    item.mediaType == "image" && item.imageURL.Some? && item.videoURL.None? && item.thumbnailURL.None?
  }

  /** `imageURLs.map { UploadedMediaItem(mediaType: "image", imageURL: $0, ...) }`. */
  function ImageItems(urls: seq<Url>): (items: seq<UploadedMediaItem>)
    ensures |items| == |urls|
    ensures forall i :: 0 <= i < |items| ==> IsPlainImage(items[i]) && items[i].imageURL == Some(urls[i])
  {
    if urls == [] then [] else [ImageItem(urls[0])] + ImageItems(urls[1..])
  }

  /** The image URLs a gallery shows for its items (what an image cell loads). */
  function ImageURLsOf(items: seq<UploadedMediaItem>): (urls: seq<Url>)
    requires forall i :: 0 <= i < |items| ==> items[i].imageURL.Some?
    ensures |urls| == |items|
  {
    if items == [] then [] else [items[0].imageURL.value] + ImageURLsOf(items[1..])
  }

  /** Building image items and reading their URLs back gives the URLs unchanged. */
  lemma {:induction false} ImageItemsRoundTrip(urls: seq<Url>)
    ensures ImageURLsOf(ImageItems(urls)) == urls
  {
    if urls != [] {
      assert ImageItems(urls)[1..] == ImageItems(urls[1..]);
      ImageItemsRoundTrip(urls[1..]);
    }
  }

  /** `ogData`: the attachment's Open Graph data, `nil` when there is no attachment. */
  function OgData(attachment: Option<ActivityAttachment>): (og: Option<OGResponse>)
    ensures attachment.None? ==> og.None?
    ensures og.Some? <==> attachment.Some? && attachment.value.openGraphData.Some?
    ensures og.Some? ==> og.value == attachment.value.openGraphData.value
  {
    match attachment
    case None => None
    case Some(a) => a.openGraphData
  }

  /** `if let mediaItems = media, !mediaItems.isEmpty`: the uploaded media is present and non-empty. */
  predicate HasMedia(media: Option<seq<UploadedMediaItem>>) {
    media.Some? && media.value != []
  }

  /** `if let imageURLs = attachment?.imageURLs, !imageURLs.isEmpty`. */
  predicate HasAttachmentImages(attachment: Option<ActivityAttachment>) {
    attachment.Some? && attachment.value.imageURLs.Some? && attachment.value.imageURLs.value != []
  }

  /** The attachment's image URLs, or none at all when any link of the optional chain is `nil`. */
  function AttachmentImageList(attachment: Option<ActivityAttachment>): (urls: seq<Url>)
    ensures urls != [] <==> HasAttachmentImages(attachment)
    ensures attachment.Some? && attachment.value.imageURLs.Some? ==> urls == attachment.value.imageURLs.value
    ensures attachment.None? || attachment.value.imageURLs.None? ==> urls == []
  {
    if attachment.Some? && attachment.value.imageURLs.Some? then attachment.value.imageURLs.value else []
  }

  /**
   * `attachmentImageURLs(firstImageURL:timelineVideoEnabled:)`: the items of the
   * secondary gallery. With video timelines on and uploaded media present, the
   * whole media list when it has a second item, else nothing; otherwise the
   * attachment images as image items, preceded by `firstImageURL` when given.
   */
  function AttachmentImageURLs(attachment: Option<ActivityAttachment>, media: Option<seq<UploadedMediaItem>>,
                               firstImageURL: Option<Url>, timelineVideoEnabled: bool): (r: Option<seq<UploadedMediaItem>>)
    // the uploaded-media branch: the full list, first item included, only when there is a second item
    ensures timelineVideoEnabled && HasMedia(media) && |media.value| >= 2 ==> r == Some(media.value)
    ensures timelineVideoEnabled && HasMedia(media) && |media.value| == 1 ==> r.None?
    // the attachment branch
    ensures !(timelineVideoEnabled && HasMedia(media)) && HasAttachmentImages(attachment) ==>
      && r.Some?
      && var urls := attachment.value.imageURLs.value;
         var extra := if firstImageURL.Some? then 1 else 0;
         && |r.value| == |urls| + extra
         && r.value[extra..] == ImageItems(urls)
         && (firstImageURL.Some? ==> r.value[0] == ImageItem(firstImageURL.value))
    // nil exactly when neither branch yields a list, and a list is never empty
    ensures r.None? <==> if timelineVideoEnabled && HasMedia(media) then |media.value| == 1
                         else !HasAttachmentImages(attachment)
    ensures r.Some? ==> r.value != []
  {
    if media.Some? && media.value != [] && timelineVideoEnabled then
      var updatedMediaItems := media.value[1..];
      if updatedMediaItems != [] then Some(media.value) else None
    else if attachment.Some? && attachment.value.imageURLs.Some? && attachment.value.imageURLs.value != [] then
      var allImagesURLs := ImageItems(attachment.value.imageURLs.value);
      if firstImageURL.Some? then Some([ImageItem(firstImageURL.value)] + allImagesURLs)
      else Some(allImagesURLs)
    else
      None
  }
}
