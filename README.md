# Activity-feed UI kit: media lists, video compression parameters and table addressing

This project models the few decision rules of an iOS activity-feed component
library that are not view code:

- **Post media lists** (`Models/Activity.swift`, `Models/Protocols/AttachmentRepresentable.swift`):
  the items a post's header shows (`mappedMediaItems`) and those its attachment
  gallery shows (`attachmentImageURLs`); `ogData`; the repost-unwrapping
  `original`; and the coding of the four fields `Activity` adds to the SDK's
  enriched activity (`text`, `attachment` under the key `attachments`, `petId`, `media`).
- **Video compression parameters** (`Helpers/VideoCompressor.swift`): the tiered
  output resolution snapped to multiples of 16, the capped and scaled bitrate,
  and the combined video/audio progress.
- **Table addressing** (`Extensions/UIKit/UITableView+Extensions.swift`): the
  last non-empty section and row `scrollToBottom` scrolls to, and which cell
  `postCell` builds, including the gallery that drops its first item.
- **Keep original or compressed** (`Helpers/VideoCompressorManager.swift`): the
  whole-MiB size comparison and how each `CompressionResult` reaches the caller.

Files: `wrappers.dfy` (Option, Result), `stream_types.dfy` (the SDK value types
the code reads: `URL`, `UploadedMediaItem`, `ActivityAttachment`, `OGResponse`),
`attachment_representable.dfy`, `activity.dfy`, `video_compressor.dfy`,
`table_view.dfy`, `video_compressor_manager.dfy`.

Modelling choices:

- `ActivityObject.swift` is not part of this model. `ActivityObject` is taken to be
  `Text | Image(url) | Repost(activity) | Following(user) | Unknown`. The `following`
  case is the one `PostHeaderTableViewCell.swift` matches on. `Unknown` stands for any
  other case the SDK defines. `imageURL` is the URL of an `Image` object and `nil` for
  every other case.
- A keyed coding container is a map from key strings to encoded values.
  `decodeIfPresent` gives `nil` for a missing key or an explicit null. A value of
  the wrong kind throws `typeMismatch`.
- `Float`, `Double` and `CGFloat` are exact reals. Swift's `Int(x)` is truncation
  toward zero (`Trunc`).
- A table data source is an optional section count and a total function from a
  section index to a row count. The source can query section -1 when there are
  zero sections, which a sequence could not represent. `scrollToBottom` returns
  the index path it would scroll to.
- The file system is a function from a URL to the byte count of a readable file,
  or `None` for an unreadable one. The fresh UUID is the `fileName` parameter. The
  compressor's results are a sequence, and the manager's deliveries are the
  sequence of results handed to `completion`, in order.

## Model

| member | source | states |
|---|---|---|
| `AttachmentRepresentable.OgData` | Sources/Stream-Feed-UIKit-IOS/Models/Protocols/AttachmentRepresentable.swift:21-23 | exactly the attachment's Open Graph data; nil without an attachment |
| `AttachmentRepresentable.ImageItems` | Sources/Stream-Feed-UIKit-IOS/Models/Protocols/AttachmentRepresentable.swift:31-33 | one image item per URL, same length and order, each with that URL and no video or thumbnail |
| `AttachmentRepresentable.ImageItemsRoundTrip` | Sources/Stream-Feed-UIKit-IOS/Models/Protocols/AttachmentRepresentable.swift:31-33 | reading the image URLs back from the built items gives the original URL list |
| `AttachmentRepresentable.AttachmentImageList` | Sources/Stream-Feed-UIKit-IOS/Models/Protocols/AttachmentRepresentable.swift:30 | the attachment's `imageURLs` when the attachment and the list are present, empty otherwise; non-empty exactly when the optional chain yields a non-empty list |
| `AttachmentRepresentable.AttachmentImageURLs` | Sources/Stream-Feed-UIKit-IOS/Models/Protocols/AttachmentRepresentable.swift:26-45 | video timelines with media: the whole list (first item included) when it has 2 or more items, nil for exactly 1; otherwise the attachment images as image items in order, preceded by `firstImageURL` when given (length +1); nil exactly when neither branch applies; never an empty list |
| `Activities.Original` | Sources/Stream-Feed-UIKit-IOS/Models/Activity.swift:31-38 | the embedded activity for a repost, the activity itself for any other object; the result is a repost only if the input was |
| `Activities.CodingKey.StringValue` | Sources/Stream-Feed-UIKit-IOS/Models/Activity.swift:19-24 | every coding key is one of the four own keys, and none is "attachment" |
| `Activities.Encode` | Sources/Stream-Feed-UIKit-IOS/Models/Activity.swift:63-70 | writes only the four own keys, each exactly when its field is present, the attachment under "attachments" and never "attachment", and no nulls |
| `Activities.Decode` | Sources/Stream-Feed-UIKit-IOS/Models/Activity.swift:54-61 | a field is absent exactly when its key is missing or null; decoding throws exactly when some own key holds a value that is neither null nor of the expected kind, and the error names such a key |
| `Activities.DecodeEncode` | Sources/Stream-Feed-UIKit-IOS/Models/Activity.swift:54-70 | decoding the encoding gives back the same text, attachment, petId and media, absent fields staying absent |
| `Activities.EncodeDecode` | Sources/Stream-Feed-UIKit-IOS/Models/Activity.swift:54-70 | re-encoding a decoded container writes back exactly its own non-null entries |
| `Activities.ValidMediaItems` | Sources/Stream-Feed-UIKit-IOS/Models/Activity.swift:83-88 | the media list when present and non-empty, nil otherwise |
| `Activities.CreateObjectMediaItem` | Sources/Stream-Feed-UIKit-IOS/Models/Activity.swift:90-95 | an image item for the object's image URL exactly when the object is an image |
| `Activities.AppendAttachedMediaItems` | Sources/Stream-Feed-UIKit-IOS/Models/Activity.swift:97-105 | the object item followed by the attachment images as items in order; just the object item when there are no attachment images |
| `Activities.MappedMediaItems` | Sources/Stream-Feed-UIKit-IOS/Models/Activity.swift:73-81 | media unchanged with video timelines and non-empty media; otherwise element 0 is the object's image item and the rest the attachment images; nil exactly when media is unusable and the object has no image; never empty |
| `Activities.EmptyMediaIsMissing` | Sources/Stream-Feed-UIKit-IOS/Models/Activity.swift:73-88 | an empty media list gives the same result as a missing one |
| `Activities.MediaIgnoredWithoutTimelineVideo` | Sources/Stream-Feed-UIKit-IOS/Models/Activity.swift:73-76 | with video timelines off the media field does not affect the result |
| `Activities.HeaderAndGalleryAgree` | Sources/Stream-Feed-UIKit-IOS/Models/Activity.swift:73-105 | without usable media: for an image post with attachment images, the header list equals the gallery built with the object image as first URL; for an image post without them the gallery is nil and the header is the object image alone; for a non-image post with them the header is nil and the gallery holds just the attachment images. With video timelines and 2 or more media items both are the media list; with exactly 1 the gallery is nil and the header is the media list |
| `VideoCompression.Trunc` | Sources/Stream-Feed-UIKit-IOS/Helpers/VideoCompressor.swift:245 | `Int(x)` is the integer next to x toward zero |
| `VideoCompression.SnapTo16` | Sources/Stream-Feed-UIKit-IOS/Helpers/VideoCompressor.swift:253 | `Int(x / 16) * 16` is a multiple of 16, and for x ≥ 0 it is the largest one not above x |
| `VideoCompression.GenerateWidthAndHeight` | Sources/Stream-Feed-UIKit-IOS/Helpers/VideoCompressor.swift:238-273 | kept resolution: the truncated input; otherwise both sides multiples of 16; a side ≥ 1920 halves (≤ half the input), ≥ 1280 takes three quarters, ≥ 960 gives 608×336 for landscape and 336×608 otherwise (square included), smaller sizes take nine tenths (≤ the input) |
| `VideoCompression.FixedTierSize` | Sources/Stream-Feed-UIKit-IOS/Helpers/VideoCompressor.swift:259-266 | 95% of 640 and 360 snapped to 16 are 608 and 336 |
| `VideoCompression.GetBitrate` | Sources/Stream-Feed-UIKit-IOS/Helpers/VideoCompressor.swift:233-236 | `Int(bitrate × (percentage / 100))`: the scaled bitrate truncated toward zero, for either sign of the product |
| `VideoCompression.VideoBitrate` | Sources/Stream-Feed-UIKit-IOS/Helpers/VideoCompressor.swift:72-75 | `GetBitrate` of the estimated data rate when it is at most 2,000,000, and of 2,000,000 when it is at least that |
| `VideoCompression.GetBitrateBounds` | Sources/Stream-Feed-UIKit-IOS/Helpers/VideoCompressor.swift:233-236 | for non-negative inputs, the integer part of bitrate × percentage / 100 |
| `VideoCompression.VideoBitrateBounds` | Sources/Stream-Feed-UIKit-IOS/Helpers/VideoCompressor.swift:72-75 | for a percentage in [0, 100] and a non-negative rate, the new bitrate is in [0, 2,000,000] and at most the data rate |
| `VideoCompression.VideoBitrateMonotonic` | Sources/Stream-Feed-UIKit-IOS/Helpers/VideoCompressor.swift:72-75 | a higher percentage never yields a lower bitrate |
| `VideoCompression.VideoBitrateCapped` | Sources/Stream-Feed-UIKit-IOS/Helpers/VideoCompressor.swift:73 | every rate at or above the 2,000,000 cap gives the bitrate of the cap |
| `VideoCompression.CombinedProgress` | Sources/Stream-Feed-UIKit-IOS/Helpers/VideoCompressor.swift:66 | equals the video progress while audio is 0; the midpoint of both, between them, once audio > 0; in [0, 1] when both inputs are |
| `VideoCompression.VideoCompressor.constructor` | Sources/Stream-Feed-UIKit-IOS/Helpers/VideoCompressor.swift:44-47 | a new compressor starts with both progress values and the combined progress at 0 |
| `VideoCompression.VideoCompressor.SendVideoProgress` | Sources/Stream-Feed-UIKit-IOS/Helpers/VideoCompressor.swift:226 | sets the video progress only; the combined progress follows |
| `VideoCompression.VideoCompressor.SendAudioProgress` | Sources/Stream-Feed-UIKit-IOS/Helpers/VideoCompressor.swift:197 | sets the audio progress only; the combined progress follows |
| `TableViewExtensions.ScrollToBottom` | Sources/Stream-Feed-UIKit-IOS/Extensions/UIKit/UITableView+Extensions.swift:27-37 | no target without a data source; a target exactly when some section in range has a row (a missing section count meaning 1); the target is the last row of the highest non-empty section, every later section having no rows |
| `TableViewExtensions.PostCellFor` | Sources/Stream-Feed-UIKit-IOS/Extensions/UIKit/UITableView+Extensions.swift:48-82 | nil without a cell type; for attachment images nil exactly when there are ≤ 1 items, else the cell shows all but the first and the tap callback gets the full list; the other cell types map one to one |
| `StreamTypes.Url.AppendingPathComponent` | Sources/Stream-Feed-UIKit-IOS/Helpers/VideoCompressorManager.swift:25 | the directory URL, then exactly one `/` (the directory's own trailing one or one added), then the component |
| `VideoCompressorManagement.SelectedVideoURL` | Sources/Stream-Feed-UIKit-IOS/Helpers/VideoCompressorManager.swift:22-34 | the compressed URL exactly when its whole-MiB size is strictly below the original's, else the original URL |
| `VideoCompressorManagement.CompressedChosenOnlyWhenSmaller` | Sources/Stream-Feed-UIKit-IOS/Helpers/VideoCompressorManager.swift:22-34 | choosing the compressed file implies it is below the original's last whole-MiB boundary |
| `VideoCompressorManagement.WholeMiBSavingSelectsCompressed` | Sources/Stream-Feed-UIKit-IOS/Helpers/VideoCompressorManager.swift:22-34 | a saving of at least one MiB always selects the compressed file |
| `VideoCompressorManagement.SameMiBKeepsOriginal` | Sources/Stream-Feed-UIKit-IOS/Helpers/VideoCompressorManager.swift:22-34 | a saving within the same whole-MiB count keeps the original |
| `VideoCompressorManagement.Forward` | Sources/Stream-Feed-UIKit-IOS/Helpers/VideoCompressorManager.swift:27-50 | start, failure and cancel are forwarded as the same case and payload; a success is forwarded with the selected URL, or dropped when the compressed output cannot be read |
| `VideoCompressorManagement.Forwarded` | Sources/Stream-Feed-UIKit-IOS/Helpers/VideoCompressorManager.swift:26-51 | one delivery per result, each `Forward` of that result, when every success's output is readable; never more deliveries than results; without successes the results pass through unchanged; a delivered success names the compressed or the original URL; a single result gives exactly its `Forward` |
| `VideoCompressorManagement.ForwardedConcat` | Sources/Stream-Feed-UIKit-IOS/Helpers/VideoCompressorManager.swift:26-51 | results are handled one at a time and in order: the deliveries for two runs of results are concatenated |
| `VideoCompressorManagement.UnreadableOutputNoSuccess` | Sources/Stream-Feed-UIKit-IOS/Helpers/VideoCompressorManager.swift:29-32 | when no compressed output can be read, no success is ever delivered |
| `VideoCompressorManagement.VideoCompressorManager.constructor` | Sources/Stream-Feed-UIKit-IOS/Helpers/VideoCompressorManager.swift:15 | the manager starts with a compressor at zero progress |
| `VideoCompressorManagement.VideoCompressorManager.CompressVideoURL` | Sources/Stream-Feed-UIKit-IOS/Helpers/VideoCompressorManager.swift:17-55 | a fresh compressor replaces the old one; an unreadable source delivers nothing; a missing document directory delivers only `.onCancelled`; otherwise the forwarded results for `<documents>/<uuid>.mov` |

## Left out

- The AVFoundation pipeline in `compressFile` is not modelled. This covers the reader and writer, the two media-request loops on their dispatch queues, cancellation and the finish handshake. It is framework code and cross-queue concurrency. The manager takes the compressor's results as an input sequence.
- Combine plumbing (`CombineLatest`, `sink`, the subscription bag) is not modelled. Only its formula and the latest values it combines are kept.
- Floating-point rounding is not modelled. `GenerateWidthAndHeight`, `GetBitrate`, `VideoBitrate` and `CombinedProgress` use exact reals. `Int(x)` traps on NaN, infinities and out-of-range values, and the model has none of those.
- The keys and fields coded by the SDK's `EnrichedActivity` base class (`super.init(from:)`, `super.encode(to:)`) are not modelled. Neither are `Activity`'s two memberwise initialisers. They pass `actor`, `verb`, `object` and `feedIds` to the base class. The required one also takes `foreignId`, `time` and `originFeedId` and discards them without storing them.
- `Activities.Encode` and `Activities.Decode` model the container as a key-to-value map. JSON text and the SDK's own `ActivityAttachment`/`UploadedMediaItem` coding are not modelled.
- `StreamTypes.Url.AppendingPathComponent` approximates `URL.appendingPathComponent` by string concatenation with one separating slash. Percent-encoding and file-URL normalisation are not modelled.
- `registerCells`, cell dequeueing and cell configuration are UIKit calls. Only the decisions of `postCell` are modelled. The header cell's activity and the actions cell's content are not carried. The gallery cell dequeued before the one-item guard, and then dropped, is not modelled.
- `scrollToRow(at:at:animated:)` is a UIKit call. `ScrollToBottom` returns the index path instead. The `animated` flag plays no part.
- File reads, `FileManager`, UUID generation and `DispatchQueue.main.async` hops in the manager are I/O and threading. They become the `files`, `documentDirectory` and `fileName` parameters. Deliveries are in the order the results arrive, because the main queue is serial. The synchronous `.onCancelled` delivery on the error path is not distinguished from the asynchronous ones.
- `UIViewController+Extensions.swift`, `Stream_Feed_UIKit_IOS.swift`, `UIImageView+KingFisher.swift`, `GetStream+NavigationSettings.swift`, `CustomProgressAlertView.swift` and `Package.swift` are UIKit plumbing, SDK wrappers, a third-party image loader and a build manifest. None of them is modelled.
- No shown file implements feed pagination, deduplication, reaction aggregation or comment threading. They belong to the external feed SDK and are not modelled.
- VideoBitrateBounds: the contract does not state that the result is at most the percentage of the capped rate. `GetBitrateBounds` states that bound for the inputs of `getBitrate`.
