/**
 * The value types of the feed SDK that the modelled code reads and builds,
 * reduced to the fields it touches.
 */
module StreamTypes {
  import opened Wrappers

  /** A Foundation `URL`, kept as its absolute string. */
  datatype Url = Url(absoluteString: string)
  {
    /**
     * `URL.appendingPathComponent`: one path component is added after a
     * separating slash, unless the URL already ends with one (directory URLs do).
     */
    function AppendingPathComponent(component: string): (r: Url)
      ensures |r.absoluteString| >= |absoluteString| + |component|
      ensures r.absoluteString[..|absoluteString|] == absoluteString
      ensures r.absoluteString[|r.absoluteString| - |component|..] == component
      ensures r.absoluteString == absoluteString + component || r.absoluteString == absoluteString + "/" + component
      ensures |absoluteString| > 0 && absoluteString[|absoluteString| - 1] == '/' ==> r.absoluteString == absoluteString + component
      ensures !(|absoluteString| > 0 && absoluteString[|absoluteString| - 1] == '/') ==>
        r.absoluteString == absoluteString + "/" + component
      ensures |r.absoluteString| > |component| && r.absoluteString[|r.absoluteString| - |component| - 1] == '/'
    {
      if |absoluteString| > 0 && absoluteString[|absoluteString| - 1] == '/'
      then Url(absoluteString + component)
      else Url(absoluteString + "/" + component)
    }
  }

  /** One gallery entry of a post: an uploaded image or video. */
  datatype UploadedMediaItem = UploadedMediaItem(
    mediaType: string,
    imageURL: Option<Url>,
    videoURL: Option<Url>,
    thumbnailURL: Option<Url>)

  /** Open Graph data scraped for a link in a post. */
  datatype OGResponse = OGResponse(title: Option<string>, description: Option<string>, url: Option<Url>)

  /** The attachment of an activity: image URLs and Open Graph data, both optional. */
  datatype ActivityAttachment = ActivityAttachment(imageURLs: Option<seq<Url>>, openGraphData: Option<OGResponse>)
}
