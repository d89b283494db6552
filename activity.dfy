/**
 * The `Activity` model class: the repost-unwrapping `original`, the coding of
 * its own four fields, and the media list the post header shows.
 * Fields coded by the feed SDK's `EnrichedActivity` base class are not modelled.
 */
module Activities {
  import opened Wrappers
  import opened StreamTypes
  import opened AttachmentRepresentable

  /**
   * The object of an activity; only an image object carries an image URL.
   * `Unknown` stands for every object case not named here.
   */
  datatype ActivityObject = Text(text: string) | Image(url: Url) | Repost(activity: Activity)
                          | Following(user: string) | Unknown
  {
    function ImageURL(): Option<Url> {
      if Image? then Some(url) else None
    }
  }

  /** A feed post with the four fields this class adds to the SDK's enriched activity. */
  datatype Activity = Activity(
    actor: string,
    verb: string,
    obj: ActivityObject,
    text: Option<string>,
    attachment: Option<ActivityAttachment>,
    petId: Option<string>,
    media: Option<seq<UploadedMediaItem>>)

  /** `original`: the reposted activity for a repost, the activity itself for every other object. */
  function Original(a: Activity): (r: Activity)
    ensures a.obj.Repost? ==> r == a.obj.activity
    ensures !a.obj.Repost? ==> r == a
    ensures r.obj.Repost? ==> a.obj.Repost?
  {
    match a.obj
    case Repost(activity) => activity
    case _ => a
  }

  // ---------------------------------------------------------------------------
  // Coding of the four own fields

  /** `CodingKeys`: the attachment travels under "attachments". */
  datatype CodingKey = TextKey | AttachmentsKey | PetIdKey | MediaKey
  {
    function StringValue(): (k: string)
      ensures k in OwnKeys
      ensures k != "attachment"
    {
      match this
      case TextKey => "text"
      case AttachmentsKey => "attachments"
      case PetIdKey => "petId"
      case MediaKey => "media"
    }
  }

  /** A value stored in a keyed coding container; `Null` is an explicit JSON null. */
  datatype EncodedValue = EString(s: string) | EAttachment(attachment: ActivityAttachment)
                        | EMedia(items: seq<UploadedMediaItem>) | Null

  /** A keyed container, by the keys' string values. */
  type Container = map<string, EncodedValue>

  /** `DecodingError.typeMismatch` for the value under a key. */
  datatype DecodingError = TypeMismatch(key: string)

  /** The four fields `init(from:)` reads. */
  datatype OwnFields = OwnFields(text: Option<string>, attachment: Option<ActivityAttachment>,
                                 petId: Option<string>, media: Option<seq<UploadedMediaItem>>)

  function FieldsOf(a: Activity): OwnFields {
    OwnFields(a.text, a.attachment, a.petId, a.media)
  }

  const OwnKeys: set<string> := {"text", "attachments", "petId", "media"}

  /** `encodeIfPresent` of a string: nothing is written for `nil`. */
  function PutString(c: Container, key: CodingKey, v: Option<string>): Container {
    if v.Some? then c[key.StringValue() := EString(v.value)] else c
  }

  /** `encode(to:)`: each present field under its key, in the source's order; absent fields are not written. */
  function Encode(a: Activity): (c: Container)
    ensures c.Keys <= OwnKeys
    ensures "text" in c <==> a.text.Some?
    ensures "attachments" in c <==> a.attachment.Some?
    ensures "petId" in c <==> a.petId.Some?
    ensures "media" in c <==> a.media.Some?
    ensures "attachment" !in c
    ensures forall k :: k in c ==> !c[k].Null?
  {
    var c0 := PutString(map[], TextKey, a.text);
    var c1 := if a.attachment.Some? then c0[AttachmentsKey.StringValue() := EAttachment(a.attachment.value)] else c0;
    var c2 := PutString(c1, PetIdKey, a.petId);
    if a.media.Some? then c2[MediaKey.StringValue() := EMedia(a.media.value)] else c2
  }

  /** `decodeIfPresent(String.self, forKey:)`: missing or null is `nil`, another kind of value throws. */
  function DecodeString(c: Container, key: CodingKey): Result<Option<string>, DecodingError> {
    var k := key.StringValue();
    if k !in c || c[k].Null? then Success(None)
    else if c[k].EString? then Success(Some(c[k].s))
    else Failure(TypeMismatch(k))
  }

  function DecodeAttachment(c: Container): Result<Option<ActivityAttachment>, DecodingError> {
    var k := AttachmentsKey.StringValue();
    if k !in c || c[k].Null? then Success(None)
    else if c[k].EAttachment? then Success(Some(c[k].attachment))
    else Failure(TypeMismatch(k))
  }

  function DecodeMedia(c: Container): Result<Option<seq<UploadedMediaItem>>, DecodingError> {
    var k := MediaKey.StringValue();
    if k !in c || c[k].Null? then Success(None)
    else if c[k].EMedia? then Success(Some(c[k].items))
    else Failure(TypeMismatch(k))
  }

  /** The kind of value `decodeIfPresent` expects under each of the four keys. */
  predicate RightKind(key: string, v: EncodedValue) {
    if key == "attachments" then v.EAttachment?
    else if key == "media" then v.EMedia?
    else v.EString?
  }

  /** A value under an own key that is neither null nor of the expected kind. */
  predicate Mismatched(c: Container, key: string)
    requires key in c
  {
    !c[key].Null? && !RightKind(key, c[key])
  }

  /**
   * `init(from:)`: the four fields in the source's order; the first field whose
   * value has the wrong kind throws, and keys other than the four are ignored.
   */
  function Decode(c: Container): (r: Result<OwnFields, DecodingError>)
    ensures r.Failure? ==> r.error.key in OwnKeys && r.error.key in c && Mismatched(c, r.error.key)
    ensures r.Failure? <==> exists k :: k in OwnKeys && k in c && Mismatched(c, k)
    ensures r.Success? ==> (r.value.text.None? <==> "text" !in c || c["text"].Null?)
    ensures r.Success? ==> (r.value.attachment.None? <==> "attachments" !in c || c["attachments"].Null?)
    ensures r.Success? ==> (r.value.petId.None? <==> "petId" !in c || c["petId"].Null?)
    ensures r.Success? ==> (r.value.media.None? <==> "media" !in c || c["media"].Null?)
  {
    match DecodeString(c, TextKey)
    case Failure(e) => Failure(e)
    case Success(text) =>
      match DecodeAttachment(c)
      case Failure(e) => Failure(e)
      case Success(attachment) =>
        match DecodeString(c, PetIdKey)
        case Failure(e) => Failure(e)
        case Success(petId) =>
          match DecodeMedia(c)
          case Failure(e) => Failure(e)
          case Success(media) => Success(OwnFields(text, attachment, petId, media))
  }

  /** Decoding what `encode(to:)` wrote gives back the same four fields; absent ones stay absent. */
  lemma DecodeEncode(a: Activity)
    ensures Decode(Encode(a)) == Success(FieldsOf(a))
  {
    var c := Encode(a);
    assert DecodeString(c, TextKey) == Success(a.text);
    assert DecodeAttachment(c) == Success(a.attachment);
    assert DecodeString(c, PetIdKey) == Success(a.petId);
    assert DecodeMedia(c) == Success(a.media);
  }

  /** The entries of a container that decoding keeps: the own keys whose value is not null. */
  function OwnEntries(c: Container): map<string, EncodedValue> {
    map k | k in c && k in OwnKeys && !c[k].Null? :: c[k]
  }

  /**
   * Conversely, re-encoding what was decoded writes back exactly the own,
   * non-null entries of the container: foreign keys and nulls are dropped.
   */
  lemma EncodeDecode(c: Container, a: Activity)
    requires Decode(c).Success? && FieldsOf(a) == Decode(c).value
    ensures Encode(a) == OwnEntries(c)
  {
    var e := Encode(a);
    var o := OwnEntries(c);
    forall k | k in e ensures k in o && e[k] == o[k] {
      assert k in OwnKeys;
    }
    forall k | k in o ensures k in e {
      assert k in OwnKeys;
    }
  }

  // ---------------------------------------------------------------------------
  // Media items of the post header

  /** `validMediaItems()`: the uploaded media, treating an empty list as missing. */
  function ValidMediaItems(media: Option<seq<UploadedMediaItem>>): (r: Option<seq<UploadedMediaItem>>)
    ensures r.Some? <==> HasMedia(media)
    ensures r.Some? ==> r.value == media.value
  {
    if media.Some? && media.value != [] then media else None
  }

  /** `createObjectMediaItem()`: an image item for the object's image URL, if it has one. */
  function CreateObjectMediaItem(obj: ActivityObject): (r: Option<UploadedMediaItem>)
    ensures r.Some? <==> obj.Image?
    ensures r.Some? ==> IsPlainImage(r.value) && r.value.imageURL == obj.ImageURL()
  {
    match obj.ImageURL()
    case Some(url) => Some(ImageItem(url))
    case None => None
  }

  /** `appendAttachedMediaItems(to:)`: the object item, then the attachment images as items in order. */
  function AppendAttachedMediaItems(attachment: Option<ActivityAttachment>, objectMediaItem: UploadedMediaItem)
    : (r: seq<UploadedMediaItem>)
    ensures r == [objectMediaItem] + ImageItems(AttachmentImageList(attachment))
    ensures !HasAttachmentImages(attachment) ==> r == [objectMediaItem]
  {
    if attachment.Some? && attachment.value.imageURLs.Some? && attachment.value.imageURLs.value != [] then
      var mappedMediaItems := ImageItems(attachment.value.imageURLs.value);
      [objectMediaItem] + mappedMediaItems
    else
      [objectMediaItem]
  }

  /**
   * `mappedMediaItems(timelineVideoEnabled:)`: the uploaded media when video
   * timelines are on and it is non-empty; otherwise the object image followed by
   * the attachment images; `nil` when the object has no image either.
   */
  function MappedMediaItems(a: Activity, timelineVideoEnabled: bool): (r: Option<seq<UploadedMediaItem>>)
    ensures timelineVideoEnabled && HasMedia(a.media) ==> r == a.media
    ensures !(timelineVideoEnabled && HasMedia(a.media)) && a.obj.Image? ==>
      && r.Some?
      && |r.value| == 1 + |AttachmentImageList(a.attachment)|
      && r.value[0] == ImageItem(a.obj.url)
      && r.value[1..] == ImageItems(AttachmentImageList(a.attachment))
    ensures r.None? <==> !(timelineVideoEnabled && HasMedia(a.media)) && !a.obj.Image?
    ensures r.Some? ==> r.value != []
  {
    var valid := ValidMediaItems(a.media);
    if valid.Some? && timelineVideoEnabled then valid
    else
      match CreateObjectMediaItem(a.obj)
      case Some(objectMediaItem) => Some(AppendAttachedMediaItems(a.attachment, objectMediaItem))
      case None => None
  }

  /** An empty media list is treated exactly like a missing one. */
  lemma EmptyMediaIsMissing(a: Activity, timelineVideoEnabled: bool)
    ensures MappedMediaItems(a.(media := Some([])), timelineVideoEnabled)
         == MappedMediaItems(a.(media := None), timelineVideoEnabled)
  {
  }

  /** With video timelines off, the uploaded media plays no part at all. */
  lemma MediaIgnoredWithoutTimelineVideo(a: Activity, media: Option<seq<UploadedMediaItem>>)
    ensures MappedMediaItems(a.(media := media), false) == MappedMediaItems(a, false)
  {
  }

  /**
   * The header list and the attachment gallery agree: for a post without usable
   * media, an image object and attachment images, the gallery built with the
   * object image as `firstImageURL` is exactly the header's list; with two or more
   * media items both are the media list; with a single one only the header has it.
   */
  lemma HeaderAndGalleryAgree(a: Activity, timelineVideoEnabled: bool)
    ensures !(timelineVideoEnabled && HasMedia(a.media)) && a.obj.Image? && HasAttachmentImages(a.attachment) ==>
      AttachmentImageURLs(a.attachment, a.media, a.obj.ImageURL(), timelineVideoEnabled)
      == MappedMediaItems(a, timelineVideoEnabled)
    ensures timelineVideoEnabled && HasMedia(a.media) && |a.media.value| >= 2 ==>
      AttachmentImageURLs(a.attachment, a.media, a.obj.ImageURL(), timelineVideoEnabled)
      == MappedMediaItems(a, timelineVideoEnabled) == a.media
    ensures timelineVideoEnabled && HasMedia(a.media) && |a.media.value| == 1 ==>
      AttachmentImageURLs(a.attachment, a.media, a.obj.ImageURL(), timelineVideoEnabled).None?
      && MappedMediaItems(a, timelineVideoEnabled) == a.media
    ensures !(timelineVideoEnabled && HasMedia(a.media)) && a.obj.Image? && !HasAttachmentImages(a.attachment) ==>
      AttachmentImageURLs(a.attachment, a.media, a.obj.ImageURL(), timelineVideoEnabled).None?
      && MappedMediaItems(a, timelineVideoEnabled) == Some([ImageItem(a.obj.url)])
    ensures !(timelineVideoEnabled && HasMedia(a.media)) && !a.obj.Image? && HasAttachmentImages(a.attachment) ==>
      AttachmentImageURLs(a.attachment, a.media, a.obj.ImageURL(), timelineVideoEnabled)
      == Some(ImageItems(AttachmentImageList(a.attachment)))
      && MappedMediaItems(a, timelineVideoEnabled).None?
  {
    if !(timelineVideoEnabled && HasMedia(a.media)) && a.obj.Image? && HasAttachmentImages(a.attachment) {
      var g := AttachmentImageURLs(a.attachment, a.media, a.obj.ImageURL(), timelineVideoEnabled);
      var m := MappedMediaItems(a, timelineVideoEnabled);
      assert g.value == [g.value[0]] + g.value[1..];
      assert m.value == [m.value[0]] + m.value[1..];
    }
  }
}
