/**
 * `VideoCompressorManager`: compresses a video with a fresh compressor, keeps
 * the compressed file only when it is smaller in whole mebibytes, and forwards
 * the compressor's results to the caller's completion.
 */
module VideoCompressorManagement {
  import opened Wrappers
  import opened StreamTypes
  import opened VideoCompression

  /** `CompressionError`: a titled error. */
  datatype CompressionError = CompressionError(title: string)

  /** `CompressionResult`, as both the compressor and the manager report it. */
  datatype CompressionResult = OnStart | OnSuccess(url: Url) | OnFailure(error: CompressionError) | OnCancelled

  /** The file system as the manager sees it: the byte count of a readable file, `None` when unreadable. */
  type FileSizes = Url -> Option<nat>

  const BytesPerMiB: nat := 1048576

  /**
   * The URL reported on success: the compressed file when its size in whole MiB
   * (`count / 1048576`) is strictly below the original's, the original otherwise.
   */
  function SelectedVideoURL(videoURL: Url, compressedURL: Url, originalBytes: nat, compressedBytes: nat): (r: Url)
    ensures r == compressedURL || r == videoURL
    ensures originalBytes / BytesPerMiB > compressedBytes / BytesPerMiB ==> r == compressedURL
    ensures originalBytes / BytesPerMiB <= compressedBytes / BytesPerMiB ==> r == videoURL
  {
    var originalFileSize := originalBytes / BytesPerMiB;
    var compressedFileSize := compressedBytes / BytesPerMiB;
    if originalFileSize > compressedFileSize then compressedURL else videoURL
  }

  /** The compressed file is only chosen when it really is smaller, by more than its last partial MiB. */
  lemma {:induction false} CompressedChosenOnlyWhenSmaller(videoURL: Url, compressedURL: Url, originalBytes: nat, compressedBytes: nat)
    requires videoURL != compressedURL
    requires SelectedVideoURL(videoURL, compressedURL, originalBytes, compressedBytes) == compressedURL
    ensures compressedBytes < originalBytes
    ensures compressedBytes < BytesPerMiB * (originalBytes / BytesPerMiB)
  {
    var o, c := originalBytes / BytesPerMiB, compressedBytes / BytesPerMiB;
    assert c + 1 <= o;
    assert compressedBytes < BytesPerMiB * (c + 1);
    assert BytesPerMiB * (c + 1) <= BytesPerMiB * o;
    assert BytesPerMiB * o <= originalBytes;
  }

  /** A saving of at least one whole MiB always selects the compressed file. */
  lemma {:induction false} WholeMiBSavingSelectsCompressed(videoURL: Url, compressedURL: Url, originalBytes: nat, compressedBytes: nat)
    requires compressedBytes + BytesPerMiB <= originalBytes
    ensures SelectedVideoURL(videoURL, compressedURL, originalBytes, compressedBytes) == compressedURL
  {
    var c := compressedBytes / BytesPerMiB;
    assert BytesPerMiB * c <= compressedBytes;
    assert BytesPerMiB * (c + 1) <= originalBytes;
  }

  /** A savings that stays within the same MiB keeps the original file. */
  lemma SameMiBKeepsOriginal(videoURL: Url, compressedURL: Url, originalBytes: nat, compressedBytes: nat)
    requires originalBytes / BytesPerMiB == compressedBytes / BytesPerMiB
    ensures SelectedVideoURL(videoURL, compressedURL, originalBytes, compressedBytes) == videoURL
  {
  }

  /**
   * The completion handler handed to the compressor: a success is forwarded with
   * the selected URL, or not at all when the compressed file cannot be read; every
   * other result is forwarded as the same case with the same payload.
   */
  function Forward(result: CompressionResult, files: FileSizes, videoURL: Url, compressedURL: Url, originalBytes: nat)
    : (r: Option<CompressionResult>)
    ensures !result.OnSuccess? ==> r == Some(result)
    ensures result.OnSuccess? ==>
      (r.None? <==> files(result.url).None?)
      && (r.Some? ==> r.value == OnSuccess(SelectedVideoURL(videoURL, compressedURL, originalBytes, files(result.url).value)))
  {
    match result
    case OnSuccess(path) =>
      (match files(path)
       case None => None
       case Some(compressedBytes) => Some(OnSuccess(SelectedVideoURL(videoURL, compressedURL, originalBytes, compressedBytes))))
    case OnStart => Some(OnStart)
    case OnFailure(error) => Some(OnFailure(error))
    case OnCancelled => Some(OnCancelled)
  }

  /** The completions delivered, in order, for the compressor's results. */
  function Forwarded(results: seq<CompressionResult>, files: FileSizes, videoURL: Url, compressedURL: Url, originalBytes: nat)
    : (delivered: seq<CompressionResult>)
    ensures |delivered| <= |results|
    ensures (forall i :: 0 <= i < |results| ==> !results[i].OnSuccess?) ==> delivered == results
    ensures forall i :: 0 <= i < |delivered| && delivered[i].OnSuccess? ==>
      delivered[i].url == compressedURL || delivered[i].url == videoURL
    ensures |results| == 1 ==>
      delivered == (match Forward(results[0], files, videoURL, compressedURL, originalBytes)
                    case Some(r) => [r]
                    case None => [])
    ensures (forall i :: 0 <= i < |results| && results[i].OnSuccess? ==> files(results[i].url).Some?) ==>
      |delivered| == |results| &&
      forall i :: 0 <= i < |results| ==> Forward(results[i], files, videoURL, compressedURL, originalBytes) == Some(delivered[i])
  {
    if results == [] then []
    else
      var rest := Forwarded(results[1..], files, videoURL, compressedURL, originalBytes);
      match Forward(results[0], files, videoURL, compressedURL, originalBytes)
      case Some(r) => [r] + rest
      case None => rest
  }

  /** Results are forwarded one at a time: the deliveries for two runs of results are concatenated. */
  lemma {:induction false} ForwardedConcat(a: seq<CompressionResult>, b: seq<CompressionResult>, files: FileSizes,
                                           videoURL: Url, compressedURL: Url, originalBytes: nat)
    ensures Forwarded(a + b, files, videoURL, compressedURL, originalBytes)
         == Forwarded(a, files, videoURL, compressedURL, originalBytes) + Forwarded(b, files, videoURL, compressedURL, originalBytes)
  {
    if a != [] {
      assert (a + b)[1..] == a[1..] + b;
      ForwardedConcat(a[1..], b, files, videoURL, compressedURL, originalBytes);
    } else {
      assert a + b == b;
    }
  }

  /** When the compressed output cannot be read, no success is ever delivered. */
  lemma {:induction false} UnreadableOutputNoSuccess(results: seq<CompressionResult>, files: FileSizes,
                                                     videoURL: Url, compressedURL: Url, originalBytes: nat)
    requires forall i :: 0 <= i < |results| && results[i].OnSuccess? ==> files(results[i].url).None?
    ensures forall i :: 0 <= i < |Forwarded(results, files, videoURL, compressedURL, originalBytes)| ==>
      !Forwarded(results, files, videoURL, compressedURL, originalBytes)[i].OnSuccess?
  {
    if results != [] {
      UnreadableOutputNoSuccess(results[1..], files, videoURL, compressedURL, originalBytes);
    }
  }

  class VideoCompressorManager {
    var compressor: VideoCompressor

    constructor ()
      ensures compressor.Progress() == 0.0
    {
      compressor := new VideoCompressor();
    }

    /**
     * `compressVideoURL(videoURL:compressionPrecentage:completion:)`. A fresh
     * compressor replaces the previous one; nothing is delivered when the video
     * cannot be read; `.onCancelled` alone when the document directory cannot be
     * located; otherwise the forwarded results of compressing into
     * `<documents>/<fileName>.mov`, where `fileName` stands for the fresh UUID
     * and `results` for what the compressor reports.
     */
    method CompressVideoURL(videoURL: Url, files: FileSizes, documentDirectory: Option<Url>, fileName: string,
                            results: seq<CompressionResult>)
      returns (delivered: seq<CompressionResult>)
      modifies this
      ensures fresh(compressor) && compressor.Progress() == 0.0
      ensures files(videoURL).None? ==> delivered == []
      ensures files(videoURL).Some? && documentDirectory.None? ==> delivered == [OnCancelled]
      ensures files(videoURL).Some? && documentDirectory.Some? ==>
        delivered == Forwarded(results, files, videoURL,
                               documentDirectory.value.AppendingPathComponent(fileName + ".mov"), files(videoURL).value)
    {
      compressor := new VideoCompressor();
      if files(videoURL).None? {
        return [];
      }
      var originalBytes := files(videoURL).value;
      if documentDirectory.None? {
        return [OnCancelled];
      }
      var compressedURL := documentDirectory.value.AppendingPathComponent(fileName + ".mov");
      delivered := Forwarded(results, files, videoURL, compressedURL, originalBytes);
    }
  }
}
