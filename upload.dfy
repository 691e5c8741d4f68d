/**
 * POST /api/upload: store the uploaded recording under public/uploads and
 * record it, with its share link, in the video list.
 */
module Upload {
  import opened Io
  import opened Http
  import opened Wrappers
  import opened Videos

  const NoVideo: string := "No video file provided"
  const UploadFailed: string := "Upload failed"

  /** The name the recording is saved under in public/uploads. */
  function StoredName(id: string): string
  {
    id + ".webm"
  }

  /** The public path of a saved recording. */
  function PublicPath(name: string): string
  {
    "/uploads/" + name
  }

  /**
   * `video` is the multipart field, `id` the generated identifier and `now`
   * the creation timestamp. A text field that is not empty passes the
   * missing-file test, and reading its bytes then throws.
   */
  method Post(store: VideoList, media: MediaDir, video: FormField, id: string, now: string, faults: Faults)
    returns (resp: Response)
    modifies store, media
    ensures ReadBody in faults ==>
      resp == ServerError(UploadFailed) && store.videos == old(store.videos) && media.files == old(media.files)
    ensures ReadBody !in faults && MissingFile(video) ==>
      resp == BadRequest(NoVideo) && store.videos == old(store.videos) && media.files == old(media.files)
    ensures ReadBody !in faults && !MissingFile(video) && (!video.FileField? || WriteMedia in faults) ==>
      resp == ServerError(UploadFailed) && store.videos == old(store.videos) && media.files == old(media.files)
    // once the bytes are written they stay written, whatever happens to the list
    ensures ReadBody !in faults && video.FileField? && WriteMedia !in faults ==>
      media.files == old(media.files)[StoredName(id) := video.bytes]
    ensures ReadBody !in faults && video.FileField? && WriteMedia !in faults &&
            (ReadStore in faults || WriteStore in faults) ==>
      resp == ServerError(UploadFailed) && store.videos == old(store.videos)
    ensures ReadBody !in faults && video.FileField? && WriteMedia !in faults &&
            ReadStore !in faults && WriteStore !in faults ==>
      resp == Ok(ShareLink(ShareLinkFor(id))) &&
      store.videos == old(store.videos) +
        [VideoRecord(id, DefaultTitle(id), Some(PublicPath(StoredName(id))), None, Some(ShareLinkFor(id)), now)]
    ensures resp.status == 200 && UniqueIds(old(store.videos)) && !HasId(old(store.videos), id) ==>
      UniqueIds(store.videos) && FindById(store.videos, id) == Some(store.videos[|store.videos| - 1])
  {
    if ReadBody in faults {
      return ServerError(UploadFailed);
    }
    if MissingFile(video) {
      return BadRequest(NoVideo);
    }
    var filename := StoredName(id);
    if !video.FileField? {
      return ServerError(UploadFailed);
    }
    if WriteMedia in faults {
      return ServerError(UploadFailed);
    }
    media.files := media.files[filename := video.bytes];
    if ReadStore in faults {
      return ServerError(UploadFailed);
    }
    var videos := store.videos;
    var entry := VideoRecord(id, DefaultTitle(id), Some(PublicPath(filename)), None, Some(ShareLinkFor(id)), now);
    videos := videos + [entry];
    if WriteStore in faults {
      return ServerError(UploadFailed);
    }
    if UniqueIds(store.videos) && !HasId(store.videos, id) {
      AppendFresh(store.videos, entry);
    }
    store.videos := videos;
    return Ok(ShareLink(ShareLinkFor(id)));
  }
}
