/**
 * POST /api/trim-upload: hand the (trimmed) recording to the storage
 * provider and record the provider's public URL in the video list.
 */
module TrimUpload {
  import opened Io
  import opened Http
  import opened Wrappers
  import opened Videos

  const NoVideo: string := "No video file provided"
  const ProviderFailed: string := "Upload to UploadThing failed"
  const TrimFailed: string := "Trim upload failed"

  /**
   * `video` is the multipart field; `providerUrl` is the `ufsUrl` of the
   * provider's returned `data`, or `None` when the result carries no data
   * (a throwing provider call is `ProviderUpload` in `faults`); `id` is the
   * generated identifier and `now` the creation timestamp.
   */
  method Post(store: VideoList, video: FormField, providerUrl: Option<string>, id: string, now: string, faults: Faults)
    returns (resp: Response)
    modifies store
    ensures ReadBody in faults ==> resp == ServerError(TrimFailed) && store.videos == old(store.videos)
    ensures ReadBody !in faults && MissingFile(video) ==>
      resp == BadRequest(NoVideo) && store.videos == old(store.videos)
    ensures ReadBody !in faults && !MissingFile(video) && ProviderUpload in faults ==>
      resp == ServerError(TrimFailed) && store.videos == old(store.videos)
    // the list is never read on this path, so its own faults cannot matter
    ensures ReadBody !in faults && !MissingFile(video) && ProviderUpload !in faults && providerUrl == None ==>
      resp == ServerError(ProviderFailed) && store.videos == old(store.videos)
    ensures ReadBody !in faults && !MissingFile(video) && ProviderUpload !in faults && providerUrl != None &&
            (ReadStore in faults || WriteStore in faults) ==>
      resp == ServerError(TrimFailed) && store.videos == old(store.videos)
    ensures ReadBody !in faults && !MissingFile(video) && ProviderUpload !in faults && providerUrl != None &&
            ReadStore !in faults && WriteStore !in faults ==>
      resp == Ok(ShareLink(ShareLinkFor(id))) &&
      store.videos == old(store.videos) + [VideoRecord(id, DefaultTitle(id), providerUrl, Some(0), None, now)]
    ensures resp.status == 200 && UniqueIds(old(store.videos)) && !HasId(old(store.videos), id) ==>
      UniqueIds(store.videos) && FindById(store.videos, id) == Some(store.videos[|store.videos| - 1])
  {
    if ReadBody in faults {
      return ServerError(TrimFailed);
    }
    if MissingFile(video) {
      return BadRequest(NoVideo);
    }
    if ProviderUpload in faults {
      return ServerError(TrimFailed);
    }
    if providerUrl == None {
      return ServerError(ProviderFailed);
    }
    var videoUrl := providerUrl.value;
    if ReadStore in faults {
      return ServerError(TrimFailed);
    }
    var videos := store.videos;
    var entry := VideoRecord(id, DefaultTitle(id), Some(videoUrl), Some(0), None, now);
    videos := videos + [entry];
    if WriteStore in faults {
      return ServerError(TrimFailed);
    }
    if UniqueIds(store.videos) && !HasId(store.videos, id) {
      AppendFresh(store.videos, entry);
    }
    store.videos := videos;
    return Ok(ShareLink(ShareLinkFor(id)));
  }
}
