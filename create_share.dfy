/** POST /api/create-share: record an already stored video under a fresh identifier. */
module CreateShare {
  import opened Wrappers
  import opened Io
  import opened Http
  import opened Videos

  const ShareFailed: string := "Failed to create share"

  /**
   * `videoUrl` is the request's field (`None` when the body has no such key,
   * in which case the saved object has no `file` key either); `id` is the
   * generated identifier and `now` the creation timestamp.
   */
  method Post(store: VideoList, videoUrl: Option<string>, id: string, now: string, faults: Faults)
    returns (resp: Response)
    modifies store
    ensures ReadBody in faults || ReadStore in faults || WriteStore in faults ==>
      resp == ServerError(ShareFailed) && store.videos == old(store.videos)
    ensures ReadBody !in faults && ReadStore !in faults && WriteStore !in faults ==>
      resp == Ok(ShareLink(ShareLinkFor(id))) &&
      store.videos == old(store.videos) + [VideoRecord(id, DefaultTitle(id), videoUrl, Some(0), None, now)]
    ensures resp.status == 200 && UniqueIds(old(store.videos)) && !HasId(old(store.videos), id) ==>
      UniqueIds(store.videos) && FindById(store.videos, id) == Some(store.videos[|store.videos| - 1])
  {
    if ReadBody in faults {
      return ServerError(ShareFailed);
    }
    if ReadStore in faults {
      return ServerError(ShareFailed);
    }
    var videos := store.videos;
    var entry := VideoRecord(id, DefaultTitle(id), videoUrl, Some(0), None, now);
    videos := videos + [entry];
    if WriteStore in faults {
      return ServerError(ShareFailed);
    }
    if UniqueIds(store.videos) && !HasId(store.videos, id) {
      AppendFresh(store.videos, entry);
    }
    store.videos := videos;
    return Ok(ShareLink(ShareLinkFor(id)));
  }
}
