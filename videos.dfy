/**
 * The persisted list of video records (data/videos.json) and the directory of
 * uploaded media files (public/uploads), shared by the three handlers that
 * issue share links.
 */
module Videos {
  import opened Wrappers

  /**
   * One element of the JSON array in data/videos.json. The handlers write
   * objects of two shapes, so the fields that only one shape has are optional:
   * `None` means the key is absent from the written object.
   */
  datatype VideoRecord = VideoRecord(
    id: string,
    title: string,
    file: Option<string>,
    views: Option<nat>,
    shareLink: Option<string>,
    createdAt: string)

  /** The title every handler gives a new recording. */
  function DefaultTitle(id: string): string
  {
    "Recording " + id
  }

  predicate HasId(videos: seq<VideoRecord>, id: string)
  {
    exists i | 0 <= i < |videos| :: videos[i].id == id
  }

  /** The intended invariant of the collection: no identifier occurs twice. */
  predicate UniqueIds(videos: seq<VideoRecord>)
  {
    forall i, j | 0 <= i < j < |videos| :: videos[i].id != videos[j].id
  }

  /** `videos.find(v => v.id === id)`: the first record carrying `id`, if any. */
  function FindById(videos: seq<VideoRecord>, id: string): (r: Option<VideoRecord>)
    ensures r.Some? <==> HasId(videos, id)
    ensures r.Some? ==> r.value.id == id && r.value in videos
    ensures r.Some? ==> exists i | 0 <= i < |videos| :: videos[i] == r.value && !HasId(videos[..i], id)
  {
    if videos == [] then None
    else if videos[0].id == id then Some(videos[0])
    else
      assert HasId(videos, id) ==> HasId(videos[1..], id) by {
        if HasId(videos, id) {
          var i :| 0 <= i < |videos| && videos[i].id == id;
          assert videos[1..][i - 1].id == id;
        }
      }
      var r := FindById(videos[1..], id);
      assert r.Some? ==> exists i | 0 <= i < |videos| :: videos[i] == r.value && !HasId(videos[..i], id) by {
        if r.Some? {
          var rest := videos[1..];
          var i :| 0 <= i < |rest| && rest[i] == r.value && !HasId(rest[..i], id);
          assert videos[i + 1] == r.value;
          var before := videos[..i + 1];
          forall j | 0 <= j < |before| ensures before[j].id != id {
            if j > 0 { assert before[j] == rest[..i][j - 1]; }
          }
        }
      }
      r
  }

  /**
   * Appending a record whose identifier is fresh keeps identifiers unique, and
   * the new record is what a lookup of its identifier finds.
   */
  lemma AppendFresh(videos: seq<VideoRecord>, r: VideoRecord)
    requires UniqueIds(videos) && !HasId(videos, r.id)
    ensures UniqueIds(videos + [r])
    ensures FindById(videos + [r], r.id) == Some(r)
  {
    var after := videos + [r];
    assert after[|videos|] == r;
  }

  /** Appending never changes which record an identifier already present resolves to. */
  lemma {:induction false} AppendKeepsLookups(videos: seq<VideoRecord>, r: VideoRecord, id: string)
    requires HasId(videos, id)
    ensures FindById(videos + [r], id) == FindById(videos, id)
  {
    if videos[0].id != id {
      assert (videos + [r])[1..] == videos[1..] + [r];
      assert HasId(videos[1..], id) by {
        var i :| 0 <= i < |videos| && videos[i].id == id;
        assert videos[1..][i - 1].id == id;
      }
      AppendKeepsLookups(videos[1..], r, id);
    }
  }

  /** The video list, held as the parsed array of data/videos.json. */
  class VideoList {
    var videos: seq<VideoRecord>

    constructor (initial: seq<VideoRecord>)
      ensures videos == initial
    {
      videos := initial;
    }
  }

  /** The files under public/uploads, by file name. */
  class MediaDir {
    var files: map<string, seq<bv8>>

    constructor (initial: map<string, seq<bv8>>)
      ensures files == initial
    {
      files := initial;
    }
  }
}
