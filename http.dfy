/** Responses of the route handlers and the public share path of a video. */
module Http {
  import opened Wrappers

  /** The JSON body a handler answers with. */
  datatype Body =
    | Success                   // { success: true }
    | ShareLink(link: string)   // { shareLink }
    | Error(message: string)    // { error }

  datatype Response = Response(status: nat, body: Body)

  function Ok(body: Body): Response { Response(200, body) }
  function BadRequest(message: string): Response { Response(400, Error(message)) }
  function ServerError(message: string): Response { Response(500, Error(message)) }

  /** What `formData.get('video')` yields: nothing, a text value or a file. */
  datatype FormField = NoField | TextField(text: string) | FileField(bytes: seq<bv8>)

  /** `!file`: true for a missing field and for an empty text value; a file, even an empty one, is truthy. */
  predicate MissingFile(field: FormField)
  {
    field == NoField || field == TextField("")
  }

  const SharePrefix: string := "/share/"

  /** The public path under which the video with identifier `id` is viewed. */
  function ShareLinkFor(id: string): string
  {
    SharePrefix + id
  }

  /** The `[id]` segment that the `/share/[id]` page route reads from a path. */
  function IdOfShareLink(link: string): Option<string>
  {
    if |link| > |SharePrefix| && link[..|SharePrefix|] == SharePrefix && '/' !in link[|SharePrefix|..]
    then Some(link[|SharePrefix|..])
    else None
  }

  /** The share page recovers exactly the identifier a link was issued for, and nothing else. */
  lemma ShareLinkRoundTrip(link: string, id: string)
    ensures IdOfShareLink(link) == Some(id) <==> (link == ShareLinkFor(id) && id != [] && '/' !in id)
  {
  }

  /** Distinct identifiers are issued distinct share links. */
  lemma ShareLinkInjective(a: string, b: string)
    ensures ShareLinkFor(a) == ShareLinkFor(b) ==> a == b
  {
    if ShareLinkFor(a) == ShareLinkFor(b) {
      assert a == ShareLinkFor(a)[|SharePrefix|..];
      assert b == ShareLinkFor(b)[|SharePrefix|..];
    }
  }
}
