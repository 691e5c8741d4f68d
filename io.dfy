/**
 * The I/O calls a route handler makes. Whether each call throws is decided by
 * the environment (missing or unreadable file, malformed JSON, full disk, a
 * provider exception), so the handlers take the set of failing calls as an input.
 */
module Io {

  datatype IoCall =
    | ReadBody        // `request.json()` / `request.formData()`
    | ReadStore       // `fs.readFile` of the JSON table followed by `JSON.parse`
    | WriteStore      // `fs.writeFile` of the serialised JSON table
    | WriteMedia      // `fs.writeFile` of the uploaded bytes under public/uploads
    | ProviderUpload  // `utapi.uploadFiles` throwing instead of returning a result

  /** The calls that throw when the handler reaches them. */
  type Faults = set<IoCall>
}
