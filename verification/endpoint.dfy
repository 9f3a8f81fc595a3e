/** The server endpoints a client posts to, and the URL path of each
    (the `match` at the start of `send_bulk` in src/client.rs). */
module Endpoint {

  /** The collector's endpoints; the program knows only one. */
  datatype ServerEndpoint = Temperature

  /** A relative reference made of one non-empty path segment: joined onto the
      server address it replaces the last segment and adds no query or fragment.
      Dot segments are excluded (they resolve away), and so is `\`, which URL
      parsing treats like `/` in http URLs. Percent escapes are excluded too, so
      that `%2e` cannot spell a dot, and so are spaces and control characters,
      which URL parsing strips or drops. */
  predicate IsPathSegment(s: string)
  {
    && |s| > 0
    && s != "." && s != ".."
    && forall i :: 0 <= i < |s| ==>
         && s[i] > ' ' && s[i] != '\U{7F}'
         && s[i] != '/' && s[i] != '\\' && s[i] != '?' && s[i] != '#' && s[i] != ':' && s[i] != '%'
  }

  /** The path an endpoint's batches are posted to. */
  function Path(e: ServerEndpoint): (p: string)
    ensures IsPathSegment(p)
    ensures p == "temperature"
  {
    match e
    case Temperature => "temperature"
  }
}
