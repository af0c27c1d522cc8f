/**
 * What the server and the client agree on over HTTP: the bytes of a payload,
 * the bearer-token form of the Authorization header and the
 * Content-Disposition header a download carries.
 */
module Wire {
  newtype byte = x: int | 0 <= x < 256

  const BearerPrefix: string := "Bearer "

  /** The Authorization header value a client sends and the server expects. */
  function BearerHeader(apiKey: string): (h: string)
    ensures |h| == |BearerPrefix| + |apiKey|
    ensures h[..|BearerPrefix|] == BearerPrefix && h[|BearerPrefix|..] == apiKey
  {
    BearerPrefix + apiKey
  }

  /** Two keys give the same header only if they are the same key. */
  lemma BearerHeaderInjective(a: string, b: string)
    requires BearerHeader(a) == BearerHeader(b)
    ensures a == b
  {
    assert a == BearerHeader(a)[|BearerPrefix|..];
    assert b == BearerHeader(b)[|BearerPrefix|..];
  }

  const FilenameKey: string := "filename="
  const DispositionPrefix: string := "attachment; " + FilenameKey

  /** The Content-Disposition header of a download response. */
  function Disposition(filename: string): (h: string)
    ensures |h| == |DispositionPrefix| + |filename|
    ensures h[..|DispositionPrefix|] == DispositionPrefix && h[|DispositionPrefix|..] == filename
  {
    DispositionPrefix + filename
  }
}
