/** The pieces of the JavaScript platform that the handlers call but that
    are not modelled here: the WHATWG URL parser and `decodeURIComponent`.
    They are values of function type handed to the model, so every property
    proved holds for any behaviour of them; where a property needs one of
    their guarantees it says so in a `requires`. */
module Platform {
  import opened Wrappers

  /** The parts of a URL object that the handlers read: `href` (what
      `toString()` returns), `origin`, `protocol` (with its colon),
      `hostname` and `host` (host name with port). */
  datatype Url = Url(href: string, origin: string, protocol: string, hostname: string, host: string)

  datatype Web = Web(
    /** `decodeURIComponent(s)`; `None` where it throws a URIError. */
    decodeComponent: string -> Option<string>,
    /** `new URL(s)`; `None` where it throws. */
    parse: string -> Option<Url>,
    /** `new URL(s, base)`; `None` where it throws. */
    resolve: (string, string) -> Option<Url>)

  /** A byte of a Node.js `Buffer`. */
  type Byte = b: int | 0 <= b < 256

  datatype Buffers = Buffers(
    /** `buffer.toString('utf-8')` */
    utf8Text: seq<Byte> -> string,
    /** `buffer.toString('base64')` */
    base64Text: seq<Byte> -> string,
    /** `Buffer.from(s, 'base64')`, which skips characters outside the
        alphabet instead of throwing. */
    fromBase64: string -> seq<Byte>)

  /** Where a handler runs: as a Vercel function (Express-style request,
      repeated query keys as arrays) or as a Netlify function (event
      object, query values as single strings). */
  datatype Deployment = Vercel | Netlify
}
