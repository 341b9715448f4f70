// The part of the WHATWG URL API the repository adapters use: an object with
// an origin and a path, and what `URL.parse` yields for a string it accepts.
// Parsing itself is not modelled: the adapters take `URL.parse` as a parameter.
module Urls {
  /** The part of a WHATWG `URL` object the adapter reads and writes. */
  class Url {
    var origin: string
    var pathname: string

    constructor (origin: string, pathname: string)
      ensures this.origin == origin && this.pathname == pathname
    {
      this.origin := origin;
      this.pathname := pathname;
    }
  }

  /** What `URL.parse` yields for a string it accepts. */
  datatype UrlParts = UrlParts(origin: string, pathname: string)
}
