/** What the model needs from the WHATWG URL parser. Parsing is not
    re-implemented: every operation that calls `new URL(s)` takes the parser
    as a parameter, and `None` stands for the constructor throwing. */
module Url {
  import opened Common

  /** The components of a parsed URL that the extension reads. */
  datatype UrlInfo = UrlInfo(
    origin: string,
    hostname: string,
    pathname: string,
    search: string,
    hash: string)

  /** `new URL(s)`: `None` when the constructor throws. */
  type Parser = string -> Option<UrlInfo>
}
