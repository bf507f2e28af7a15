/**
 * A parsed `net/url.URL`, reduced to the parts the core reads.  Parsing
 * itself (`url.Parse`) is not modelled: wherever the code parses, the model
 * takes a parser as a parameter returning one of these values or a failure.
 */
module Urls {

  datatype Url = Url(
    text: string,         // u.String()
    host: string,         // u.Host, possibly with ":port"
    hostname: string,     // u.Hostname()
    escapedPath: string,  // u.EscapedPath()
    path: string,         // u.Path (unescaped)
    rawQuery: string,     // u.RawQuery
    fragment: string      // u.Fragment
  )

  /** A host name never holds a path separator. */
  predicate WellFormedHost(u: Url)
  {
    '/' !in u.hostname
  }
}
