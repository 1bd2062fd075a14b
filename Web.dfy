/**
 * The outside world the crawler talks to, as values.  `requests.get` with a
 * timeout either raises a `RequestException` (connection failure, timeout) or
 * yields a response; `raise_for_status` fails exactly when the status is not
 * a success.  What BeautifulSoup parses from `response.text` and what PIL
 * decodes from `response.content` are parts of the response, and
 * `urljoin` is a function of the page URL and the reference.  Each URL is
 * answered the same way every time it is fetched during one run.  Whether
 * the text folder accepts a file name (`open(path, 'w')` and the write
 * succeed) is part of the same world.
 */
module Web {
  import opened Wrappers
  import opened Dom

  /** What `Image.open(...)` yields when it decodes the bytes: `.size` and `.format`. */
  datatype Picture = Picture(width: int, height: int, format: Option<string>)

  datatype Response = Response(
    statusOk: bool,          // raise_for_status() passes
    contentType: string,     // headers.get('Content-Type', '')
    document: Node,          // BeautifulSoup(response.text, 'html.parser')
    picture: Option<Picture> // Image.open(BytesIO(response.content)), None when it raises
  )

  datatype Web = Web(
    join: (string, string) -> string,   // urljoin(base, reference)
    fetch: string -> Option<Response>,  // requests.get(url, ...); None when it raises
    canWrite: string -> bool            // writing that file name into the text folder succeeds
  )

  /** `requests.get(u)` followed by `raise_for_status()`: the response, or None when either raises. */
  function CheckedFetch(web: Web, u: string): (r: Option<Response>)
    ensures r.Some? <==> web.fetch(u).Some? && web.fetch(u).value.statusOk
    ensures r.Some? ==> r == web.fetch(u)
  {
    match web.fetch(u)
    case None => None
    case Some(resp) => if resp.statusOk then Some(resp) else None
  }
}
