/** What one polling tick reads from the outside world, already fetched and
    decoded: the PageZero sample, the two HTTP replies, and the library
    parsers the script calls. */
module Inputs {
  import opened Wrappers

  /** The `monitor/PageZeroSample` dictionary decoded from PageZero.
      A field is None when the key is absent; a PageZero query that
      `queryPageZero` catches yields the empty dictionary, `EmptySample`. */
  datatype PageZeroSample = PageZeroSample(
    collectionTimeGMT: Option<string>,
    bmodeTag: Option<string>,
    ioPixel: Option<string>,
    lumiRun: Option<string>,
    runNumber: Option<string>,
    instantLumi: Option<string>)

  /** The `{}` that `queryPageZero` returns on a bad status, undecodable
      content or a missing `monitor/PageZeroSample` element. */
  const EmptySample := PageZeroSample(None, None, None, None, None, None)

  /** The outcome of one `requests.get`: a response with its status code and
      content, or a transport exception. The body is the Python 2 byte string
      `.content`, one character per byte. */
  datatype HttpReply = Response(status: int, body: string) | TransportFailure

  /** `requests.codes.ok`. */
  const HttpOk := 200

  predicate IsOk(reply: HttpReply) {
    reply.Response? && reply.status == HttpOk
  }

  /** The Python exceptions a tick can end with. */
  datatype PyError =
    | KeyError(key: string)          // a PageZero field that is not there
    | ValueError(text: string)       // strptime or float() rejected the text
    | NameError(name: string)        // an undefined variable on an error path
    | RequestException               // requests.get raised

  /** A Python call that returns a value or raises. */
  datatype Result<+T> = Ok(value: T) | Raised(error: PyError)

  /** The library parsers the script relies on, left abstract:
      `datetime.strptime(text, '%Y.%m.%d %H:%M:%S')`, giving a whole number of
      seconds since the epoch, and `float(text)`. None means ValueError. */
  datatype Builtins = Builtins(
    strptime: string -> Option<int>,
    float: string -> Option<real>)

  /** Everything the three queries of one tick return. The run-parameter page
      depends on the run number it is asked for. */
  datatype Feeds = Feeds(
    pageZero: PageZeroSample,
    supervisor: HttpReply,
    runParameters: int -> HttpReply)
}
