/** The Lambda side of the handlers: the incoming event as an already-parsed record, the
    response record, the response bodies both files produce, and the values the handlers
    take from the clock and from `uuid4()`, which here are parameters. */
module Http {
  import opened Prelude
  import opened Codec
  import opened Storage

  /** The `rating` field of a request, by JSON type. Python's `bool` is an `int`. */
  datatype RatingField = RAbsent | RNull | RBool(b: bool) | RInt(n: int) | RText(s: string)

  /** The parsed JSON body. A field given as JSON `null` and an absent field are both
      `None`, because every handler reads them with `data.get`. `data` is the decoded
      image, empty when absent; `pictures` is empty when absent. */
  datatype Payload = Payload(
    name: Option<string>,
    data: seq<byte>,
    pictures: seq<string>,
    picture: Option<string>,
    author: Option<string>,
    text: Option<string>,
    rating: RatingField)

  /** The event body: missing or empty, not JSON (so `json.loads` raises), or parsed. */
  datatype RequestBody = NoBody | Unparseable | Json(payload: Payload)

  datatype Event = Event(rawPath: Option<string>, httpMethod: Option<string>, body: RequestBody) {
    /** `event.get('rawPath', '/')`. */
    function Path(): string {
      rawPath.GetOr("/")
    }

    /** `event['requestContext']['http']['method']`, `'GET'` when absent. */
    function Method(): string {
      httpMethod.GetOr("GET")
    }
  }

  /** What one request reads from the clock and from `uuid4().hex[:8]`. */
  datatype Env = Env(
    now: int,          // the LastModified time a new object gets
    isoNow: string,    // `datetime.now().isoformat()`
    stamp: string,     // `datetime.now().strftime('%Y%m%d_%H%M%S')`
    day: string,       // `datetime.now().strftime('%Y%m%d')`
    nameHex: string,   // the uuid suffix of a default picture name
    keyHex: string)    // the uuid suffix of a new storage key

  /** Python truthiness of an optional string field: present and non-empty. */
  predicate Given(s: Option<string>) {
    s.Some? && s.value != ""
  }

  /** One picture of a listing. `size` is reported by backend_lambda.py only. */
  datatype Picture = Picture(name: string, date: int, size: Option<nat>, rating: int, comments: seq<Comment>)

  datatype AssetKind = Html | Css | Js

  /** Response bodies. Every JSON object the handlers return has its own variant;
      `Deleted.notFound` and `Deleted.errors` are empty where the source leaves the
      key out. */
  datatype Body =
    | Empty
    | Asset(kind: AssetKind)
    | Error(message: string)
    | PictureList(pictures: seq<Picture>, count: nat)
    | PictureArray(items: seq<Picture>)
    | StorageStats(totalPictures: nat, totalStorage: nat)
    | GalleryStats(totalPictures: nat, totalSize: nat, ratingSum: int, ratedPictures: nat,
                   totalComments: nat, mostRecentUpload: Option<int>)
    | Uploaded(message: string, key: Key, originalName: string)
    | DeleteMiss(message: string, notFound: seq<string>)
    | Deleted(deletedCount: nat, requestedCount: nat, notFound: seq<string>, errors: seq<Key>)
    | DeletedCount(message: string, deletedCount: nat)
    | RateSuccess(picture: string, rating: RatingField)
    | RateSaved(message: string, picture: string, rating: RatingField)
    | Commented(message: string, comment: Comment)
    | Archive(entries: seq<(string, seq<byte>)>)

  datatype Response = Response(status: int, headers: map<string, string>, body: Body)

  /** A handler's result: the response and the store afterwards. */
  datatype Outcome = Outcome(response: Response, bucket: Bucket)

  /** `get_cors_headers()`; the two files differ only in the allowed methods. */
  function CorsHeaders(allowMethods: string): (h: map<string, string>)
    ensures "Content-Type" in h && h["Content-Type"] == "application/json"
    ensures "Access-Control-Allow-Origin" in h && h["Access-Control-Allow-Origin"] == "*"
    ensures "Access-Control-Allow-Methods" in h && h["Access-Control-Allow-Methods"] == allowMethods
    ensures "Access-Control-Allow-Headers" in h && h["Access-Control-Allow-Headers"] == "Content-Type, Authorization"
    ensures h.Keys == {"Content-Type", "Access-Control-Allow-Origin", "Access-Control-Allow-Methods",
                       "Access-Control-Allow-Headers"}
  {
    map["Content-Type" := "application/json",
        "Access-Control-Allow-Origin" := "*",
        "Access-Control-Allow-Methods" := allowMethods,
        "Access-Control-Allow-Headers" := "Content-Type, Authorization"]
  }

  /** The headers of a ZIP download: the CORS headers with the JSON content type replaced
      and an attachment name carrying the day. */
  function ZipHeaders(allowMethods: string, day: string): (h: map<string, string>)
    ensures "Content-Type" in h && h["Content-Type"] == "application/zip"
    ensures "Content-Disposition" in h && h["Content-Disposition"] == "attachment; filename=\"photos_" + day + ".zip\""
    ensures "Access-Control-Allow-Origin" in h && h["Access-Control-Allow-Origin"] == "*"
    ensures "Access-Control-Allow-Methods" in h && h["Access-Control-Allow-Methods"] == allowMethods
    ensures "Access-Control-Allow-Headers" in h && h["Access-Control-Allow-Headers"] == "Content-Type, Authorization"
    ensures h.Keys == {"Content-Type", "Content-Disposition", "Access-Control-Allow-Origin",
                       "Access-Control-Allow-Methods", "Access-Control-Allow-Headers"}
  {
    CorsHeaders(allowMethods)["Content-Type" := "application/zip"]
      ["Content-Disposition" := "attachment; filename=\"photos_" + day + ".zip\""]
  }

  /** `str(rating)` for a rating that passed validation. */
  function RatingText(r: RatingField): string
    requires r.RInt? || r.RBool?
  {
    match r
    case RInt(n) => IntText(n)
    case RBool(b) => if b then "True" else "False"
  }

  /** A rating within 1 to 5 as Python compares it: `True` is the integer 1 and `False` 0. */
  predicate ValidRating(r: RatingField) {
    (r.RInt? && 1 <= r.n <= 5) || r == RBool(true)
  }

  /** The API endpoints, the same in both files. */
  datatype Handler = ListHandler | UploadHandler | DeleteHandler | RateHandler
                   | CommentHandler | DownloadHandler | StatsHandler

  /** The API table: path and method to handler. */
  const ApiRoutes: map<(string, string), Handler> :=
    map[("/api/pictures", "GET") := ListHandler,
        ("/api/pictures", "POST") := UploadHandler,
        ("/api/pictures", "DELETE") := DeleteHandler,
        ("/api/pictures/rate", "POST") := RateHandler,
        ("/api/pictures/comment", "POST") := CommentHandler,
        ("/api/pictures/download", "POST") := DownloadHandler,
        ("/api/stats", "GET") := StatsHandler]
}
