/** The controller itself: the bucket-name guard of its constructor, the
    `Get` operation around the assembly step, and `Put`. */
module Controllers {
  import opened Wrappers
  import opened Aws
  import opened HelloS3
  import opened Assembly

  /** The HTTP status a response carries until something sets it. */
  const DefaultStatus := 200

  /** The constructor's check of the configured bucket name: a missing
      (null) or empty name throws, any other name is taken as it is. */
  function BucketNameCheck(configured: Option<string>): (r: Outcome<string, Exception>)
    ensures r.Success? <==> configured.Some? && configured.value != ""
    ensures r.Success? ==> r.value == configured.value
    ensures r.Failure? ==> r.error == MissingBucket()
  {
    if configured.None? || configured.value == "" then Failure(MissingBucket())
    else Success(configured.value)
  }

  /** The stream `Put` fills: after writing the payload the position is at its end. */
  function Written(payload: seq<byte>): (s: SeekableStream)
    ensures s.Valid() && s.data == payload && s.Remaining() == []
  {
    SeekableStream(payload, |payload|)
  }

  /** The request `Put` sends: its bucket, the fresh key and the payload stream
      rewound to position 0, so that the store reads the whole payload. */
  function ShapePutRequest(bucketName: string, key: string, payload: seq<byte>): (req: PutRequest)
    ensures req.bucketName == bucketName && req.key == key
    ensures req.inputStream.Valid() && req.inputStream.Remaining() == payload
  {
    PutRequest(bucketName, key, Written(payload).(position := 0))
  }

  /** How `Get` ends: it returns an envelope, or an exception escapes it. */
  datatype GetReturn = Returned(result: GetResult) | Threw(error: Exception)

  /** The proxy controller. Its response is reduced to the status code and
      the text written to the body. */
  class S3ProxyController {
    const bucketName: string
    var statusCode: int
    var responseBody: string

    /** The constructor once the bucket name has passed `BucketNameCheck`. */
    constructor (name: string)
      requires BucketNameCheck(Some(name)).Success?
      ensures bucketName == name && statusCode == DefaultStatus && responseBody == ""
    {
      bucketName := name;
      statusCode := DefaultStatus;
      responseBody := "";
    }

    /** `Get`. The listing is taken before the try block, so its failure escapes.
        `store` gives the store's answer to a fetch of each key of the bucket.
        The ghost `o` is how the try block ended. */
    method Get(listing: ListResponse, store: string -> FetchResponse) returns (r: GetReturn, ghost o: TryOutcome)
      modifies this`statusCode
      ensures listing.ListFailed? ==> r == Threw(listing.error) && statusCode == old(statusCode)
      ensures listing.Listed? ==>
        && TryBlockSpec(listing.keys, store, o)
        && r == Returned(Catch(o))
        && statusCode == StatusAfter(o, old(statusCode))
    {
      if listing.ListFailed? {
        return Threw(listing.error), Raised(listing.error);
      }
      var outcome := Assemble(listing.keys, store);
      o := outcome;
      if outcome.Raised? && outcome.error.AmazonS3Exception? {
        statusCode := outcome.error.status;
      }
      r := Returned(Catch(outcome));
    }

    /** `Put`: stores `encode(message)` under `freshKey`. A store exception sets
        the status to its code and writes its message to the body; any other
        exception escapes. `store` gives the store's answer to a request. */
    method Put(message: string, freshKey: string, encode: string -> seq<byte>, store: PutRequest -> PutResponse)
      returns (thrown: Option<Exception>, ghost request: PutRequest)
      modifies this`statusCode, this`responseBody
      ensures request == ShapePutRequest(bucketName, freshKey, encode(message))
      ensures store(request).Stored? ==>
        thrown == None && statusCode == old(statusCode) && responseBody == old(responseBody)
      ensures store(request).PutFailed? && store(request).error.AmazonS3Exception? ==>
        && thrown == None
        && statusCode == store(request).error.status
        && responseBody == old(responseBody) + store(request).error.message
      ensures store(request).PutFailed? && !store(request).error.AmazonS3Exception? ==>
        thrown == Some(store(request).error) && statusCode == old(statusCode) && responseBody == old(responseBody)
    {
      var req := ShapePutRequest(bucketName, freshKey, encode(message));
      request := req;
      var response := store(req);
      thrown := None;
      if response.PutFailed? {
        var e := response.error;
        if e.AmazonS3Exception? {
          statusCode := e.status;
          responseBody := responseBody + e.message;
        } else {
          thrown := Some(e);
        }
      }
    }
  }

  /** Constructing the controller from its configuration: a missing or empty
      bucket name throws, otherwise the name is stored. */
  method Create(configured: Option<string>) returns (r: Outcome<S3ProxyController, Exception>)
    ensures BucketNameCheck(configured).Failure? ==> r == Failure(MissingBucket())
    ensures BucketNameCheck(configured).Success? ==>
      && r.Success? && fresh(r.value)
      && r.value.bucketName == configured.value
      && r.value.statusCode == DefaultStatus && r.value.responseBody == ""
  {
    var checked := BucketNameCheck(configured);
    if checked.Failure? {
      return Failure(checked.error);
    }
    var controller := new S3ProxyController(checked.value);
    r := Success(controller);
  }
}
