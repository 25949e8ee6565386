/** The exceptions the proxy can meet and the answers of the object-store
    client, which is a foreign collaborator and enters the model only through
    these values. */
module Aws {

  type byte = bv8

  /** The full name of an exception class; never empty. */
  type ClassName = s: string | |s| > 0 witness "System.Exception"

  /** The class of the store's exceptions, the one `catch (AmazonS3Exception e)` selects. */
  const StoreExceptionClass := "Amazon.S3.AmazonS3Exception"

  /** The class of the exception a dictionary read of an absent key raises. */
  const KeyNotFoundClass := "System.Collections.Generic.KeyNotFoundException"

  /** The class name of an exception outside the store's class, which
      `OtherException` carries. Classes derived from the store's class are
      not named this way either. */
  type OtherClassName = s: string | |s| > 0 && s != StoreExceptionClass witness "System.Exception"

  /** The exceptions raised inside the proxy's operations. */
  datatype Exception =
    /** An error reported by the store: an HTTP status code and a message. */
    | AmazonS3Exception(status: int, message: string)
    /** Reading a dictionary entry whose key is absent. */
    | KeyNotFoundException(key: string)
    /** `Dictionary.Add` of a key that is already present. */
    | ArgumentException(key: string)
    /** `List.Sort` wraps whatever its comparison throws. */
    | InvalidOperationException(inner: Exception)
    /** Any other exception, with its class name and message; never one of
        the store's exceptions, which are `AmazonS3Exception`. */
    | OtherException(className: OtherClassName, message: string)

  /** The exception raised when the bucket name is not configured. */
  const MissingBucketMessage := "Missing configuration for S3 bucket. The AppS3Bucket configuration must be set to a S3 bucket."

  function MissingBucket(): Exception
  {
    OtherException("System.Exception", MissingBucketMessage)
  }

  /** The class name of an exception. */
  function ClassOf(e: Exception): ClassName
  {
    match e
    case AmazonS3Exception(_, _) => StoreExceptionClass
    case KeyNotFoundException(_) => KeyNotFoundClass
    case ArgumentException(_) => "System.ArgumentException"
    case InvalidOperationException(_) => "System.InvalidOperationException"
    case OtherException(className, _) => className
  }

  /** `e.Message`: the store's or the caller's text, or the runtime's fixed wording. */
  function MessageOf(e: Exception): string
  {
    match e
    case AmazonS3Exception(_, message) => message
    case KeyNotFoundException(key) => "The given key '" + key + "' was not present in the dictionary."
    case ArgumentException(key) => "An item with the same key has already been added. Key: " + key
    case InvalidOperationException(_) => "Failed to compare two elements in the array."
    case OtherException(_, message) => message
  }

  /** The text an exception renders to (`$"{e}"`): its class name, then
      `": "` and its message when the message is not empty, then the text of
      the inner exception. The stack trace is not modelled. */
  function Describe(e: Exception): (text: string)
    ensures |text| > 0
    ensures ClassOf(e) <= text
    ensures !e.InvalidOperationException? ==>
      text == if MessageOf(e) == "" then ClassOf(e) else ClassOf(e) + ": " + MessageOf(e)
  {
    var head := if MessageOf(e) == "" then ClassOf(e) else ClassOf(e) + ": " + MessageOf(e);
    assert ClassOf(e) <= head;
    match e
    case InvalidOperationException(inner) => head + " ---> " + Describe(inner)
    case _ => head
  }

  /** The store's answer to `ListObjectsV2` for the bucket. */
  datatype ListResponse = Listed(keys: seq<string>) | ListFailed(error: Exception)

  /** The store's answer to `GetObject` for one key: the key the response names,
      its last-modified time (an integer timestamp) and its body read as text. */
  datatype FetchResponse =
    | Fetched(key: string, lastModified: int, content: string)
    | FetchFailed(error: Exception)

  /** A seekable in-memory payload: its bytes and the read position. */
  datatype SeekableStream = SeekableStream(data: seq<byte>, position: nat)
  {
    predicate Valid()
    {
      position <= |data|
    }

    /** What a reader of the stream receives, from the current position on. */
    function Remaining(): seq<byte>
      requires Valid()
    {
      data[position..]
    }
  }

  /** The request `PutObject` sends. */
  datatype PutRequest = PutRequest(bucketName: string, key: string, inputStream: SeekableStream)

  /** The store's answer to `PutObject`. */
  datatype PutResponse = Stored(requestId: string) | PutFailed(error: Exception)
}
