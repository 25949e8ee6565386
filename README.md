# HelloS3 S3 proxy — a Dafny model of the controller core

HelloS3 is an ASP.NET Core controller that fronts one S3 bucket. `Get`
lists the bucket, fetches every object, and returns all contents in one
JSON envelope, sorted by last-modified time. `Put` stores its path segment
as a new object under a freshly generated key. This project models the
part of that controller that has logic of its own:

- the constructor's guard on the configured bucket name;
- the assembly step of `Get`. The fetch tasks fill a last-modified
  dictionary and a content dictionary. The listed keys are sorted in place
  by last-modified time with the source's three-way comparison. Each sorted
  key is projected to its content. The two catch arms map a store exception
  to `AwsError` and copy its status code, and map any other exception to
  `Error`;
- the request shaping and error mapping of `Put`;
- the `ResponseCode` enum and the `Result` / `GetResult` envelope with
  their default field values.

Layout, one module per file:

- `wrappers.dfy` (`Wrappers`): `Option` and `Outcome` (success or exception).
- `hello_s3.dfy` (`HelloS3`): `ResponseCode`, `Result`, `GetResult` and their
  defaults, from `Result.cs`.
- `aws.dfy` (`Aws`): the exceptions the controller meets, their text, and the
  answers of the store client (listing, fetch, put). The store client is
  foreign code, so it enters the model only as these values.
- `assembly.dfy` (`Assembly`): the try block of `Get`. The fan-out is a
  sequential loop (`FetchAll`) proved equal to `Gathered`. The sort is an
  in-place insertion sort on an array (`SortByLastModified`) that calls the
  comparison model `Compare`. The projection is a loop (`ProjectContents`).
  `TryBlockSpec` is the specification of the assembled try block and
  `Assemble` is proved against it. `Catch` and `StatusAfter` are the catch arms.
- `controller.dfy` (`Controllers`): the `S3ProxyController` class with the
  bucket name, the response status code and the response body as fields,
  its `Get` and `Put` methods, and `Create`, which runs the constructor's guard.
- `get_properties.dfy` (`GetProperties`): what callers of `Get` can rely on.
  A result is `Ok` with one content per listed key. Its contents are a
  permutation of the fetched contents, in non-decreasing last-modified order.
  An empty listing gives `Ok` with no contents. Each failure maps to its
  error envelope.

Modelling choices:

- The store's answers are parameters. `store: string -> FetchResponse` gives
  the answer to a fetch of each key of the controller's bucket. A
  `ListResponse` is the listing's answer. `PutRequest -> PutResponse` is the
  answer to an upload. A fetch answer carries the key the response names,
  because the source files the response under `getResponse.Key` and not under
  the requested key. A response naming a different key therefore reaches the
  `KeyNotFoundException` path.
- Timestamps are integers with their usual order.
- The tasks run one after another in listing order, and the first one that
  throws decides the outcome. `await Task.WhenAll` rethrows the first faulted
  task's exception in task order, so this matches whenever no two responses
  name the same key.
- `List.Sort` is unstable and the comparison returns 0 for equal timestamps,
  so there is no tie-break and the order among equal times is unspecified.
  `TryBlockSpec` only asks for ascending last-modified times; the insertion
  sort is one admissible order. A list of fewer than two keys is never
  compared. For two or more keys, every key is compared, so a key without a
  time makes the comparison throw. `List.Sort` wraps that exception in `InvalidOperationException`.
  Which missing key is hit first depends on the library's sort, so
  `TryBlockSpec` says only "some listed key without a time".
- The store's exceptions are exactly the `AmazonS3Exception` values: an
  `OtherException` never carries the store's class name, so only the former
  reach the `catch (AmazonS3Exception e)` arm.
- An exception's text (`$"{e}"`) is its class name, then `": "` and its message
  when the message is not empty, followed by the text of its inner exception.
  Stack traces are not modelled (`Aws.Describe`).
- The HTTP response is reduced to two fields: `statusCode`, which starts at
  200, and `responseBody`, the text written to the body.
- The listing call sits before the `try`, so a failed listing is not turned
  into an error envelope: its exception escapes `Get`
  (`S3ProxyController.Get` returns `Threw`).
- Timestamps and contents are kept in two dictionaries keyed by the
  response's key, as the code keeps them, not in one record per object.

## Model

| member | source | states |
|---|---|---|
| `HelloS3.ToInt` | src/HelloS3/Result.cs:9-14 | a code's number lies in 0..2, and it is 0 exactly for `Ok` |
| `HelloS3.FromInt` | src/HelloS3/Result.cs:9-14 | exactly the numbers 0, 1 and 2 name a response code |
| `HelloS3.ResponseCodeNumbering` | src/HelloS3/Result.cs:9-14 | the numbering follows the declaration order, `Ok = 0`, `AwsError = 1`, `Error = 2`, and `FromInt` inverts `ToInt`, so there are exactly these three codes |
| `HelloS3.NewResult` | src/HelloS3/Result.cs:18-29 | a fresh `Result` has code `Ok` and an empty message |
| `HelloS3.NewGetResult` | src/HelloS3/Result.cs:31-34 | a fresh `GetResult` has the `Result` defaults and no contents |
| `HelloS3.OkResult` | src/HelloS3/Controllers/S3ProxyController.cs:92-96 | the success envelope has code `Ok`, holds the given contents, and keeps the default empty message |
| `HelloS3.FailedResult` | src/HelloS3/Controllers/S3ProxyController.cs:101-113 | an error envelope has the given code and text and leaves the contents unset |
| `Aws.Describe` | src/HelloS3/Controllers/S3ProxyController.cs:104 | the text of an exception is never empty and starts with its class name; without an inner exception it is the class name alone when the message is empty, and the class name, `": "` and the message otherwise |
| `Assembly.Record` | src/HelloS3/Controllers/S3ProxyController.cs:68-75 | one fetch task completes exactly when the fetch succeeds and the response's key is in neither dictionary; otherwise it throws the fetch's exception, or an `ArgumentException` for that key |
| `Assembly.Gathered` | src/HelloS3/Controllers/S3ProxyController.cs:63-78 | when every task of the fan-out completes, each dictionary holds exactly one entry per listed key |
| `Assembly.FetchAll` | src/HelloS3/Controllers/S3ProxyController.cs:63-78 | the sequential fan-out loop ends with exactly the dictionaries, or the first exception, that `Gathered` gives for the listing |
| `Assembly.FailureIsFinal` | src/HelloS3/Controllers/S3ProxyController.cs:63-78 | once a task has thrown, the tasks after it do not change the outcome |
| `Assembly.GatheredRecords` | src/HelloS3/Controllers/S3ProxyController.cs:68-75 | after all tasks succeed, both dictionaries have the same keys; every response is recorded under its own key with its own time and content; and every recorded key came from a response |
| `Assembly.GatheredSucceedsIff` | src/HelloS3/Controllers/S3ProxyController.cs:68-75 | the tasks all succeed if and only if every fetch succeeds and no two responses name the same key |
| `Assembly.GatheredFailureCause` | src/HelloS3/Controllers/S3ProxyController.cs:68-75 | a failed fan-out reports either an exception a fetch raised, or an `ArgumentException` whose key two of the responses name |
| `Assembly.Compare` | src/HelloS3/Controllers/S3ProxyController.cs:81-85 | the comparison returns -1, 0 or 1 exactly when the left time is less than, equal to or greater than the right time; it throws `KeyNotFoundException` exactly when a key has no time, naming the left key first |
| `Assembly.SortedKeysHaveDates` | src/HelloS3/Controllers/S3ProxyController.cs:81-85 | a sorted list of two or more keys has a time for every key |
| `Assembly.SortByLastModified` | src/HelloS3/Controllers/S3ProxyController.cs:81-85 | the in-place sort permutes the list; when it succeeds the times are non-decreasing along it; a list of fewer than two keys is left as it is; for two or more keys a key without a time aborts it with `InvalidOperationException` wrapping the `KeyNotFoundException` |
| `Assembly.ProjectContents` | src/HelloS3/Controllers/S3ProxyController.cs:87-91 | the projection loop succeeds exactly when every key has a content, and then yields each key's content in list order; otherwise it throws `KeyNotFoundException` for the first key without one |
| `Assembly.Assemble` | src/HelloS3/Controllers/S3ProxyController.cs:52-97 | the try block ends as `TryBlockSpec` allows: the first task exception, or a missing-time exception from the sort, or a missing-content exception from the projection, or the sorted keys and their contents |
| `Assembly.StatusAfter` | src/HelloS3/Controllers/S3ProxyController.cs:98-100 | a store exception sets the status to its status code; every other outcome leaves the status unchanged |
| `Assembly.Catch` | src/HelloS3/Controllers/S3ProxyController.cs:92-113 | the envelope is `Ok` with the contents exactly when the try block completed; it is `AwsError` exactly for a store exception and `Error` exactly for any other exception, each with the exception's text and no contents; its message is empty exactly when it is `Ok` |
| `Controllers.BucketNameCheck` | src/HelloS3/Controllers/S3ProxyController.cs:34-39 | a missing or empty bucket name throws the missing-configuration exception; any other name is accepted unchanged |
| `Controllers.S3ProxyController.constructor` | src/HelloS3/Controllers/S3ProxyController.cs:29-42 | a controller stores the checked bucket name, with the default status and an empty body |
| `Controllers.Create` | src/HelloS3/Controllers/S3ProxyController.cs:29-42 | constructing from configuration fails exactly when the guard rejects the name, and otherwise yields a new controller holding that name |
| `Controllers.Written` | src/HelloS3/Controllers/S3ProxyController.cs:123-124 | after the payload is written the stream holds it, with nothing left to read |
| `Controllers.ShapePutRequest` | src/HelloS3/Controllers/S3ProxyController.cs:121-132 | the upload request names the bucket and the fresh key, and, the stream having been rewound to 0, a reader of it receives exactly the payload bytes |
| `Controllers.S3ProxyController.Get` | src/HelloS3/Controllers/S3ProxyController.cs:45-116 | a failed listing escapes `Get` with the status unchanged; otherwise the result is the catch arms applied to a try-block outcome that `TryBlockSpec` allows, and the status is the one `StatusAfter` gives |
| `Controllers.S3ProxyController.Put` | src/HelloS3/Controllers/S3ProxyController.cs:119-145 | the request is the shaped request for the fresh key and the encoded message; a store exception sets the status to its code and appends its message to the body; any other exception escapes with the response unchanged; success changes nothing |
| `GetProperties.ProjectionOfPermutation` | src/HelloS3/Controllers/S3ProxyController.cs:81-91 | projecting two orderings of the same keys yields the same contents, counted with multiplicity |
| `GetProperties.OkHasOneMessagePerKey` | src/HelloS3/Controllers/S3ProxyController.cs:87-96 | an `Ok` envelope holds exactly as many contents as there were listed keys |
| `GetProperties.OkIsPermutationOfContents` | src/HelloS3/Controllers/S3ProxyController.cs:63-96 | on success the contents are a permutation of the recorded contents of the listed keys |
| `GetProperties.OkIsInLastModifiedOrder` | src/HelloS3/Controllers/S3ProxyController.cs:80-91 | on success each output content belongs to the sorted key at its place, and the recorded times are non-decreasing along the output |
| `GetProperties.WellBehavedStoreRecordsEveryKey` | src/HelloS3/Controllers/S3ProxyController.cs:63-78 | if the listing has no duplicates and the store answers each listed key under that key, the tasks record every key with the store's time and content |
| `GetProperties.WellBehavedStoreCompletes` | src/HelloS3/Controllers/S3ProxyController.cs:52-96 | for such a store the try block completes |
| `GetProperties.WellBehavedStoreYieldsSortedContents` | src/HelloS3/Controllers/S3ProxyController.cs:58-96 | for such a store the result is `Ok`; it has one content per listed key; the sorted keys are a permutation of the listing; each content is that key's stored content; and the store's last-modified times are non-decreasing along the output |
| `GetProperties.WellBehavedStoreYieldsEachContentOnce` | src/HelloS3/Controllers/S3ProxyController.cs:58-96 | for such a store each listed object's content appears in the output exactly once, and nothing else does |
| `GetProperties.EmptyListingIsOk` | src/HelloS3/Controllers/S3ProxyController.cs:58-96 | an empty listing completes with no keys and no contents, whatever the store would answer, and yields `Ok` with an empty list |
| `GetProperties.FetchFailureIsReported` | src/HelloS3/Controllers/S3ProxyController.cs:68-113 | when no two responses name the same key, the first fetch that throws decides the outcome: a store exception gives `AwsError`, its text and its status code; any other exception gives `Error` and its text with the status unchanged; neither has contents |
| `GetProperties.DuplicateAnswerIsError` | src/HelloS3/Controllers/S3ProxyController.cs:71-113 | two responses under the same key make `Add` throw `ArgumentException`, which gives `Error` with no contents and the status unchanged |
| `GetProperties.MissingKeyIsError` | src/HelloS3/Controllers/S3ProxyController.cs:81-113 | a listed key the tasks did not record throws a `KeyNotFoundException` for a listed key without a time. It comes from the projection for a single key, and wrapped from the sort for more. Either gives `Error` with the status unchanged |

## Left out

- The store client (`ListObjectsV2Async`, `GetObjectAsync`, `PutObjectAsync`) is foreign code; its answers are parameters of the model.
- The concurrency of the fan-out (`Task.Run`, `Task.WhenAll`) is not modelled. The fetches run as a sequential loop. Under real concurrency the unsynchronized `Dictionary.Add` calls can race and corrupt the dictionaries. Which of two tasks with the same response key throws is also decided by timing. The model captures neither.
- Reading a response body as text (`StreamReader`), UTF-8 encoding (`Put` takes the encoder as a parameter), and the internals of `MemoryStream` are library code. A body is an opaque string. A payload is an opaque byte sequence, and the stream is reduced to its bytes and position.
- The generated key in `Put` is a parameter. The randomness of `Guid.NewGuid` is not modelled, so the model does not prove that the key is new.
- JSON serialization and indentation, `Response.ContentType`, routing, dependency injection and logging (including the request id logged after a successful `Put`) are framework plumbing.
- `S3ProxyController.Put`: the error text is handed to a `StreamWriter` that is never flushed. The model records the text as written to the body; whether it reaches the client depends on flushing, which is not modelled.
- `Aws.Describe`: the rendering leaves out stack traces and .NET's exact line layout of inner exceptions. A store exception raised by the SDK usually carries an inner exception (the HTTP error response); the model renders none for it.
- `GetProperties.FetchFailureIsReported`: the guarantee is stated only for listings in which no two responses name the same key. With a repeated response key after the failing fetch, the concurrent source may fault an earlier task with `ArgumentException` first; the sequential model cannot capture that order.
- `DateTime` is an integer timestamp; only its order is used.
