/** The result envelope of the proxy: the three-valued response code and the
    `Result`/`GetResult` records with their default field values. */
module HelloS3 {
  import opened Wrappers

  /** Outcome of an operation, in declaration order: Ok = 0, then AwsError, then Error. */
  datatype ResponseCode = Ok | AwsError | Error

  /** The numeric value of a response code, as the enum's declaration assigns it. */
  function ToInt(c: ResponseCode): (n: int)
    ensures 0 <= n < 3
    ensures n == 0 <==> c == Ok
  {
    match c
    case Ok => 0
    case AwsError => 1
    case Error => 2
  }

  /** The response code with the given numeric value, if there is one. */
  function FromInt(n: int): (c: Option<ResponseCode>)
    ensures c.Some? <==> 0 <= n < 3
  {
    if n == 0 then Some(Ok)
    else if n == 1 then Some(AwsError)
    else if n == 2 then Some(Error)
    else None
  }

  /** The numbering follows the declaration order, Ok = 0, AwsError = 1,
      Error = 2, and is a bijection between the three codes and 0, 1, 2. */
  lemma ResponseCodeNumbering(c: ResponseCode, n: int)
    ensures ToInt(Ok) == 0 && ToInt(AwsError) == 1 && ToInt(Error) == 2
    ensures FromInt(ToInt(c)) == Some(c)
    ensures FromInt(n) == Some(c) ==> ToInt(c) == n
  {
  }

  /** The base envelope: a response code and a diagnostic message. */
  datatype Result = Result(responseCode: ResponseCode, message: string)

  /** A freshly constructed `Result`: code `Ok` and an empty message. */
  function NewResult(): (r: Result)
    ensures r.responseCode == Ok && r.message == ""
  {
    Result(Ok, "")
  }

  /** The envelope `Get` returns: the inherited fields plus the ordered contents,
      which stay unset (`None`, a null reference) unless assigned. */
  datatype GetResult = GetResult(responseCode: ResponseCode, message: string, messages: Option<seq<string>>)
  {
    /** The inherited part of the envelope. */
    function AsResult(): Result
    {
      Result(responseCode, message)
    }
  }

  /** A freshly constructed `GetResult`: the defaults of `Result` and no contents. */
  function NewGetResult(): (r: GetResult)
    ensures r.AsResult() == NewResult() && r.messages == None
  {
    GetResult(Ok, "", None)
  }

  /** `new GetResult { ResponseCode = Ok, Messages = contents }`. */
  function OkResult(contents: seq<string>): (r: GetResult)
    ensures r.responseCode == Ok && r.messages == Some(contents)
    ensures r.message == NewResult().message
  {
    NewGetResult().(messages := Some(contents))
  }

  /** `new GetResult { ResponseCode = code, Message = text }`: contents left unset. */
  function FailedResult(code: ResponseCode, text: string): (r: GetResult)
    ensures r.responseCode == code && r.message == text && r.messages == None
  {
    NewGetResult().(responseCode := code, message := text)
  }
}
