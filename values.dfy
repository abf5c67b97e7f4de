// Shared value types of the model: optional values, the small JSON subset the
// service exchanges, message records and the outcome of one HTTP call.

module Values {

  datatype Option<+T> = None | Some(value: T)

  /** The JSON values that appear in payloads and response bodies. */
  datatype Json = JNull | JStr(s: string) | JInt(i: int) | JArr(items: seq<Json>)

  /** Python's `x or None` for an optional string as a JSON value. */
  function OptStr(x: Option<string>): (j: Json)
    ensures x.None? <==> j == JNull
    ensures x.Some? ==> j == JStr(x.value)
  {
    match x
    case None => JNull
    case Some(v) => JStr(v)
  }

  /** A `message_info` dict: the recipient address and the provider's id for it. */
  datatype MessageInfo = MessageInfo(emailAddress: string, id: string)

  /** The two Mailer implementations. */
  datatype MailerKind = MailGun | Mandrill

  /** `mailer.__class__.__name__` */
  function ClassName(k: MailerKind): string
  {
    match k
    case MailGun => "MailGunMailer"
    case Mandrill => "MandrilMailer"
  }

  /**
   * What a `requests` call gives back: a connection timeout, any other
   * transport failure, or a response with its status code, its raw content
   * and the parsed form of that content (of a provider-specific type).
   */
  datatype Http<B> =
    | ConnectTimeout
    | TransportError
    | Response(statusCode: int, content: string, body: B)

  /** The reason a Python statement raised something other than the two named exceptions. */
  datatype Crash =
    | TypeErrorNoneTuple     // indexing or unpacking a `None` (name, email) tuple
    | JsonDecodeError        // `json.loads` on content that is not JSON of the expected shape
    | KeyErrorMissing(key: string)
    | IndexErrorEmpty        // `[0]` on an empty list
    | StopIterationNoMatch   // `next()` on an exhausted generator
    | TypeErrorConcatNone    // `str + None`
    | TypeErrorNotIterable   // `for x in None`
    | TransportFailure       // a `requests` exception other than ConnectTimeout

  /** How a Python call ended: it returned a value, or it raised one of the crashes above. */
  datatype Outcome<T> = Done(value: T) | Crashed(crash: Crash)

  /**
   * The keyword arguments of a send: the fields of the request JSON. For the
   * address fields, the subject and the text, `None` stands for a key that is
   * absent or null (a missing `cc` or `bcc` and a null one give the same
   * recipients). For `retries`, `None` stands only for an absent key, which
   * takes the default; a null `retries` is not represented.
   */
  datatype SendParams = SendParams(
    fromEmail: Option<string>,
    to: Option<seq<Option<string>>>,
    cc: Option<seq<Option<string>>>,
    bcc: Option<seq<Option<string>>>,
    subject: Option<string>,
    text: Option<string>,
    retries: Option<int>)

  /** How one `Mailer.send_message` call ended. */
  datatype SendOutcome =
    | Sent(infos: seq<MessageInfo>)               // returned its list of message_info records
    | NotSent(message: string, statusCode: int)   // raised MailNotSentException(content, status_code)
    | TimedOut                                    // raised ConnectTimeout
    | SendCrashed(crash: Crash)                   // raised anything else

  /** What `Mailer.get_message_status` gives back: `None`, `{'status': s}`, or an exception. */
  datatype StatusResult = Unavailable | StatusOf(status: Option<string>) | StatusCrashed(crash: Crash)

  /** The statuses the service reports. */
  predicate ServiceStatus(s: string)
  {
    s == "processing" || s == "accepted" || s == "sent" || s == "failed"
  }
}
