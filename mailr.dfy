// The decision logic of mailr.py: input validation, the response helper,
// the mailer registry keyed by class name, and how the status route answers.
// Flask, Redis and jsonschema stay outside: the request body is a value, the
// job store a map from job id to the saved meta, and the schema check's
// verdict an input.

module Mailr {
  import opened Values
  import opened MailerUtils
  import opened Providers
  import opened Orchestrator
  import opened MailrExceptions

  // ---------------------------------------------------------------------
  // available_mailers

  /** `available_mailers`: each mailer under its class name. */
  const AvailableMailersByName: map<string, MailerKind> := map[
    ClassName(MailGun) := MailGun,
    ClassName(Mandrill) := Mandrill]

  /** The registry knows exactly the two class names, and each resolves to its own mailer. */
  lemma AvailableMailersResolve(k: MailerKind)
    ensures AvailableMailersByName.Keys == {"MailGunMailer", "MandrilMailer"}
    ensures ClassName(k) in AvailableMailersByName && AvailableMailersByName[ClassName(k)] == k
  {
  }

  /** The `handled_by` the failover loop writes names the mailer whose send succeeded. */
  lemma HandledByResolvesToWinner(mailers: seq<MailerKind>, retries: int, outcome: (nat, nat) -> SendOutcome)
    ensures var w := RunAll(|mailers|, retries, outcome).winner;
      w.Some? ==> (w.value.index < |mailers| &&
        AvailableMailersByName[ClassName(mailers[w.value.index])] == mailers[w.value.index])
  {
    RunStopsAtFirstSuccess(|mailers|, Passes(retries), outcome, 0, 0);
    var w := RunAll(|mailers|, retries, outcome).winner;
    if w.Some? {
      AvailableMailersResolve(mailers[w.value.index]);
    }
  }

  // ---------------------------------------------------------------------
  // What the validators raise

  /** Nothing, an InvalidInputException (its message and payload), or some other exception. */
  datatype Raised =
    | NoRaise
    | RaisesInvalidInput(message: string, payload: Option<map<string, Json>>)
    | RaisesCrash(crash: Crash)

  /** The entries of `xs` that fail `is_email_valid`, in their order. */
  function InvalidAmong(xs: seq<Option<string>>): (r: seq<Option<string>>)
    ensures |r| <= |xs|
    ensures forall x :: x in r <==> x in xs && !IsEmailValid(x)
    decreases |xs|
  {
    if xs == [] then []
    else InvalidAmong(xs[..|xs| - 1]) + (if IsEmailValid(xs[|xs| - 1]) then [] else [xs[|xs| - 1]])
  }

  /** Filtering a concatenation filters each part. */
  lemma {:induction false} InvalidAmongAppend(a: seq<Option<string>>, b: seq<Option<string>>)
    ensures InvalidAmong(a + b) == InvalidAmong(a) + InvalidAmong(b)
    decreases |b|
  {
    if b == [] {
      assert a + b == a;
    } else {
      assert (a + b)[..|a + b| - 1] == a + b[..|b| - 1];
      InvalidAmongAppend(a, b[..|b| - 1]);
    }
  }

  /** The fields of a send request the validator reads; `None` is an absent key. */
  datatype SendInput = SendInput(
    from: Option<string>,
    to: Option<seq<Option<string>>>,
    cc: Option<seq<Option<string>>>,
    bcc: Option<seq<Option<string>>>)

  function OrEmpty(x: Option<seq<Option<string>>>): seq<Option<string>>
  {
    if x.Some? then x.value else []
  }

  /** Every invalid address of a send request: the sender, then to, cc and bcc entries. */
  function InvalidEmails(input: SendInput): seq<Option<string>>
  {
    InvalidAmong([input.from] + OrEmpty(input.to) + OrEmpty(input.cc) + OrEmpty(input.bcc))
  }

  /** An address is collected exactly when it is one of the request's and is not valid. */
  lemma InvalidEmailsAreTheInvalidOnes(input: SendInput, x: Option<string>)
    ensures x in InvalidEmails(input) <==>
      !IsEmailValid(x) && (x == input.from || x in OrEmpty(input.to) || x in OrEmpty(input.cc) || x in OrEmpty(input.bcc))
  {
  }

  /** The list is the sender's verdict, then the to, cc and bcc ones: nothing is dropped or reordered. */
  lemma InvalidEmailsInFieldOrder(input: SendInput)
    ensures InvalidEmails(input) ==
      InvalidAmong([input.from]) + InvalidAmong(OrEmpty(input.to)) + InvalidAmong(OrEmpty(input.cc)) + InvalidAmong(OrEmpty(input.bcc))
  {
    var f, t, c, b := [input.from], OrEmpty(input.to), OrEmpty(input.cc), OrEmpty(input.bcc);
    InvalidAmongAppend(f + t + c, b);
    InvalidAmongAppend(f + t, c);
    InvalidAmongAppend(f, t);
  }

  /** A missing cc or bcc adds nothing: it is read as an empty list. */
  lemma MissingCcBccAddNothing(input: SendInput)
    requires input.cc.None? && input.bcc.None?
    ensures InvalidEmails(input) == InvalidAmong([input.from] + OrEmpty(input.to))
  {
    assert [input.from] + OrEmpty(input.to) + OrEmpty(input.cc) + OrEmpty(input.bcc) == [input.from] + OrEmpty(input.to);
  }

  /** One of the `for` loops of `validate_send_message_input`, appending to `acc`. */
  method AppendInvalid(acc: seq<Option<string>>, xs: seq<Option<string>>) returns (r: seq<Option<string>>)
    ensures r == acc + InvalidAmong(xs)
  {
    r := acc;
    var i := 0;
    while i < |xs|
      invariant 0 <= i <= |xs|
      invariant r == acc + InvalidAmong(xs[..i])
    {
      assert xs[..i + 1][..i] == xs[..i];
      if !IsEmailValid(xs[i]) {
        r := r + [xs[i]];
      }
      i := i + 1;
    }
    assert xs[..i] == xs;
  }

  /**
   * The address checks of `validate_send_message_input`: the sender, then
   * every to, cc and bcc entry. A missing `to` cannot be iterated.
   */
  method CollectInvalidEmails(input: SendInput) returns (r: Outcome<seq<Option<string>>>)
    ensures input.to.None? ==> r == Crashed(TypeErrorNotIterable)
    ensures input.to.Some? ==> r == Done(InvalidEmails(input))
  {
    var invalid: seq<Option<string>> := [];
    if !IsEmailValid(input.from) {
      invalid := invalid + [input.from];
    }
    assert invalid == InvalidAmong([input.from]) by {
      assert [input.from][..0] == [];
    }
    if input.to.None? {
      return Crashed(TypeErrorNotIterable);
    }
    invalid := AppendInvalid(invalid, input.to.value);
    invalid := AppendInvalid(invalid, OrEmpty(input.cc));
    invalid := AppendInvalid(invalid, OrEmpty(input.bcc));
    InvalidEmailsInFieldOrder(input);
    r := Done(invalid);
  }

  /** The payload `{"invalid_emails": invalid_emails}`. */
  function InvalidEmailsPayload(invalid: seq<Option<string>>): (m: map<string, Json>)
    ensures m.Keys == {"invalid_emails"}
    ensures m["invalid_emails"].JArr? && |m["invalid_emails"].items| == |invalid|
    ensures forall k :: 0 <= k < |invalid| ==> m["invalid_emails"].items[k] == OptStr(invalid[k])
  {
    map["invalid_emails" := JArr(seq(|invalid|, k requires 0 <= k < |invalid| => OptStr(invalid[k])))]
  }

  /**
   * `validate_send_message_input`: a schema failure raises with the
   * schema's message; otherwise it raises exactly when some address is
   * invalid, listing all of them.
   */
  method ValidateSendMessageInput(schemaError: Option<string>, input: SendInput) returns (r: Raised)
    ensures schemaError.Some? ==> r == RaisesInvalidInput(schemaError.value, None)
    ensures schemaError.None? && input.to.None? ==> r == RaisesCrash(TypeErrorNotIterable)
    ensures schemaError.None? && input.to.Some? ==> (r.NoRaise? <==> InvalidEmails(input) == [])
    ensures schemaError.None? && input.to.Some? && InvalidEmails(input) != [] ==>
      r == RaisesInvalidInput("Input contains invalid email(s)", Some(InvalidEmailsPayload(InvalidEmails(input))))
  {
    if schemaError.Some? {
      return RaisesInvalidInput(schemaError.value, None);
    }
    var invalid := CollectInvalidEmails(input);
    if invalid.Crashed? {
      return RaisesCrash(invalid.crash);
    }
    if |invalid.value| != 0 {
      r := RaisesInvalidInput("Input contains invalid email(s)", Some(InvalidEmailsPayload(invalid.value)));
    } else {
      r := NoRaise;
    }
  }

  /**
   * `validate_get_status_input`: a schema failure raises with the schema's
   * message; otherwise it raises exactly when the address is invalid, and a
   * missing address fails while the message is being built.
   */
  function ValidateGetStatusInput(schemaError: Option<string>, email: Option<string>): (r: Raised)
    ensures schemaError.Some? ==> r == RaisesInvalidInput(schemaError.value, None)
    ensures schemaError.None? ==> (r.NoRaise? <==> IsEmailValid(email))
    ensures schemaError.None? && email.None? ==> r == RaisesCrash(TypeErrorConcatNone)
    ensures schemaError.None? && email.Some? && !IsEmailValid(email) ==>
      r == RaisesInvalidInput("Input contains invalid email: " + email.value, None)
  {
    if schemaError.Some? then RaisesInvalidInput(schemaError.value, None)
    else if IsEmailValid(email) then NoRaise
    else if email.None? then RaisesCrash(TypeErrorConcatNone)
    else RaisesInvalidInput("Input contains invalid email: " + email.value, None)
  }

  // ---------------------------------------------------------------------
  // Responses

  /** A JSON response: its body and its status code. */
  datatype Reply = Reply(body: map<string, Json>, status: int)

  /** The body `create_response` sends: `info`, with `message` set when there is a text. */
  function ResponseBody(text: Option<string>, info: map<string, Json>): (b: map<string, Json>)
    ensures "message" in b <==> text.Some? || "message" in info
    ensures text.Some? ==> b["message"] == JStr(text.value)
    ensures text.None? ==> b == info
    ensures forall k :: k != "message" ==> (k in b <==> k in info)
    ensures forall k :: k in info && k != "message" ==> b[k] == info[k]
  {
    if text.Some? then info["message" := JStr(text.value)] else info
  }

  /** `create_response(text, status, info)`: it writes `message` into the dict it was given. */
  method CreateResponse(text: Option<string>, status: int, info: Dict) returns (reply: Reply)
    modifies info
    ensures info.entries == ResponseBody(text, old(info.entries))
    ensures reply == Reply(info.entries, status)
  {
    if text.Some? {
      info.Put("message", JStr(text.value));
    }
    reply := Reply(info.entries, status);
  }

  /**
   * The default `info = {}` is one dict shared by every call that omits it.
   * Every such call passes a text, so one such call on a dict holding at
   * most `message` leaves it holding exactly the new message.
   */
  lemma SharedDefaultHoldsOnlyMessage(text: string, shared: map<string, Json>)
    requires shared.Keys <= {"message"}
    ensures ResponseBody(Some(text), shared) == map["message" := JStr(text)]
    ensures ResponseBody(Some(text), shared).Keys <= {"message"}
  {
  }

  /** The shared default dict after calls that omit `info` with these texts, made one after another. */
  function SharedDefaultAfter(texts: seq<string>): map<string, Json>
    decreases |texts|
  {
    if texts == [] then map[] else ResponseBody(Some(texts[|texts| - 1]), SharedDefaultAfter(texts[..|texts| - 1]))
  }

  /**
   * Starting from the empty default, calls made one at a time keep the
   * shared dict down to `message`, and each reply carries only the text of
   * its own call.
   */
  lemma {:induction false} SharedDefaultAfterCalls(texts: seq<string>)
    ensures SharedDefaultAfter(texts).Keys <= {"message"}
    ensures |texts| > 0 ==> SharedDefaultAfter(texts) == map["message" := JStr(texts[|texts| - 1])]
    decreases |texts|
  {
    if texts != [] {
      var before := texts[..|texts| - 1];
      SharedDefaultAfterCalls(before);
      SharedDefaultHoldsOnlyMessage(texts[|texts| - 1], SharedDefaultAfter(before));
    }
  }

  /** The error response `handle_invalid_input` makes of a raised InvalidInputException. */
  method HandleInvalidInput(message: string, payload: Option<map<string, Json>>) returns (reply: Reply)
    ensures reply.status == DefaultStatusCode
    ensures payload.Some? ==> reply.body == ExceptionDict(message, payload.value)
    ensures payload.None? ==> reply.body == map["message" := JStr(message)]
  {
    var p: Dict? := null;
    if payload.Some? {
      p := new Dict(payload.value);
    }
    var e := new InvalidInputException(message, None, p);
    var d := e.ToDict();
    reply := Reply(d.entries, e.statusCode);
  }

  // ---------------------------------------------------------------------
  // get_status

  /** The body of a status request; `None` is an absent key. `otherKeys`: it holds some other key. */
  datatype StatusRequest = StatusRequest(email: Option<string>, id: Option<string>, otherKeys: bool)

  /** Python's truth value of the request dict: false for `{}`. */
  predicate NonEmpty(r: StatusRequest)
  {
    r.email.Some? || r.id.Some? || r.otherKeys
  }

  /** The meta a job carries: both keys are written together by a successful send. */
  datatype JobRecord = JobRecord(handledBy: Option<string>, messagesInfo: Option<seq<MessageInfo>>)

  /** How the route ends: with a response, or with an exception escaping to Flask. */
  datatype Handled = Replies(reply: Reply) | Raises(raised: Raised)

  /** `next(m for m in infos if m.get('email_address') == address)`, with `None` for StopIteration. */
  function FirstInfoFor(infos: seq<MessageInfo>, address: string): (r: Option<MessageInfo>)
    ensures r.None? <==> forall k :: 0 <= k < |infos| ==> infos[k].emailAddress != address
    ensures r.Some? ==> exists k :: (0 <= k < |infos| && infos[k] == r.value &&
      r.value.emailAddress == address && forall j :: 0 <= j < k ==> infos[j].emailAddress != address)
    decreases |infos|
  {
    if infos == [] then None
    else if infos[0].emailAddress == address then Some(infos[0])
    else
      var r := FirstInfoFor(infos[1..], address);
      if r.None? then
        assert forall k :: 1 <= k < |infos| ==> infos[k] == infos[1..][k - 1];
        None
      else
        var k :| 0 <= k < |infos[1..]| && infos[1..][k] == r.value && r.value.emailAddress == address &&
          forall j :: 0 <= j < k ==> infos[1..][j].emailAddress != address;
        assert infos[k + 1] == r.value;
        assert forall j :: 1 <= j < k + 1 ==> infos[j] == infos[1..][j - 1];
        r
  }

  const NotJsonMessage := "Input should be specified in valid JSON format only"
  const NoJobMessage := "Cannot find result for supplied ID and email"
  const UnavailableMessage := "This request cannot be served right now. Please try again."

  /**
   * The `/status` route. `json` is `request.json` (`None` when the body is
   * not JSON), `schemaError` the schema check's verdict, `jobs` the queue's
   * jobs by id, and the two replies what each provider answers when polled.
   * The `single_message_info is None` test can never be true, since `next`
   * raises before it; that branch is left out.
   */
  function GetStatus(json: Option<StatusRequest>, schemaError: Option<string>, jobs: map<string, JobRecord>,
                     mailGunReply: Http<MailGunEventsBody>, mandrillReply: Http<MandrillInfoBody>): (h: Handled)
  {
    if json.None? || !NonEmpty(json.value) then Replies(Reply(ResponseBody(Some(NotJsonMessage), map[]), 400))
    else
      var req := json.value;
      var v := ValidateGetStatusInput(schemaError, req.email);
      if !v.NoRaise? then Raises(v)
      else
        match GetNameEmailTuple(req.email)
        case None => Raises(RaisesCrash(TypeErrorNoneTuple))
        case Some(tuple) =>
          if req.id.None? then Raises(RaisesCrash(KeyErrorMissing("id")))
          else if req.id.value !in jobs then Replies(Reply(ResponseBody(Some(NoJobMessage), map[]), 404))
          else StatusOfJob(jobs[req.id.value], tuple.email, mailGunReply, mandrillReply)
  }

  /** The rest of the route once the job is found: read its meta, find the address's record, poll its mailer. */
  function StatusOfJob(job: JobRecord, address: string,
                       mailGunReply: Http<MailGunEventsBody>, mandrillReply: Http<MandrillInfoBody>): (h: Handled)
    ensures h.Replies? ==> h.reply.status == 503 || h.reply.status == 200
  {
    if job.handledBy.None? then Raises(RaisesCrash(KeyErrorMissing("handled_by")))
    else if job.messagesInfo.None? then Raises(RaisesCrash(KeyErrorMissing("messages_info")))
    else
      match FirstInfoFor(job.messagesInfo.value, address)
      case None => Raises(RaisesCrash(StopIterationNoMatch))
      case Some(info) =>
        if job.handledBy.value !in AvailableMailersByName then Raises(RaisesCrash(KeyErrorMissing(job.handledBy.value)))
        else
          match GetMessageStatus(AvailableMailersByName[job.handledBy.value], mailGunReply, mandrillReply)
          case Unavailable => Replies(Reply(ResponseBody(Some(UnavailableMessage), map[]), 503))
          case StatusCrashed(c) => Raises(RaisesCrash(c))
          case StatusOf(s) => Replies(Reply(ResponseBody(None, map["status" := OptStr(s)]), 200))
  }

  /** The request passed the checks and names a stored job: what every later answer needs. */
  predicate ReachesJob(json: Option<StatusRequest>, schemaError: Option<string>, jobs: map<string, JobRecord>)
  {
    json.Some? && NonEmpty(json.value) && schemaError.None? && IsEmailValid(json.value.email) &&
    json.value.id.Some? && json.value.id.value in jobs
  }

  /** A request that is not JSON, or is an empty dict, gets 400 and nothing else is looked at. */
  lemma NotJsonGets400(json: Option<StatusRequest>, schemaError: Option<string>, jobs: map<string, JobRecord>,
                       mg: Http<MailGunEventsBody>, md: Http<MandrillInfoBody>)
    requires json.None? || !NonEmpty(json.value)
    ensures GetStatus(json, schemaError, jobs, mg, md) == Replies(Reply(map["message" := JStr(NotJsonMessage)], 400))
  {
  }

  /**
   * 404 comes only from a missing job: a job without a record for the
   * address raises StopIteration instead of the "Cannot find message" reply.
   */
  lemma NotFoundIffNoJob(json: Option<StatusRequest>, schemaError: Option<string>, jobs: map<string, JobRecord>,
                         mg: Http<MailGunEventsBody>, md: Http<MandrillInfoBody>)
    ensures var h := GetStatus(json, schemaError, jobs, mg, md);
      (h.Replies? && h.reply.status == 404) <==>
        json.Some? && NonEmpty(json.value) && schemaError.None? && IsEmailValid(json.value.email) &&
        json.value.id.Some? && json.value.id.value !in jobs
    ensures var h := GetStatus(json, schemaError, jobs, mg, md);
      h.Replies? && h.reply.status == 404 ==> h.reply.body == map["message" := JStr(NoJobMessage)]
  {
  }

  /** A job holding no record for the requested address makes the route raise StopIteration. */
  lemma NoRecordRaisesStopIteration(json: Option<StatusRequest>, schemaError: Option<string>, jobs: map<string, JobRecord>,
                                    mg: Http<MailGunEventsBody>, md: Http<MandrillInfoBody>)
    requires ReachesJob(json, schemaError, jobs)
    requires var job := jobs[json.value.id.value];
      job.handledBy.Some? && job.messagesInfo.Some? &&
      forall k :: 0 <= k < |job.messagesInfo.value| ==>
        job.messagesInfo.value[k].emailAddress != GetNameEmailTuple(json.value.email).value.email
    ensures GetStatus(json, schemaError, jobs, mg, md) == Raises(RaisesCrash(StopIterationNoMatch))
  {
  }

  /**
   * For a job a successful send wrote (its mailer's class name and a record
   * for the address), the route asks that same mailer: 503 when it times
   * out, 200 with exactly `{"status": ...}` when it answers.
   */
  lemma StatusFromTheMailerThatSent(json: Option<StatusRequest>, schemaError: Option<string>, jobs: map<string, JobRecord>,
                                    mg: Http<MailGunEventsBody>, md: Http<MandrillInfoBody>, k: MailerKind)
    requires ReachesJob(json, schemaError, jobs)
    requires var job := jobs[json.value.id.value];
      job.handledBy == Some(ClassName(k)) && job.messagesInfo.Some? &&
      FirstInfoFor(job.messagesInfo.value, GetNameEmailTuple(json.value.email).value.email).Some?
    ensures var h := GetStatus(json, schemaError, jobs, mg, md);
      match GetMessageStatus(k, mg, md)
      case Unavailable => h == Replies(Reply(map["message" := JStr(UnavailableMessage)], 503))
      case StatusCrashed(c) => h == Raises(RaisesCrash(c))
      case StatusOf(s) => h == Replies(Reply(map["status" := OptStr(s)], 200))
  {
    AvailableMailersResolve(k);
  }

  /** Every 200 answer of the route holds one key, `status`, and a status the service knows or null. */
  lemma OkAnswerIsStatusOnly(json: Option<StatusRequest>, schemaError: Option<string>, jobs: map<string, JobRecord>,
                             mg: Http<MailGunEventsBody>, md: Http<MandrillInfoBody>)
    ensures var h := GetStatus(json, schemaError, jobs, mg, md);
      h.Replies? && h.reply.status == 200 ==>
        h.reply.body.Keys == {"status"} &&
        (h.reply.body["status"] == JNull || (h.reply.body["status"].JStr? && ServiceStatus(h.reply.body["status"].s)))
  {
    var h := GetStatus(json, schemaError, jobs, mg, md);
    if h.Replies? && h.reply.status == 200 {
      var req := json.value;
      var tuple := GetNameEmailTuple(req.email).value;
      assert h == StatusOfJob(jobs[req.id.value], tuple.email, mg, md);
      OkStatusOfJobIsStatusOnly(jobs[req.id.value], tuple.email, mg, md);
    }
  }

  /** The 200 answer once the job is found. */
  lemma OkStatusOfJobIsStatusOnly(job: JobRecord, address: string, mg: Http<MailGunEventsBody>, md: Http<MandrillInfoBody>)
    ensures var h := StatusOfJob(job, address, mg, md);
      h.Replies? && h.reply.status == 200 ==>
        h.reply.body.Keys == {"status"} &&
        (h.reply.body["status"] == JNull || (h.reply.body["status"].JStr? && ServiceStatus(h.reply.body["status"].s)))
  {
  }
}
