# mailr, modelled in Dafny

mailr is a small Flask service that sends e-mail through one of two
providers, MailGun and Mandrill, and answers status queries about messages
it sent. A send request is queued. A worker then tries the providers in a
shuffled order, with retries, and records in the job's meta which provider
succeeded and the per-recipient message ids it got back. A status request
names the job id and one recipient address. The service looks up the
provider that handled the job and asks that provider for the message's state.

This project models the core of that behaviour and proves properties of it:

- `AddressGrammar` (`address_grammar.dfy`): the RFC-822-style address
  pattern as predicates over strings.
- `MailerUtils` (`mailer_utils.dfy`): a scanner that reproduces the regex
  search of `get_name_email_tuple`, plus `get_name_email_tuples` and
  `is_email_valid`. It is proved sound and complete against the grammar.
- `Providers` (`providers.dfy`), covering both mailers:
  - how MailGun and Mandrill turn a send request into the recipients they
    post;
  - how each turns a provider reply into a list of message records;
  - the `== 200` success test;
  - the two status tables, and what a timeout gives.
- `Orchestrator` (`orchestrator.dfy`): the failover loop of the
  module-level `send_message`. A pure run function specifies it, and an
  imperative method over a `JobMeta` object is proved equal to it.
- `MailrExceptions` (`mailr_exceptions.dfy`): `InvalidInputException`
  and `MailNotSentException`. This includes `to_dict`. For a non-empty
  payload it writes into the stored payload dict and returns that same
  object. For a `None` or empty payload (`self.payload or {}`) it returns
  a new dict.
- `Mailr` (`mailr.dfy`), the decision logic of the web layer:
  - the two input validators;
  - `create_response`, with its shared default dict;
  - the `available_mailers` registry;
  - every way the `/status` route can answer.
- `Values` (`values.dfy`): the shared datatypes. These are JSON values,
  HTTP outcomes, the exceptions Python would raise (as `Crash` values), and
  send outcomes.

An HTTP exchange is an input value. It is either a `ConnectTimeout`, a
transport failure, or a response with a status code, raw content and a
parsed body. The `rq` job is either the `JobMeta` object or, on the status
side, a map from job id to the saved meta. The jsonschema verdict is an
input, `schemaError`. Python exceptions that the code does not catch become
explicit outcomes (`Crashed`, `SendCrashed`, `RaisesCrash`). Examples:
- unpacking a `None` tuple;
- a missing JSON key;
- an unparsable body;
- `next()` finding nothing;
- concatenating `None` to a string.

Where the code and its documentation disagree, the model follows the code:
- A send succeeds only on status exactly 200, not on any 2xx.
- A MailGun event outside its table, or a reply without `items`, gives the
  status `None` (JSON `null`), not a status of its own.
- The MailGun table's key is the misspelled `'compained'`, so a
  `'complained'` event has no status.

## Model

| member | source | states |
|---|---|---|
| AddressGrammar.DomainPrefixIsLabel | mailers.py:381 | the repetition `([\w\d.]+\.)+` accepts exactly the strings a single label accepts |
| AddressGrammar.AddressChars | mailers.py:378-383 | an address is at least 7 characters, made only of user characters and '@', and ends in a letter of its TLD |
| AddressGrammar.NameIffNameChars | mailers.py:368-369 | the name pattern accepts exactly the strings of name and space characters that start and end with a name character |
| AddressGrammar.NameHasNameChars | mailers.py:368-369 | every string the name pattern accepts starts and ends with a name character and holds only name and space characters |
| AddressGrammar.NameCharsIsName | mailers.py:368-369 | every such string is accepted by the name pattern |
| MailerUtils.LastLabelEnd | mailers.py:381 | finds the largest end of the greedy domain prefix, if there is one |
| MailerUtils.EmailEnd | mailers.py:378-383 | an email match starting at a position ends after it and within the string |
| MailerUtils.TrimEnd | mailers.py:369-370 | the name group ends where the trailing `\s*` starts: all space after, no space just before |
| MailerUtils.NameOpen | mailers.py:368-375 | the optional name group, when taken, runs over name and space characters up to a '<' |
| MailerUtils.MatchAt | mailers.py:363-389 | a match at a position is well formed and starts there |
| MailerUtils.Search | mailers.py:389 | `pattern.search` gives a well formed match at or after the start |
| MailerUtils.EmailEndIsLongest | mailers.py:378-383 | an email match exists at a position iff some substring starting there is an address; it is the longest such substring |
| MailerUtils.EmailEndSound | mailers.py:378-383 | the email group found at a position is an address |
| MailerUtils.EmailEndComplete | mailers.py:378-383 | any address starting at a position is found, and the match is no shorter |
| MailerUtils.NameGroupSound | mailers.py:368-375 | the name group is a name followed only by space before the '<' |
| MailerUtils.MatchAtSound | mailers.py:363-389 | a match's email group is an address and its name group, when present, is a name followed by space and '<' just before the address |
| MailerUtils.MatchAtComplete | mailers.py:363-389 | if an address starts at a position, the pattern matches there |
| MailerUtils.SearchNoneIff | mailers.py:389 | the search finds nothing iff no substring after the start is an address |
| MailerUtils.SearchSound | mailers.py:389 | the search returns a sound match, and no address starts before it |
| MailerUtils.GetNameEmailTuple | mailers.py:345-394 | the search's email group and optional name group as a tuple; `TupleNoneIff` and `TupleSound` state what it gives |
| MailerUtils.IsEmailValid | mailers.py:397-416 | whether the string gives a tuple; `IsEmailValidIff` states it as: a present string containing an address |
| MailerUtils.TuplesOf | mailers.py:322-342 | the list `get_name_email_tuples` returns, as a value; `GetNameEmailTuples` is proved to build it |
| MailerUtils.TupleNoneIff | mailers.py:359-394 | `get_name_email_tuple` gives `None` iff the input is `None` or no substring of it is an address |
| MailerUtils.TupleSound | mailers.py:389-392 | the email of a tuple is an address occurring in the input; its name, when present, is a name before a '<' that opens that address |
| MailerUtils.IsEmailValidIff | mailers.py:397-416 | `is_email_valid` is true iff the input is a string and some substring of it is an address |
| MailerUtils.GetNameEmailTuples | mailers.py:322-342 | `None` gives `[]`; otherwise one tuple per entry, in order, with `None` for a `None` entry |
| MailerUtils.JunkAroundAddressIsValid | mailers.py:389-416 | any text before and after an address still makes the string valid, since the pattern is searched for, not matched whole |
| MailerUtils.BareAddressTuple | mailers.py:389-392 | a bare address gives `(None, address)` |
| MailerUtils.NamedAddressTuple | mailers.py:368-392 | `name<space><<address>` with an optional `>` gives `(name, address)` |
| MailerUtils.NamedMatchTuple | mailers.py:389-392 | a match with a name group gives the name and email substrings it spans |
| MailerUtils.NotAddressUnlessWordAtEnd | mailers.py:382 | a string that does not end in a word character is not an address |
| MailerUtils.NoAtNoAddress | mailers.py:380 | a string without '@' holds no address |
| MailerUtils.AddressFromParts | mailers.py:378-383 | user part, '@', a label and a TLD make an address |
| MailerUtils.InvalidEmailExamples | mailers.py:409-416 | `None`, `""` and `"blah"` are not valid |
| MailerUtils.BareEmailExample | mailers.py:397-416 | `"ami@t.com"` is valid |
| MailerUtils.NamedEmailExample | mailers.py:397-416 | `"Amit Ruparel <amit@ruparel.com>"` is valid |
| MailerUtils.BareTupleExample | mailers.py:389-392 | `"amitruparel@gmail.com"` gives `(None, "amitruparel@gmail.com")` |
| MailerUtils.NamedTupleExample | mailers.py:389-392 | `"Amit Ruparel <aa@gmail.com>"` gives `("Amit Ruparel", "aa@gmail.com")` |
| Providers.AddressesOf | mailers.py:122-135 | taking `t[1]` of every tuple succeeds iff no tuple is `None`; the addresses are the tuples' emails in order |
| Providers.ExtendWithAddresses | mailers.py:122-135 | `extend` appends exactly those addresses, or fails on a `None` tuple |
| Providers.AddressesOfAppend | mailers.py:122-135 | collecting from two lists succeeds iff both do, giving the first list's addresses then the second's |
| Providers.AddressesOfCrashesFromPrefix | mailers.py:126 | a `None` tuple anywhere in a prefix makes the whole collection fail |
| Providers.PostOutcome | mailers.py:138-143 | a timeout stays a timeout; a status other than exactly 200 is `MailNotSentException(content, status)`; on 200 the processed records are returned, or the processing failure |
| Providers.StripEnds | mailers.py:181 | `[1:-1]` drops the first and last character, and gives `""` for strings shorter than 2 |
| Providers.StripEndsOfBracketed | mailers.py:181 | `"<" + x + ">"` gives back `x` |
| Providers.MailGunEventStatus | mailers.py:98-168 | a mapped event gives one of the service's statuses |
| Providers.MailGunEventStatusTable | mailers.py:98-168 | exactly the five keys are mapped, to processing, failed, accepted and sent; no event gives `None` |
| Providers.ComplainedHasNoMailGunStatus | mailers.py:103 | the correctly spelt `"complained"` is not in the table |
| Providers.MailGunRecords | mailers.py:174-184 | an unparsable body fails; otherwise one record per recipient, in order, each with the reply's id stripped of its ends; a missing id fails only if there is a recipient |
| Providers.MailGunProcessResponse | mailers.py:174-184 | the loop builds exactly those records |
| Providers.MailGunRecipients | mailers.py:119-135 | the addresses MailGun's send collects; `MailGunRecipientsOrder` states it as the to, cc and bcc addresses in order |
| Providers.MailGunRecipientsOrder | mailers.py:122-135 | the recipients are the to, then cc, then bcc addresses, and collecting them fails iff some entry gives no tuple |
| Providers.MailGunCollectRecipients | mailers.py:122-135 | the three `extend` steps build exactly that list |
| Providers.MailGunSend | mailers.py:107-143 | a bad recipient fails before posting; otherwise the reply is judged by the 200 test and processed against the collected recipients |
| Providers.MailGunGetStatus | mailers.py:145-172 | `None` exactly on a timeout; a parsed reply without `items` gives the status `None`, one with an empty `items` list fails with IndexError, and otherwise the status is the table's entry for the first item's event; an unparsable reply and a transport failure fail |
| Providers.MailGunStatusIffMappedEvent | mailers.py:166-168 | a non-null status is given iff the first item's event is in the table, and it is then that event's entry in the table |
| Providers.MailGunNoItemsNoStatus | mailers.py:167-168 | a reply without `items` gives `{'status': None}` |
| Providers.MandrillStateStatus | mailers.py:207-303 | the status is always one of the service's, and is other than `accepted` iff the state is in the table |
| Providers.MandrillStateStatusTable | mailers.py:207-303 | sent gives sent, bounced and rejected give failed, anything else or no state gives accepted |
| Providers.RecipientsOf | mailers.py:274-284 | one `{email, name, type}` per tuple, in order, with the given header; unpacking a `None` tuple fails |
| Providers.GetRecipientsList | mailers.py:256-284 | `None` gives `[]`; otherwise the loop builds exactly those recipients |
| Providers.RecipientsOfCrashesFromPrefix | mailers.py:275 | a `None` tuple in a prefix makes the whole list fail |
| Providers.MandrillRecipients | mailers.py:219-234 | the combined list has the to, cc and bcc lengths' sum, each entry tagged with the header of the list it came from, in to, cc, bcc order |
| Providers.MandrillRecipientsEntries | mailers.py:231-282 | entry `k` of the combined list carries the address and name of the `k`-th to, cc or bcc tuple |
| Providers.MandrillMessageFor | mailers.py:218-242 | the message carries the sender's address and name, the combined recipients, text and subject; it fails iff the sender or a recipient gives no tuple |
| Providers.MandrillRecords | mailers.py:312-318 | one record per reply element, copying `email` and `_id`, in order; a missing key fails with that key |
| Providers.MandrillBodyRecords | mailers.py:309-318 | the records of a Mandrill send reply; `MandrillProcessResponse` is proved to build them and `MandrillRecordsPrefixCrash` states the failure case |
| Providers.MandrillProcessResponse | mailers.py:309-318 | the loop builds exactly the records of the parsed reply, and an unparsable reply fails |
| Providers.MandrillRecordsPrefixCrash | mailers.py:312-316 | the first bad element decides the failure: what follows it is never read |
| Providers.MandrillSend | mailers.py:213-254 | a bad address fails and posts nothing; otherwise it posts the built message and judges the reply by the 200 test |
| Providers.MandrillGetStatus | mailers.py:286-307 | `None` exactly on a timeout; a parsed reply gives the status the table gives its state, `accepted` iff the state is unmapped or missing; an unparsable reply and a transport failure fail |
| Providers.GetMessageStatus | mailers.py:145-307 | each mailer kind answers with its own status rule |
| Orchestrator.RetriesOf | mailers.py:442 | `retries` defaults to 1 |
| Orchestrator.Passes | mailers.py:450-482 | the number of passes the `while retries >= 0` loop makes; `NegativeRetriesCallsNothing`, `DefaultRetriesIsTwoPasses` and `EveryMailerCalledEachPass` state its effect |
| Orchestrator.RunFrom | mailers.py:450-482 | the calls and the winner of the failover loop from a given pass and position; `RunStep`, `RunPassEnd` and `RunStopsAtFirstSuccess` state what it gives |
| Orchestrator.RunAll | mailers.py:450-482 | the whole failover loop; `SendMessage` is proved to make its calls and record its winner, and `WinnerIffSomeSuccess` and `LaterMailersNeverCalled` state what it gives |
| Orchestrator.RunInListOrder | mailers.py:450-451 | attempts are made pass by pass and, within a pass, in list order |
| Orchestrator.RunWithNoMailers | mailers.py:450-451 | an empty mailer list makes no call and writes nothing |
| Orchestrator.RunStopsAtFirstSuccess | mailers.py:453-461 | the run ends at its first success, which is its last call, and every earlier call failed |
| Orchestrator.LaterMailersNeverCalled | mailers.py:461 | no attempt after the winning one is made |
| Orchestrator.WinnerIffSomeSuccess | mailers.py:450-482 | there is a winner iff some attempt within the passes would succeed |
| Orchestrator.CallsToAppend | mailers.py:450-482 | call counts add up over concatenated runs |
| Orchestrator.CallsPerMailerWhenAllFail | mailers.py:450-482 | when every attempt fails, each mailer is called once per remaining pass |
| Orchestrator.EveryMailerCalledEachPass | mailers.py:450-482 | when everything fails, each mailer is called exactly `retries + 1` times |
| Orchestrator.CallsToKindAt | mailers.py:446-451 | counting calls by provider kind equals counting by position when the kind occurs once |
| Orchestrator.EachProviderCalledEachPass | mailers.py:446-482 | for any order of the two providers, when everything fails, each provider is called `retries + 1` times |
| Orchestrator.NegativeRetriesCallsNothing | mailers.py:450 | a negative `retries` makes no attempt |
| Orchestrator.DefaultRetriesIsTwoPasses | mailers.py:442-450 | with no `retries` there are two passes |
| Orchestrator.BackupsUsedOnFailure | mailers.py:450-482 | for every `retries >= 0`: with four mailers where the first fails, the second raises and the third succeeds, the calls are 1, 1, 1 and 0, all in the first pass, and the third wins |
| Orchestrator.RunStep | mailers.py:451-461 | one attempt either ends the run as the winner or hands on to the next position |
| Orchestrator.RunPassEnd | mailers.py:450-482 | the end of a pass starts the next one, and after the last pass there is nothing |
| Orchestrator.JobMeta.constructor | mailers.py:455 | a fresh job has no `handled_by`, no `messages_info` and no save |
| Orchestrator.JobMeta.SetHandledBy | mailers.py:456 | sets `handled_by` and nothing else |
| Orchestrator.JobMeta.SetMessagesInfo | mailers.py:457 | sets `messages_info` and nothing else |
| Orchestrator.JobMeta.Save | mailers.py:458 | counts one save and changes no meta |
| Orchestrator.SendMessage | mailers.py:427-482 | the calls made are the run's; with no winner the job is untouched; with a winner, `handled_by` is its class name, `messages_info` its records, and the job is saved once |
| MailrExceptions.Dict.constructor | mailrexceptions.py:32 | a dict holds the given entries |
| MailrExceptions.Dict.Put | mailrexceptions.py:33 | setting a key changes only that key |
| MailrExceptions.ExceptionDict | mailrexceptions.py:32-33 | `message` maps to the message; every other key and value of the payload is kept, and nothing else is added |
| MailrExceptions.ExceptionDictWithoutPayload | mailrexceptions.py:32-33 | with no payload the dict's only key is `message` |
| MailrExceptions.ExceptionDictIdempotent | mailrexceptions.py:32-33 | shaping twice gives the same dict as shaping once |
| MailrExceptions.InvalidInputException.constructor | mailrexceptions.py:5-22 | stores message and payload; the status code is 400 unless one is given |
| MailrExceptions.InvalidInputException.ToDict | mailrexceptions.py:24-34 | a non-empty payload is written into and returned itself; an absent or empty one gives a new dict and is left as it was; either way the result is the shaped dict |
| MailrExceptions.MailNotSentException.constructor | mailrexceptions.py:40-51 | stores message and status code unchanged |
| MailrExceptions.ExceptionOfNotSent | mailers.py:141-143 | the `NotSent` outcome of a refused send is the exception built from the reply's content and status code |
| Mailr.AvailableMailersResolve | mailr.py:33-36 | the registry's keys are the two class names, and each class name maps back to its own mailer |
| Mailr.HandledByResolvesToWinner | mailr.py:118-127 | the `handled_by` the failover loop writes resolves to the mailer that sent |
| Mailr.InvalidAmong | mailr.py:178-194 | the invalid entries are exactly the entries that fail `is_email_valid`, and there are no more of them than entries |
| Mailr.InvalidAmongAppend | mailr.py:174-194 | filtering concatenated lists filters each in turn |
| Mailr.InvalidEmails | mailr.py:174-194 | the invalid entries among the sender and the to, cc and bcc lists; `InvalidEmailsAreTheInvalidOnes` and `InvalidEmailsInFieldOrder` state what it gives |
| Mailr.InvalidEmailsAreTheInvalidOnes | mailr.py:174-194 | an address is reported iff it is the sender or a to, cc or bcc entry and is invalid: every one is collected, not only the first |
| Mailr.InvalidEmailsInFieldOrder | mailr.py:176-194 | the report lists the sender's, then the to, cc and bcc verdicts, in order |
| Mailr.MissingCcBccAddNothing | mailr.py:187-192 | a missing cc or bcc is read as an empty list |
| Mailr.AppendInvalid | mailr.py:182-194 | one loop appends exactly the invalid entries of its list |
| Mailr.CollectInvalidEmails | mailr.py:174-194 | the four loops build the full report; a missing `to` cannot be iterated |
| Mailr.InvalidEmailsPayload | mailr.py:197 | the payload has the one key `invalid_emails`, listing every invalid entry in order |
| Mailr.ValidateSendMessageInput | mailr.py:156-198 | a schema failure raises with its message; otherwise it raises iff some address is invalid, with the fixed message and the payload of all of them |
| Mailr.ValidateGetStatusInput | mailr.py:200-220 | a schema failure raises with its message; otherwise it raises iff the email is invalid, and a missing email fails while the message is built |
| Mailr.ResponseBody | mailr.py:150-152 | `message` is set iff there is text; otherwise the info is the body; every other key is kept |
| Mailr.CreateResponse | mailr.py:139-154 | writes the message into the dict it is given and replies with that dict and the status |
| Mailr.SharedDefaultHoldsOnlyMessage | mailr.py:139-151 | one call with a text, on a shared dict holding at most `message`, leaves it holding exactly that text's message |
| Mailr.SharedDefaultAfterCalls | mailr.py:139-151 | from the empty default, any sequence of calls made one at a time keeps the shared dict down to `message`, and after each call it holds only that call's message |
| Mailr.HandleInvalidInput | mailr.py:222-235 | the error reply is the exception's shaped dict with status 400 |
| Mailr.GetStatus | mailr.py:90-136 | how the `/status` route answers or raises; `NotJsonGets400`, `NotFoundIffNoJob`, `StatusFromTheMailerThatSent` and `OkAnswerIsStatusOnly` state what it gives |
| Mailr.FirstInfoFor | mailr.py:122 | finds nothing iff no record has the address; otherwise the first record that has it |
| Mailr.StatusOfJob | mailr.py:117-135 | once the job is found, the only replies are 503 and 200 |
| Mailr.NotJsonGets400 | mailr.py:100-103 | a body that is not JSON, or is empty, gets 400 with the fixed message |
| Mailr.NotFoundIffNoJob | mailr.py:110-125 | the route answers 404 iff the request is valid and no job has its id; the 404 for a missing record can never be given |
| Mailr.NoRecordRaisesStopIteration | mailr.py:122 | a job without a record for the address makes `next()` raise |
| Mailr.StatusFromTheMailerThatSent | mailr.py:118-135 | the route polls the mailer named by `handled_by`: 503 on a timeout, otherwise 200 with `{"status": ...}` |
| Mailr.OkAnswerIsStatusOnly | mailr.py:135 | every 200 answer has the one key `status`, holding a status the service knows or `null` |

## Left out

- HTTP (`requests`), JSON parsing, Flask routing and `jsonify`, the Redis
  queue and `rq`: replies, parsed bodies and stored jobs are inputs. Which
  URL, credentials and query parameters a provider is called with is not
  modelled, and neither is the form data MailGun posts (the request fields
  passed through).
- The `send_message` route (mailr.py:57-87) is not modelled as a whole.
  It answers 400 with the fixed message when the body is not a non-empty
  JSON value, which is the test that `NotJsonGets400` states for the status
  route. It then runs `validate_send_message_input`, modelled as
  `Mailr.ValidateSendMessageInput`. It copies `from` into `from_email`,
  the key both mailers read as the sender. That copy is assumed, not
  modelled: `SendParams.fromEmail` is taken to hold the request's `from`.
  Finally it enqueues the job and answers 202 with the job id. The queue is
  outside the model.
- jsonschema and the schema files: the schema check's verdict is an input.
- `_get_rfc_2822_time` (mailers.py:186-194): it reads the clock and formats a
  date.
- `random.shuffle` (mailers.py:447): the mailer list is an input in any
  order. `EachProviderCalledEachPass` holds for every permutation.
- `get_current_job()` returning `None`, and a failing `job.save()`:
  outside a worker these raise. They raise inside the `try` of the loop
  (mailers.py:452-480), whose `except Exception` swallows the error, so
  the next mailer sends the message again after a delivery that already
  succeeded. The model assumes a job whose meta is written and saved.
- Unicode `\w` and `\s`: the model reads them over ASCII. Over ASCII,
  `\s` under `re.UNICODE` is space, tab, newline, carriage return,
  vertical tab and form feed, plus the separators 0x1C to 0x1F; `IsSpace`
  holds all ten. Non-ASCII letters and spaces are not modelled.
- A `cc` or `bcc` field present with value `null`: the validator's loop
  would raise a TypeError on it, but the model reads it as absent. (The
  mailers treat `null` and absent alike, giving no tuples either way.)
- A `retries` field present with value `null`: `params.get('retries', 1)`
  then gives `None`, and the loop test `None >= 0` makes no pass in Python 2
  and raises a TypeError in Python 3. The model represents only an absent
  `retries` (default 1) or an integer one.
- A `/status` request whose `email` or `id` key is present with value
  `null`: such a dict is non-empty, so it passes the JSON check.
  - A null `email` then fails in `validate_get_status_input`, which builds
    its message by adding `None` to a string.
  - What a null `id` does depends on the request schema file, which is not
    part of this model. If the schema lets it through, the route reaches
    `q.fetch_job(None)`.

  `StatusRequest` represents only absent keys and string values.
- Concurrent requests sharing `create_response`'s default dict: under a
  threaded server two 400 or 503 replies could overwrite each other's
  `message` before they are serialised. The model handles one request at a
  time (`SharedDefaultAfterCalls`).
- JSON values other than strings for address fields: a non-string entry
  would fail differently in Python.
- Mailr.GetStatus: the route as a whole has no contract of its own. Its
  properties are the lemmas in the table.
- Mailr.GetStatus: the `single_message_info is None` branch
  (mailr.py:123-125) is not modelled, because `next()` raises first.
- Orchestrator.SendMessage: each attempt's outcome is given as a function
  of pass and position. It is not computed here by calling the provider
  models with the request.
- `Mailer` (mailers.py:14-86), the abstract base class: it has no behaviour
  of its own.
- `config` keys and base URLs are not modelled.
