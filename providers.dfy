// The two Mailer implementations of mailers.py: how each turns the send
// parameters into its request, how it reads the provider's answer back into
// message_info records, and how it maps the provider's delivery states onto
// the service's statuses. Every HTTP answer is an input value (`Http<B>`),
// already parsed into the shape the code reads from it.

module Providers {
  import opened Values
  import opened MailerUtils

  // ---------------------------------------------------------------------
  // Shared by both mailers

  /**
   * The addresses `extend(t[1] for t in tuples)` adds, or the TypeError the
   * first `None` tuple raises when it is indexed.
   */
  function AddressesOf(t: seq<Option<NameEmail>>): (r: Outcome<seq<string>>)
    ensures r.Done? <==> forall k :: 0 <= k < |t| ==> t[k].Some?
    ensures r.Done? ==> |r.value| == |t| && forall k :: 0 <= k < |t| ==> r.value[k] == t[k].value.email
    ensures r.Crashed? ==> r.crash == TypeErrorNoneTuple
    decreases |t|
  {
    if t == [] then Done([])
    else
      match AddressesOf(t[..|t| - 1])
      case Crashed(c) => Crashed(c)
      case Done(a) =>
        if t[|t| - 1].Some? then Done(a + [t[|t| - 1].value.email]) else Crashed(TypeErrorNoneTuple)
  }

  /** `recepient_email_addresses.extend(t[1] for t in tuples)`, with `acc` the list so far. */
  method ExtendWithAddresses(acc: seq<string>, tuples: seq<Option<NameEmail>>) returns (r: Outcome<seq<string>>)
    ensures AddressesOf(tuples).Done? ==> r == Done(acc + AddressesOf(tuples).value)
    ensures AddressesOf(tuples).Crashed? ==> r == Crashed(TypeErrorNoneTuple)
  {
    var out := acc;
    var i := 0;
    while i < |tuples|
      invariant 0 <= i <= |tuples|
      invariant AddressesOf(tuples[..i]).Done?
      invariant out == acc + AddressesOf(tuples[..i]).value
    {
      assert tuples[..i + 1][..i] == tuples[..i];
      if tuples[i].None? {
        AddressesOfCrashesFromPrefix(tuples, i + 1);
        return Crashed(TypeErrorNoneTuple);
      }
      out := out + [tuples[i].value.email];
      i := i + 1;
    }
    assert tuples[..i] == tuples;
    r := Done(out);
  }

  /** A `None` tuple in a prefix makes the whole list crash. */
  lemma AddressesOfCrashesFromPrefix(t: seq<Option<NameEmail>>, i: nat)
    requires i <= |t| && AddressesOf(t[..i]).Crashed?
    ensures AddressesOf(t).Crashed?
  {
    var k :| 0 <= k < i && !t[..i][k].Some?;
    assert t[k] == t[..i][k];
  }

  /** Addresses of a concatenation are the concatenation of the addresses. */
  lemma AddressesOfAppend(a: seq<Option<NameEmail>>, b: seq<Option<NameEmail>>)
    ensures AddressesOf(a + b).Done? <==> AddressesOf(a).Done? && AddressesOf(b).Done?
    ensures AddressesOf(a + b).Done? ==> AddressesOf(a + b).value == AddressesOf(a).value + AddressesOf(b).value
  {
    var ab := a + b;
    if AddressesOf(a).Done? && AddressesOf(b).Done? {
      forall k | 0 <= k < |ab| ensures ab[k].Some? {
        if k < |a| { assert ab[k] == a[k]; } else { assert ab[k] == b[k - |a|]; }
      }
      var x := AddressesOf(ab).value;
      var y := AddressesOf(a).value + AddressesOf(b).value;
      forall k | 0 <= k < |ab| ensures x[k] == y[k] {
        if k < |a| { assert ab[k] == a[k]; } else { assert ab[k] == b[k - |a|]; }
      }
    }
    if AddressesOf(ab).Done? {
      forall k | 0 <= k < |a| ensures a[k].Some? { assert ab[k] == a[k]; }
      forall k | 0 <= k < |b| ensures b[k].Some? { assert ab[|a| + k] == b[k]; }
    }
  }

  /**
   * How a send ends once the request is posted: a timeout, another transport
   * failure, MailNotSentException for any status but exactly 200, and for 200
   * whatever reading the records from the answer's body (`process`) gives.
   */
  function PostOutcome<B>(response: Http<B>, process: B -> Outcome<seq<MessageInfo>>): (out: SendOutcome)
    ensures out.TimedOut? <==> response.ConnectTimeout?
    ensures out.NotSent? <==> response.Response? && response.statusCode != 200
    ensures out.NotSent? ==> out.message == response.content && out.statusCode == response.statusCode
    ensures out.Sent? <==> response.Response? && response.statusCode == 200 && process(response.body).Done?
    ensures out.Sent? ==> out.infos == process(response.body).value
    ensures out.SendCrashed? && response.Response? ==> process(response.body) == Crashed(out.crash)
  {
    match response
    case ConnectTimeout => TimedOut
    case TransportError => SendCrashed(TransportFailure)
    case Response(code, content, body) =>
      if code == 200 then
        match process(body)
        case Done(infos) => Sent(infos)
        case Crashed(c) => SendCrashed(c)
      else NotSent(content, code)
  }

  /** Python's `id[1:-1]`: drop the first and the last character; too short gives "". */
  function StripEnds(id: string): (r: string)
    ensures |r| == if |id| >= 2 then |id| - 2 else 0
    ensures |id| >= 2 ==> id == [id[0]] + r + [id[|id| - 1]]
  {
    if |id| >= 2 then id[1..|id| - 1] else ""
  }

  /** MailGun encloses its ids in '<' and '>'; stripping recovers the bare id. */
  lemma StripEndsOfBracketed(x: string)
    ensures StripEnds("<" + x + ">") == x
  {
    var id := "<" + x + ">";
    assert id[1..|id| - 1] == x;
  }

  // ---------------------------------------------------------------------
  // MailGunMailer

  /** `MailGunMailer._event_status_map`, with its key 'compained' as spelt there. */
  const MailGunEventStatusMap: map<string, string> := map[
    "rejected" := "processing",
    "failed" := "failed",
    "accepted" := "accepted",
    "delivered" := "sent",
    "compained" := "sent"]

  /** `self._event_status_map.get(event)`: there is no default. */
  function MailGunEventStatus(event: Option<string>): (r: Option<string>)
    ensures r.Some? ==> ServiceStatus(r.value)
  {
    if event.Some? && event.value in MailGunEventStatusMap then Some(MailGunEventStatusMap[event.value]) else None
  }

  /** Exactly the five listed events have a status; every other event, and no event, has none. */
  lemma MailGunEventStatusTable(e: string)
    ensures MailGunEventStatus(Some(e)).Some? <==>
      e == "rejected" || e == "failed" || e == "accepted" || e == "delivered" || e == "compained"
    ensures e == "rejected" ==> MailGunEventStatus(Some(e)) == Some("processing")
    ensures e == "failed" ==> MailGunEventStatus(Some(e)) == Some("failed")
    ensures e == "accepted" ==> MailGunEventStatus(Some(e)) == Some("accepted")
    ensures e == "delivered" || e == "compained" ==> MailGunEventStatus(Some(e)) == Some("sent")
    ensures MailGunEventStatus(None) == None
  {
  }

  /** MailGun's own name for the event, 'complained', is not a key of the map, so it has no status. */
  lemma ComplainedHasNoMailGunStatus(e: string)
    requires e == "complained"
    ensures MailGunEventStatus(Some(e)) == None
  {
    assert e != "compained" by { assert e[4] != "compained"[4]; }
  }

  /** The parsed content of a MailGun `/messages` answer: its `id`, if the key is present. */
  datatype MailGunSendBody = MailGunSendUnparsable | MailGunSendJson(id: Option<string>)

  /** One element of the `items` list of a MailGun `/events` answer. */
  datatype MailGunEvent = MailGunEvent(event: Option<string>)

  /** The parsed content of a MailGun `/events` answer: its `items`, if the key is present. */
  datatype MailGunEventsBody = MailGunEventsUnparsable | MailGunEventsJson(items: Option<seq<MailGunEvent>>)

  /**
   * What `MailGunMailer._process_response` returns or raises: one record per
   * recipient, in order, each with the answer's id stripped of its ends. The
   * `'id'` key is only read inside the loop, so with no recipients a missing
   * id raises nothing.
   */
  function MailGunRecords(body: MailGunSendBody, recipients: seq<string>): (r: Outcome<seq<MessageInfo>>)
    ensures body.MailGunSendUnparsable? ==> r == Crashed(JsonDecodeError)
    ensures body.MailGunSendJson? && body.id.None? && |recipients| > 0 ==> r == Crashed(KeyErrorMissing("id"))
    ensures r.Done? <==> body.MailGunSendJson? && (body.id.Some? || |recipients| == 0)
    ensures r.Done? ==> |r.value| == |recipients|
    ensures r.Done? ==> forall k :: 0 <= k < |recipients| ==>
      r.value[k].emailAddress == recipients[k] && r.value[k].id == StripEnds(body.id.value)
  {
    match body
    case MailGunSendUnparsable => Crashed(JsonDecodeError)
    case MailGunSendJson(id) =>
      if |recipients| == 0 then Done([])
      else if id.None? then Crashed(KeyErrorMissing("id"))
      else Done(seq(|recipients|, k requires 0 <= k < |recipients| => MessageInfo(recipients[k], StripEnds(id.value))))
  }

  /** `MailGunMailer._process_response` */
  method MailGunProcessResponse(body: MailGunSendBody, recipients: seq<string>) returns (r: Outcome<seq<MessageInfo>>)
    ensures r == MailGunRecords(body, recipients)
  {
    if body.MailGunSendUnparsable? {
      return Crashed(JsonDecodeError);
    }
    var infos: seq<MessageInfo> := [];
    var i := 0;
    while i < |recipients|
      invariant 0 <= i <= |recipients|
      invariant i > 0 ==> body.id.Some?
      invariant |infos| == i
      invariant forall k :: 0 <= k < i ==> infos[k] == MessageInfo(recipients[k], StripEnds(body.id.value))
    {
      if body.id.None? {
        return Crashed(KeyErrorMissing("id"));
      }
      infos := infos + [MessageInfo(recipients[i], StripEnds(body.id.value))];
      i := i + 1;
    }
    assert |recipients| > 0 ==> infos == MailGunRecords(body, recipients).value;
    r := Done(infos);
  }

  /** The recipients MailGun's send collects: to, then cc, then bcc. */
  function MailGunRecipients(p: SendParams): Outcome<seq<string>>
  {
    AddressesOf(TuplesOf(p.to) + TuplesOf(p.cc) + TuplesOf(p.bcc))
  }

  /** The collected list is the to addresses, then the cc ones, then the bcc ones. */
  lemma MailGunRecipientsOrder(p: SendParams)
    ensures MailGunRecipients(p).Done? <==>
      AddressesOf(TuplesOf(p.to)).Done? && AddressesOf(TuplesOf(p.cc)).Done? && AddressesOf(TuplesOf(p.bcc)).Done?
    ensures MailGunRecipients(p).Done? ==>
      MailGunRecipients(p).value ==
        AddressesOf(TuplesOf(p.to)).value + AddressesOf(TuplesOf(p.cc)).value + AddressesOf(TuplesOf(p.bcc)).value
    ensures MailGunRecipients(p).Done? ==>
      |MailGunRecipients(p).value| == |TuplesOf(p.to)| + |TuplesOf(p.cc)| + |TuplesOf(p.bcc)|
  {
    AddressesOfAppend(TuplesOf(p.to), TuplesOf(p.cc));
    AddressesOfAppend(TuplesOf(p.to) + TuplesOf(p.cc), TuplesOf(p.bcc));
  }

  /** The first half of `MailGunMailer.send_message`: gather the to, cc and bcc addresses. */
  method MailGunCollectRecipients(p: SendParams) returns (rs: Outcome<seq<string>>)
    ensures rs == MailGunRecipients(p)
  {
    MailGunRecipientsOrder(p);
    var to := GetNameEmailTuples(p.to);
    rs := ExtendWithAddresses([], to);
    if rs.Crashed? {
      return;
    }
    assert [] + AddressesOf(to).value == AddressesOf(to).value;
    var cc := GetNameEmailTuples(p.cc);
    rs := ExtendWithAddresses(rs.value, cc);
    if rs.Crashed? {
      return;
    }
    var bcc := GetNameEmailTuples(p.bcc);
    rs := ExtendWithAddresses(rs.value, bcc);
  }

  /**
   * `MailGunMailer.send_message`: collect the recipients, post, and on a 200
   * answer (exactly 200) read the records back; any other status raises
   * MailNotSentException with the answer's content and status code.
   */
  method MailGunSend(p: SendParams, response: Http<MailGunSendBody>) returns (out: SendOutcome)
    ensures MailGunRecipients(p).Crashed? ==> out == SendCrashed(TypeErrorNoneTuple)
    ensures MailGunRecipients(p).Done? ==>
      out == PostOutcome(response, (b: MailGunSendBody) => MailGunRecords(b, MailGunRecipients(p).value))
  {
    var rs := MailGunCollectRecipients(p);
    if rs.Crashed? {
      return SendCrashed(rs.crash);
    }
    match response
    case ConnectTimeout =>
      out := TimedOut;
    case TransportError =>
      out := SendCrashed(TransportFailure);
    case Response(code, content, body) =>
      if code == 200 {
        var r := MailGunProcessResponse(body, rs.value);
        assert r == ((b: MailGunSendBody) => MailGunRecords(b, MailGunRecipients(p).value))(body);
        out := if r.Done? then Sent(r.value) else SendCrashed(r.crash);
      } else {
        out := NotSent(content, code);
      }
  }

  /**
   * `MailGunMailer.get_message_status`: the event of the first item, or of
   * `{}` when the answer has no `items`; an empty `items` list raises
   * IndexError. Only ConnectTimeout is caught, and it gives `None`.
   */
  function MailGunGetStatus(reply: Http<MailGunEventsBody>): (r: StatusResult)
    ensures r.Unavailable? <==> reply.ConnectTimeout?
    ensures r.StatusOf? && r.status.Some? ==> ServiceStatus(r.status.value)
    ensures r.StatusOf? ==> reply.Response? && reply.body.MailGunEventsJson?
    ensures reply.TransportError? ==> r == StatusCrashed(TransportFailure)
    ensures reply.Response? && reply.body.MailGunEventsUnparsable? ==> r == StatusCrashed(JsonDecodeError)
    ensures reply.Response? && reply.body.MailGunEventsJson? ==>
      match reply.body.items
      case None => r == StatusOf(None)
      case Some(items) =>
        if |items| == 0 then r == StatusCrashed(IndexErrorEmpty)
        else r == StatusOf(MailGunEventStatus(items[0].event))
  {
    match reply
    case ConnectTimeout => Unavailable
    case TransportError => StatusCrashed(TransportFailure)
    case Response(_, _, body) =>
      match body
      case MailGunEventsUnparsable => StatusCrashed(JsonDecodeError)
      case MailGunEventsJson(items) =>
        if items.None? then StatusOf(MailGunEventStatus(None))
        else if |items.value| == 0 then StatusCrashed(IndexErrorEmpty)
        else StatusOf(MailGunEventStatus(items.value[0].event))
  }

  /** A status is reported exactly when the first item's event is one of the mapped ones. */
  lemma MailGunStatusIffMappedEvent(reply: Http<MailGunEventsBody>)
    ensures (MailGunGetStatus(reply).StatusOf? && MailGunGetStatus(reply).status.Some?) <==>
      reply.Response? && reply.body.MailGunEventsJson? && reply.body.items.Some? && |reply.body.items.value| > 0 &&
      reply.body.items.value[0].event.Some? && reply.body.items.value[0].event.value in MailGunEventStatusMap
    ensures MailGunGetStatus(reply).StatusOf? && MailGunGetStatus(reply).status.Some? ==>
      MailGunGetStatus(reply).status.value == MailGunEventStatusMap[reply.body.items.value[0].event.value]
  {
  }

  /** An answer whose JSON has no `items` key gives `{'status': None}`, whatever else it holds. */
  lemma MailGunNoItemsNoStatus(code: int, content: string)
    ensures MailGunGetStatus(Response(code, content, MailGunEventsJson(None))) == StatusOf(None)
  {
  }

  // ---------------------------------------------------------------------
  // MandrilMailer

  /** `MandrilMailer._event_status_map` */
  const MandrillStateStatusMap: map<string, string> := map[
    "sent" := "sent",
    "bounced" := "failed",
    "rejected" := "failed"]

  /** `self._event_status_map.get(state, 'accepted')` */
  function MandrillStateStatus(state: Option<string>): (r: string)
    ensures ServiceStatus(r)
    ensures r != "accepted" <==> state.Some? && state.value in MandrillStateStatusMap
  {
    if state.Some? && state.value in MandrillStateStatusMap then MandrillStateStatusMap[state.value] else "accepted"
  }

  /** The table: sent is sent, bounced and rejected are failed, anything else, or no state, is accepted. */
  lemma MandrillStateStatusTable(s: string)
    ensures s == "sent" ==> MandrillStateStatus(Some(s)) == "sent"
    ensures s == "bounced" || s == "rejected" ==> MandrillStateStatus(Some(s)) == "failed"
    ensures s != "sent" && s != "bounced" && s != "rejected" ==> MandrillStateStatus(Some(s)) == "accepted"
    ensures MandrillStateStatus(None) == "accepted"
  {
  }

  /** The `type` header of a Mandrill recipient. */
  datatype Header = To | Cc | Bcc

  function HeaderName(h: Header): string
  {
    match h
    case To => "to"
    case Cc => "cc"
    case Bcc => "bcc"
  }

  /** A `{email, name, type}` recipient dict of a Mandrill message. */
  datatype Recipient = Recipient(email: string, name: Option<string>, header: Header)

  /** The `message` dict Mandrill's send posts. */
  datatype MandrillMessage = MandrillMessage(
    text: Option<string>,
    subject: Option<string>,
    fromEmail: string,
    fromName: Option<string>,
    to: seq<Recipient>)

  /** One element of the list a Mandrill `/messages/send.json` answer holds. */
  datatype MandrillItem = MandrillItem(email: Option<string>, id: Option<string>)

  datatype MandrillSendBody = MandrillSendUnparsable | MandrillSendJson(items: seq<MandrillItem>)

  /** The parsed content of a Mandrill `/messages/info.json` answer: its `state`, if present. */
  datatype MandrillInfoBody = MandrillInfoUnparsable | MandrillInfoJson(state: Option<string>)

  /**
   * The recipient dicts for a list of tuples under one header, or the
   * TypeError the first `None` tuple raises when it is unpacked.
   */
  function RecipientsOf(t: seq<Option<NameEmail>>, h: Header): (r: Outcome<seq<Recipient>>)
    ensures r.Done? <==> forall k :: 0 <= k < |t| ==> t[k].Some?
    ensures r.Done? ==> |r.value| == |t|
    ensures r.Done? ==> forall k :: 0 <= k < |t| ==> r.value[k] == Recipient(t[k].value.email, t[k].value.name, h)
    ensures r.Crashed? ==> r.crash == TypeErrorNoneTuple
    decreases |t|
  {
    if t == [] then Done([])
    else
      match RecipientsOf(t[..|t| - 1], h)
      case Crashed(c) => Crashed(c)
      case Done(a) =>
        if t[|t| - 1].Some? then Done(a + [Recipient(t[|t| - 1].value.email, t[|t| - 1].value.name, h)])
        else Crashed(TypeErrorNoneTuple)
  }

  /** `MandrilMailer._get_recepients_list`: `None` gives `[]`, otherwise one dict per tuple. */
  method GetRecipientsList(tuples: Option<seq<Option<NameEmail>>>, h: Header) returns (r: Outcome<seq<Recipient>>)
    ensures tuples.None? ==> r == Done([])
    ensures tuples.Some? ==> r == RecipientsOf(tuples.value, h)
  {
    if tuples.None? {
      return Done([]);
    }
    var t := tuples.value;
    var list: seq<Recipient> := [];
    var i := 0;
    while i < |t|
      invariant 0 <= i <= |t|
      invariant RecipientsOf(t[..i], h) == Done(list)
    {
      RecipientsOfStep(t, i, h);
      if t[i].None? {
        RecipientsOfCrashesFromPrefix(t, i + 1, h);
        return Crashed(TypeErrorNoneTuple);
      }
      list := list + [Recipient(t[i].value.email, t[i].value.name, h)];
      i := i + 1;
    }
    assert t[..i] == t;
    r := Done(list);
  }

  /** One more tuple: its recipient is appended, or a `None` crashes the list. */
  lemma RecipientsOfStep(t: seq<Option<NameEmail>>, i: nat, h: Header)
    requires i < |t| && RecipientsOf(t[..i], h).Done?
    ensures t[i].None? ==> RecipientsOf(t[..i + 1], h).Crashed?
    ensures t[i].Some? ==>
              RecipientsOf(t[..i + 1], h) == Done(RecipientsOf(t[..i], h).value + [Recipient(t[i].value.email, t[i].value.name, h)])
  {
    assert t[..i + 1][..i] == t[..i];
    assert t[..i + 1][i] == t[i];
  }

  lemma RecipientsOfCrashesFromPrefix(t: seq<Option<NameEmail>>, i: nat, h: Header)
    requires i <= |t| && RecipientsOf(t[..i], h).Crashed?
    ensures RecipientsOf(t, h) == Crashed(TypeErrorNoneTuple)
  {
    var k :| 0 <= k < i && !t[..i][k].Some?;
    assert t[k] == t[..i][k];
  }

  /** The combined `to` list of a Mandrill message: the to, cc and bcc recipients in that order. */
  function MandrillRecipients(p: SendParams): (r: Outcome<seq<Recipient>>)
    ensures r.Done? <==>
      RecipientsOf(TuplesOf(p.to), To).Done? && RecipientsOf(TuplesOf(p.cc), Cc).Done? && RecipientsOf(TuplesOf(p.bcc), Bcc).Done?
    ensures r.Done? ==> |r.value| == |TuplesOf(p.to)| + |TuplesOf(p.cc)| + |TuplesOf(p.bcc)|
    ensures r.Done? ==> forall k :: 0 <= k < |r.value| ==>
      r.value[k].header == (if k < |TuplesOf(p.to)| then To else if k < |TuplesOf(p.to)| + |TuplesOf(p.cc)| then Cc else Bcc)
    ensures r.Crashed? ==> r.crash == TypeErrorNoneTuple
  {
    match RecipientsOf(TuplesOf(p.to), To)
    case Crashed(c) => Crashed(c)
    case Done(a) =>
      match RecipientsOf(TuplesOf(p.cc), Cc)
      case Crashed(c) => Crashed(c)
      case Done(b) =>
        match RecipientsOf(TuplesOf(p.bcc), Bcc)
        case Crashed(c) => Crashed(c)
        case Done(c) => Done(a + b + c)
  }

  /** Entry `k` of the combined list carries the address and name of the `k`-th to, cc or bcc tuple. */
  lemma MandrillRecipientsEntries(p: SendParams)
    requires MandrillRecipients(p).Done?
    ensures var r := MandrillRecipients(p).value;
      var all := TuplesOf(p.to) + TuplesOf(p.cc) + TuplesOf(p.bcc);
      |r| == |all| && forall k :: 0 <= k < |r| ==>
        all[k].Some? && r[k].email == all[k].value.email && r[k].name == all[k].value.name
  {
    var t1, t2, t3 := TuplesOf(p.to), TuplesOf(p.cc), TuplesOf(p.bcc);
    var a, b, c := RecipientsOf(t1, To).value, RecipientsOf(t2, Cc).value, RecipientsOf(t3, Bcc).value;
    assert MandrillRecipients(p).value == a + b + c;
    ConcatEntries(t1, t2, t3, a, b, c);
  }

  /** Three recipient lists built from three tuple lists, joined, line up with the joined tuples. */
  lemma ConcatEntries(t1: seq<Option<NameEmail>>, t2: seq<Option<NameEmail>>, t3: seq<Option<NameEmail>>,
                      a: seq<Recipient>, b: seq<Recipient>, c: seq<Recipient>)
    requires |a| == |t1| && forall k :: 0 <= k < |t1| ==> t1[k].Some? && a[k].email == t1[k].value.email && a[k].name == t1[k].value.name
    requires |b| == |t2| && forall k :: 0 <= k < |t2| ==> t2[k].Some? && b[k].email == t2[k].value.email && b[k].name == t2[k].value.name
    requires |c| == |t3| && forall k :: 0 <= k < |t3| ==> t3[k].Some? && c[k].email == t3[k].value.email && c[k].name == t3[k].value.name
    ensures var r, all := a + b + c, t1 + t2 + t3;
      |r| == |all| && forall k :: 0 <= k < |r| ==>
        all[k].Some? && r[k].email == all[k].value.email && r[k].name == all[k].value.name
  {
    var r, all := a + b + c, t1 + t2 + t3;
    forall k | 0 <= k < |r|
      ensures all[k].Some? && r[k].email == all[k].value.email && r[k].name == all[k].value.name
    {
      if k < |t1| {
        assert r[k] == a[k] && all[k] == t1[k];
      } else if k < |t1| + |t2| {
        assert r[k] == b[k - |t1|] && all[k] == t2[k - |t1|];
      } else {
        assert r[k] == c[k - |t1| - |t2|] && all[k] == t3[k - |t1| - |t2|];
      }
    }
  }

  /** The message Mandrill's send builds, or the TypeError a `None` tuple raises. */
  function MandrillMessageFor(p: SendParams): (r: Outcome<MandrillMessage>)
    ensures r.Done? <==> GetNameEmailTuple(p.fromEmail).Some? && MandrillRecipients(p).Done?
    ensures r.Done? ==> r.value.fromEmail == GetNameEmailTuple(p.fromEmail).value.email
    ensures r.Done? ==> r.value.fromName == GetNameEmailTuple(p.fromEmail).value.name
    ensures r.Done? ==> r.value.to == MandrillRecipients(p).value
    ensures r.Done? ==> r.value.text == p.text && r.value.subject == p.subject
    ensures r.Crashed? ==> r.crash == TypeErrorNoneTuple
  {
    match GetNameEmailTuple(p.fromEmail)
    case None => Crashed(TypeErrorNoneTuple)
    case Some(from) =>
      match MandrillRecipients(p)
      case Crashed(c) => Crashed(c)
      case Done(rs) => Done(MandrillMessage(p.text, p.subject, from.email, from.name, rs))
  }

  /**
   * What `MandrilMailer._process_response` returns or raises: one record per
   * element of the answer, copying `email` and `_id`; the first element
   * missing one of them raises KeyError (`email` is read first).
   */
  function MandrillRecords(items: seq<MandrillItem>): (r: Outcome<seq<MessageInfo>>)
    ensures r.Done? <==> forall k :: 0 <= k < |items| ==> items[k].email.Some? && items[k].id.Some?
    ensures r.Done? ==> |r.value| == |items|
    ensures r.Done? ==> forall k :: 0 <= k < |items| ==> r.value[k] == MessageInfo(items[k].email.value, items[k].id.value)
    ensures r.Crashed? ==> r.crash == KeyErrorMissing("email") || r.crash == KeyErrorMissing("_id")
    decreases |items|
  {
    if items == [] then Done([])
    else
      match MandrillRecords(items[..|items| - 1])
      case Crashed(c) => Crashed(c)
      case Done(a) =>
        var last := items[|items| - 1];
        if last.email.None? then Crashed(KeyErrorMissing("email"))
        else if last.id.None? then Crashed(KeyErrorMissing("_id"))
        else Done(a + [MessageInfo(last.email.value, last.id.value)])
  }

  /** What reading a Mandrill send answer's body gives. */
  function MandrillBodyRecords(body: MandrillSendBody): Outcome<seq<MessageInfo>>
  {
    match body
    case MandrillSendUnparsable => Crashed(JsonDecodeError)
    case MandrillSendJson(items) => MandrillRecords(items)
  }

  /** `MandrilMailer._process_response` */
  method MandrillProcessResponse(body: MandrillSendBody) returns (r: Outcome<seq<MessageInfo>>)
    ensures r == MandrillBodyRecords(body)
  {
    if body.MandrillSendUnparsable? {
      return Crashed(JsonDecodeError);
    }
    var items := body.items;
    var infos: seq<MessageInfo> := [];
    var i := 0;
    while i < |items|
      invariant 0 <= i <= |items|
      invariant MandrillRecords(items[..i]) == Done(infos)
    {
      assert items[..i + 1][..i] == items[..i];
      if items[i].email.None? {
        MandrillRecordsPrefixCrash(items, i + 1);
        return Crashed(KeyErrorMissing("email"));
      }
      if items[i].id.None? {
        MandrillRecordsPrefixCrash(items, i + 1);
        return Crashed(KeyErrorMissing("_id"));
      }
      infos := infos + [MessageInfo(items[i].email.value, items[i].id.value)];
      i := i + 1;
    }
    assert items[..i] == items;
    r := Done(infos);
  }

  /** Once a prefix raises, the whole list raises the same. */
  lemma {:induction false} MandrillRecordsPrefixCrash(items: seq<MandrillItem>, j: nat)
    requires j <= |items| && MandrillRecords(items[..j]).Crashed?
    ensures MandrillRecords(items) == MandrillRecords(items[..j])
    decreases |items|
  {
    if j == |items| {
      assert items[..j] == items;
    } else {
      var pre := items[..|items| - 1];
      assert pre[..j] == items[..j];
      MandrillRecordsPrefixCrash(pre, j);
    }
  }

  /**
   * `MandrilMailer.send_message`: parse the sender, build the combined
   * recipient list, post the message, and on a 200 answer (exactly 200) read
   * the records back; any other status raises MailNotSentException. Also
   * returns the message that was posted, if the send got that far.
   */
  method MandrillSend(p: SendParams, response: Http<MandrillSendBody>) returns (posted: Option<MandrillMessage>, out: SendOutcome)
    ensures MandrillMessageFor(p).Crashed? ==> posted == None && out == SendCrashed(TypeErrorNoneTuple)
    ensures MandrillMessageFor(p).Done? ==> posted == Some(MandrillMessageFor(p).value)
    ensures MandrillMessageFor(p).Done? ==> out == PostOutcome(response, MandrillBodyRecords)
  {
    posted := None;
    var from := GetNameEmailTuple(p.fromEmail);
    if from.None? {
      return None, SendCrashed(TypeErrorNoneTuple);
    }
    var to := GetNameEmailTuples(p.to);
    var cc := GetNameEmailTuples(p.cc);
    var bcc := GetNameEmailTuples(p.bcc);
    var r1 := GetRecipientsList(Some(to), To);
    if r1.Crashed? {
      return None, SendCrashed(r1.crash);
    }
    var r2 := GetRecipientsList(Some(cc), Cc);
    if r2.Crashed? {
      return None, SendCrashed(r2.crash);
    }
    var r3 := GetRecipientsList(Some(bcc), Bcc);
    if r3.Crashed? {
      return None, SendCrashed(r3.crash);
    }
    var message := MandrillMessage(p.text, p.subject, from.value.email, from.value.name, r1.value + r2.value + r3.value);
    posted := Some(message);
    match response
    case ConnectTimeout =>
      out := TimedOut;
    case TransportError =>
      out := SendCrashed(TransportFailure);
    case Response(code, content, body) =>
      if code == 200 {
        var r := MandrillProcessResponse(body);
        out := if r.Done? then Sent(r.value) else SendCrashed(r.crash);
      } else {
        out := NotSent(content, code);
      }
  }

  /**
   * `MandrilMailer.get_message_status`: the mapped state, `'accepted'` when
   * it is unmapped or absent; only ConnectTimeout is caught, giving `None`.
   */
  function MandrillGetStatus(reply: Http<MandrillInfoBody>): (r: StatusResult)
    ensures r.Unavailable? <==> reply.ConnectTimeout?
    ensures r.StatusOf? <==> reply.Response? && reply.body.MandrillInfoJson?
    ensures r.StatusOf? ==> r.status.Some? && ServiceStatus(r.status.value)
    ensures r.StatusOf? ==> (r.status.value == "accepted" <==> !(reply.body.state.Some? && reply.body.state.value in MandrillStateStatusMap))
    ensures reply.Response? && reply.body.MandrillInfoJson? ==> r == StatusOf(Some(MandrillStateStatus(reply.body.state)))
    ensures reply.TransportError? ==> r == StatusCrashed(TransportFailure)
    ensures reply.Response? && reply.body.MandrillInfoUnparsable? ==> r == StatusCrashed(JsonDecodeError)
  {
    match reply
    case ConnectTimeout => Unavailable
    case TransportError => StatusCrashed(TransportFailure)
    case Response(_, _, body) =>
      match body
      case MandrillInfoUnparsable => StatusCrashed(JsonDecodeError)
      case MandrillInfoJson(state) => StatusOf(Some(MandrillStateStatus(state)))
  }

  /** `mailer.get_message_status(message_info)`, dispatched on the mailer's class; each mailer gets its own answer. */
  function GetMessageStatus(k: MailerKind, mailGunReply: Http<MailGunEventsBody>, mandrillReply: Http<MandrillInfoBody>): (r: StatusResult)
    ensures k == MailGun ==> r == MailGunGetStatus(mailGunReply)
    ensures k == Mandrill ==> r == MandrillGetStatus(mandrillReply)
  {
    match k
    case MailGun => MailGunGetStatus(mailGunReply)
    case Mandrill => MandrillGetStatus(mandrillReply)
  }
}
