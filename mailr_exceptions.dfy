// mailrexceptions.py: the exception raised for invalid input, with the dict
// it turns into for the error response, and the one a mailer raises when
// its provider refuses a message.

module MailrExceptions {
  import opened Values

  /** A Python dict from strings to JSON values: an object, shared by whoever holds it. */
  class Dict {
    var entries: map<string, Json>

    constructor (m: map<string, Json>)
      ensures entries == m
    {
      entries := m;
    }

    /** `d[key] = value` */
    method Put(key: string, value: Json)
      modifies this
      ensures entries == old(entries)[key := value]
    {
      entries := entries[key := value];
    }
  }

  /**
   * The entries `to_dict` produces from a payload: every key of the payload
   * other than `message` with its value, and `message` set to the message.
   */
  function ExceptionDict(message: string, payload: map<string, Json>): (d: map<string, Json>)
    ensures "message" in d && d["message"] == JStr(message)
    ensures forall k :: k != "message" ==> (k in d <==> k in payload)
    ensures forall k :: k in payload && k != "message" ==> d[k] == payload[k]
  {
    payload["message" := JStr(message)]
  }

  /** Without a payload the dict holds the message and nothing else. */
  lemma ExceptionDictWithoutPayload(message: string)
    ensures ExceptionDict(message, map[]).Keys == {"message"}
    ensures ExceptionDict(message, map[])["message"] == JStr(message)
  {
  }

  /** Asking twice gives the same dict: `message` is simply set again. */
  lemma ExceptionDictIdempotent(message: string, payload: map<string, Json>)
    ensures ExceptionDict(message, ExceptionDict(message, payload)) == ExceptionDict(message, payload)
  {
  }

  /** The class attribute `InvalidInputException.status_code`. */
  const DefaultStatusCode: int := 400

  /** `InvalidInputException` */
  class InvalidInputException {
    var message: string
    var statusCode: int
    var payload: Dict?

    /** `__init__(message, status_code=None, payload=None)` */
    constructor (message: string, statusCode: Option<int>, payload: Dict?)
      ensures this.message == message
      ensures statusCode.None? ==> this.statusCode == DefaultStatusCode
      ensures statusCode.Some? ==> this.statusCode == statusCode.value
      ensures this.payload == payload
    {
      this.message := message;
      this.statusCode := if statusCode.Some? then statusCode.value else DefaultStatusCode;
      this.payload := payload;
    }

    /**
     * `to_dict`: `self.payload or {}` takes the stored payload when it is a
     * non-empty dict, and a new empty dict otherwise; `message` is then set
     * in it. A non-empty payload is therefore changed in place and returned
     * itself; an empty one is left alone.
     */
    method ToDict() returns (d: Dict)
      modifies if payload != null then {payload} else {}
      ensures payload != null && |old(payload.entries)| > 0 ==> d == payload
      ensures !(payload != null && |old(payload.entries)| > 0) ==> fresh(d)
      ensures payload != null ==> d.entries == ExceptionDict(message, old(payload.entries))
      ensures payload == null ==> d.entries == ExceptionDict(message, map[])
      ensures payload != null && |old(payload.entries)| == 0 ==> payload.entries == old(payload.entries)
    {
      if payload != null && |payload.entries| > 0 {
        d := payload;
      } else {
        d := new Dict(map[]);
      }
      d.Put("message", JStr(message));
    }
  }

  /**
   * `MailNotSentException`. The mailers' sends return the value
   * `NotSent(message, statusCode)` where the Python code raises this exception;
   * `ExceptionOfNotSent` gives the object that value stands for.
   */
  class MailNotSentException {
    var message: string
    var statusCode: int

    /** `__init__(message, status_code)`: both kept as given. */
    constructor (message: string, statusCode: int)
      ensures this.message == message && this.statusCode == statusCode
    {
      this.message := message;
      this.statusCode := statusCode;
    }
  }

  /** The exception a refused send raises, built from the response's content and status code. */
  method ExceptionOfNotSent(o: SendOutcome) returns (e: MailNotSentException)
    requires o.NotSent?
    ensures fresh(e)
    ensures e.message == o.message && e.statusCode == o.statusCode
  {
    e := new MailNotSentException(o.message, o.statusCode);
  }
}
