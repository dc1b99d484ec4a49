/** The message decoder of the MQTT notification bridge: what `on_message` does
    with a payload before it touches the display surface. The JSON parse is an
    input here: a payload is either not valid JSON, or a JSON object whose
    members are scalar values. */
module Payload {

  /** A scalar JSON value as `json.loads` returns it; `Null` is Python's `None`. */
  datatype Value = Null | Boolean(b: bool) | Number(n: int) | Text(s: string)

  /** The outcome of parsing one payload. */
  datatype Parsed = Invalid | Object(fields: map<string, Value>)

  /** What is left of a payload once it is accepted: the pair shown to the
      user and the optional attributes, `Null` where the payload had none. */
  datatype Request = Request(summary: Value, body: Value, tag: Value,
                             category: Value, timeout: Value, urgency: Value)

  datatype DropReason = NotJson | NoMessage

  datatype Decoded = Accepted(request: Request) | Dropped(reason: DropReason)

  /** The keys `on_message` defaults to `None`, in the order it visits them. */
  const Recognised: seq<string> := ["title", "message", "tag", "category", "timeout", "urgency"]

  const RecognisedKeys: set<string> := set k | k in Recognised

  /** `payload.get(key)`: a missing key reads as `None`. */
  function Get(fields: map<string, Value>, key: string): Value {
    if key in fields then fields[key] else Null
  }

  /** The payload after every recognised key has been given a default. */
  function Padded(fields: map<string, Value>): map<string, Value> {
    map k | k in fields.Keys + RecognisedKeys :: Get(fields, k)
  }

  /** Two payloads that `on_message` cannot tell apart: they agree on every
      recognised key once absent keys read as `None`. */
  predicate SamePayload(f: map<string, Value>, g: map<string, Value>) {
    forall k | k in RecognisedKeys :: Get(f, k) == Get(g, k)
  }

  /** The `setdefault` loop: every recognised key that is missing is added
      with `None`, and nothing already present is overwritten. */
  method SetDefaults(payload: map<string, Value>) returns (padded: map<string, Value>)
    ensures padded.Keys == payload.Keys + RecognisedKeys
    ensures forall k | k in payload :: padded[k] == payload[k]
    ensures forall k | k in padded && k !in payload :: padded[k] == Null
    ensures padded == Padded(payload)
  {
    padded := payload;
    for i := 0 to |Recognised|
      invariant padded.Keys == payload.Keys + (set j | 0 <= j < i :: Recognised[j])
      invariant forall k | k in payload :: padded[k] == payload[k]
      invariant forall k | k in padded && k !in payload :: padded[k] == Null
    {
      if Recognised[i] !in padded {
        padded := padded[Recognised[i] := Null];
      }
    }
    assert (set j | 0 <= j < |Recognised| :: Recognised[j]) == RecognisedKeys;
  }

  /** The drop rule and the choice of summary and body, on a defaulted payload. */
  function Select(padded: map<string, Value>): Decoded
    requires RecognisedKeys <= padded.Keys
  {
    if padded["message"] == Null then Dropped(NoMessage)
    else
      var summary := if padded["title"] != Null then padded["title"] else padded["message"];
      var body := if padded["title"] != Null then padded["message"] else Null;
      Accepted(Request(summary, body, padded["tag"], padded["category"],
                       padded["timeout"], padded["urgency"]))
  }

  /** What `on_message` makes of a parsed payload. Only a `None` message is
      dropped: an empty string is shown like any other. */
  function Decode(p: Parsed): (d: Decoded)
    ensures d == Dropped(NotJson) <==> p.Invalid?
    ensures d == Dropped(NoMessage) <==> p.Object? && Get(p.fields, "message") == Null
    ensures d.Accepted? ==> d.request.summary != Null
    ensures d.Accepted? && Get(p.fields, "title") != Null ==>
      d.request.summary == Get(p.fields, "title") && d.request.body == Get(p.fields, "message")
    ensures d.Accepted? && Get(p.fields, "title") == Null ==>
      d.request.summary == Get(p.fields, "message") && d.request.body == Null
    ensures d.Accepted? ==>
      && d.request.tag == Get(p.fields, "tag")
      && d.request.category == Get(p.fields, "category")
      && d.request.timeout == Get(p.fields, "timeout")
      && d.request.urgency == Get(p.fields, "urgency")
  {
    match p
    case Invalid => Dropped(NotJson)
    case Object(fields) => Select(Padded(fields))
  }

  /** A payload that asks for `r`, as a publisher would write it: the reference
      point against which `Decode` is shown to lose nothing. */
  function Encode(r: Request): map<string, Value> {
    var text := if r.body == Null then map["message" := r.summary]
                else map["title" := r.summary, "message" := r.body];
    text + map["tag" := r.tag, "category" := r.category,
               "timeout" := r.timeout, "urgency" := r.urgency]
  }

  /** Keys other than the six recognised ones, and the difference between an
      absent key and an explicit `null`, never change the outcome. */
  lemma IgnoresUnrecognisedKeys(f: map<string, Value>, g: map<string, Value>)
    requires SamePayload(f, g)
    ensures Decode(Object(f)) == Decode(Object(g))
  {
  }

  /** Every request with something to show is decoded back from its payload. */
  lemma DecodeEncode(r: Request)
    requires r.summary != Null
    ensures Decode(Object(Encode(r))) == Accepted(r)
  {
  }

  /** An accepted payload is recovered from its request on every recognised key. */
  lemma EncodeRecoversPayload(f: map<string, Value>, r: Request)
    requires Decode(Object(f)) == Accepted(r)
    ensures SamePayload(Encode(r), f)
  {
  }

  /** An empty message is not `None`, so it is shown. */
  lemma EmptyMessageIsShown()
    ensures Decode(Object(map["message" := Text("")])) ==
            Accepted(Request(Text(""), Null, Null, Null, Null, Null))
  {
  }

  /** The key a value stands for in a Python dict: `True` and `1` are one key,
      and so are `False` and `0`. */
  function DictKey(v: Value): (k: Value)
    ensures !k.Boolean? && PyEq(v, k)
    ensures k == Null <==> v == Null
  {
    match v
    case Boolean(b) => Number(if b then 1 else 0)
    case _ => v
  }

  /** Python's `==` on scalar JSON values. */
  predicate PyEq(a: Value, b: Value) {
    match (a, b)
    case (Boolean(x), Number(n)) => n == (if x then 1 else 0)
    case (Number(n), Boolean(x)) => n == (if x then 1 else 0)
    case _ => a == b
  }

  /** Two tags find the same registry entry exactly when Python holds them equal. */
  lemma DictKeyIsEquality(a: Value, b: Value)
    ensures DictKey(a) == DictKey(b) <==> PyEq(a, b)
  {
  }
}
