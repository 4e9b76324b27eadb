/**
 * The telemetry client: `TelemetryClient.init` and `TelemetryClient.trackEvent`,
 * configured by `TelemetryConfig`.
 *
 * The HTTP call is replaced by an append-only outbox: every request the
 * client would hand to the HTTP client for asynchronous sending is appended
 * to `outbox`, in the order the calls are made.
 */
module Telemetry {
  import opened Optional

  /** An attribute or payload value, as `JSONObject.put` sees it. */
  datatype Value =
    | Str(s: string)
    | Number(n: int)
    | Bool(b: bool)
    | NonFiniteNumber  // NaN or an infinity: `put` throws `JSONException`
    | Null             // Kotlin `null`: `put` removes the key

  /** The three values of `TelemetryConfig`. */
  datatype Config = Config(apiKey: string, datasetName: string, apiHost: string)

  /** One HTTP request handed to the transport: URL, headers, body media type
      and the JSON body as a key-value map. */
  datatype Request = Request(url: string, headers: map<string, string>, contentType: string, payload: map<string, Value>)

  /** An event as passed to `trackEvent`. */
  datatype Event = Event(name: string, attributes: map<string, Value>)

  const PlaceholderApiKey := "YOUR_API_KEY_HERE"
  const PlaceholderDatasetName := "YOUR_DATASET_NAME_HERE"

  /** The configuration the repository ships with. */
  const ShippedConfig := Config(PlaceholderApiKey, PlaceholderDatasetName, "https://api.honeycomb.io")

  const TeamHeader := "X-Honeycomb-Team"
  const JsonContentType := "application/json"
  const EventTypeKey := "event_type"

  /** The event `init` sends once it is enabled. */
  const StartupEvent := Event("startup", map["platform" := Str("android")])

  /** `init`'s check: neither credential is still the placeholder. */
  predicate IsConfigured(c: Config) {
    c.apiKey != PlaceholderApiKey && c.datasetName != PlaceholderDatasetName
  }

  /** The Honeycomb events endpoint of the configured dataset. */
  function EventsUrl(c: Config): string {
    c.apiHost + "/1/events/" + c.datasetName
  }

  /** Every attribute value can be put into a `JSONObject` without an exception. */
  predicate Serializable(attrs: map<string, Value>) {
    forall k | k in attrs :: attrs[k] != NonFiniteNumber
  }

  /** One `JSONObject.put(key, v)`: fails on a non-finite number, removes the
      key for `null`, and otherwise maps the key to `v`. */
  function Put(json: map<string, Value>, key: string, v: Value): (r: Option<map<string, Value>>)
    ensures r.None? <==> v == NonFiniteNumber
    ensures r.Some? ==> forall k :: k != key ==> (k in r.value <==> k in json)
    ensures r.Some? ==> forall k :: k != key && k in json ==> r.value[k] == json[k]
    ensures r.Some? ==> (key in r.value <==> v != Null)
    ensures r.Some? && v != Null ==> r.value[key] == v
  {
    if v == NonFiniteNumber then None
    else if v == Null then Some(json - {key})
    else Some(json[key := v])
  }

  /** The payload `trackEvent` builds: `event_type` first, then every attribute
      as a top-level field, so an attribute named `event_type` overrides the
      event name and a `null` attribute is absent. */
  function Payload(name: string, attrs: map<string, Value>): (p: map<string, Value>)
    ensures forall k :: k in p <==> (k in attrs && attrs[k] != Null) || (k == EventTypeKey && k !in attrs)
    ensures forall k :: k in attrs && attrs[k] != Null ==> p[k] == attrs[k]
    ensures EventTypeKey !in attrs ==> p[EventTypeKey] == Str(name)
  {
    map k | k in {EventTypeKey} + attrs.Keys && (k in attrs ==> attrs[k] != Null)
      :: if k in attrs then attrs[k] else Str(name)
  }

  /** The attributes whose keys are in `ks`. */
  function Restrict(attrs: map<string, Value>, ks: set<string>): (r: map<string, Value>)
    ensures r.Keys == attrs.Keys * ks
    ensures forall k :: k in r ==> r[k] == attrs[k]
  {
    map k | k in attrs && k in ks :: attrs[k]
  }

  /** Before any attribute is put, the payload holds only the event name. */
  lemma PayloadOfNoAttributes(name: string, attrs: map<string, Value>)
    ensures Payload(name, Restrict(attrs, {})) == map[EventTypeKey := Str(name)]
  {
    assert Restrict(attrs, {}) == map[];
  }

  lemma RestrictToAllKeys(attrs: map<string, Value>)
    ensures Restrict(attrs, attrs.Keys) == attrs
  {
  }

  /** Putting one more attribute onto the payload of the attributes seen so far
      gives the payload of the attributes seen so far and that one; so the
      order in which the attributes are put does not matter. */
  lemma PutNextAttribute(name: string, attrs: map<string, Value>, done: set<string>, k: string)
    requires k in attrs && k !in done && attrs[k] != NonFiniteNumber
    ensures Put(Payload(name, Restrict(attrs, done)), k, attrs[k]) == Some(Payload(name, Restrict(attrs, done + {k})))
  {
    var before, after := Restrict(attrs, done), Restrict(attrs, done + {k});
    var p0, p := Payload(name, before), Payload(name, after);
    var r := Put(p0, k, attrs[k]);
    assert r.Some?;
    var m := r.value;
    forall j ensures j in m <==> j in p {
      if j != k {
        assert j in attrs && j in done <==> j in attrs && j in done + {k};
      }
    }
    forall j | j in p ensures m[j] == p[j] {
      if j != k {
        assert j in attrs && j in done <==> j in attrs && j in done + {k};
      }
    }
    assert m == p;
  }

  /** The `JSONObject().apply { put("event_type", name); attributes.forEach { put } }`
      block: `None` when a `put` throws, otherwise the payload. */
  method BuildPayload(name: string, attrs: map<string, Value>) returns (json: Option<map<string, Value>>)
    ensures json.Some? <==> Serializable(attrs)
    ensures json.Some? ==> json.value == Payload(name, attrs)
  {
    var obj := map[EventTypeKey := Str(name)];
    var pending := attrs.Keys;
    ghost var done: set<string> := {};
    PayloadOfNoAttributes(name, attrs);
    while pending != {}
      invariant pending <= attrs.Keys && done == attrs.Keys - pending
      invariant forall j | j in done :: attrs[j] != NonFiniteNumber
      invariant obj == Payload(name, Restrict(attrs, done))
      decreases |pending|
    {
      var k :| k in pending;
      var next := Put(obj, k, attrs[k]);
      if next.None? {
        return None;
      }
      PutNextAttribute(name, attrs, done, k);
      obj := next.value;
      pending := pending - {k};
      done := done + {k};
    }
    RestrictToAllKeys(attrs);
    return Some(obj);
  }

  /** The request `trackEvent` hands to the transport for a given payload. */
  function EventRequest(c: Config, payload: map<string, Value>): Request {
    Request(EventsUrl(c), map[TeamHeader := c.apiKey], JsonContentType, payload)
  }

  /** A request for configuration `c`: its URL and team header come from `c`. */
  predicate AddressedTo(c: Config, r: Request) {
    r.url == EventsUrl(c) && TeamHeader in r.headers && r.headers[TeamHeader] == c.apiKey
    && r.contentType == JsonContentType
  }

  /** What one `trackEvent(name, attrs)` on an enabled client sends: one request,
      or nothing when building the payload throws (the exception is caught). */
  function Emitted(c: Config, e: Event): (rs: seq<Request>)
    ensures |rs| <= 1
    ensures rs != [] <==> Serializable(e.attributes)
    ensures rs != [] ==> AddressedTo(c, rs[0]) && rs[0].payload == Payload(e.name, e.attributes)
  {
    if Serializable(e.attributes) then [EventRequest(c, Payload(e.name, e.attributes))] else []
  }

  /** Everything an enabled client sends for the events `es`, in order. */
  function Sent(c: Config, es: seq<Event>): (rs: seq<Request>)
    ensures |rs| <= |es|
    ensures forall i :: 0 <= i < |rs| ==> AddressedTo(c, rs[i])
  {
    if es == [] then [] else Emitted(c, es[0]) + Sent(c, es[1..])
  }

  /** Sending one more event appends what that event emits. */
  lemma {:induction false} SentAppend(c: Config, es: seq<Event>, e: Event)
    ensures Sent(c, es + [e]) == Sent(c, es) + Emitted(c, e)
  {
    if es == [] {
      assert [] + [e] == [e];
      assert [e][1..] == [];
    } else {
      assert (es + [e])[0] == es[0];
      assert (es + [e])[1..] == es[1..] + [e];
      SentAppend(c, es[1..], e);
    }
  }

  /** The number of requests sent is the number of events whose attributes serialize. */
  function SerializableCount(es: seq<Event>): nat {
    if es == [] then 0 else (if Serializable(es[0].attributes) then 1 else 0) + SerializableCount(es[1..])
  }

  lemma {:induction false} SentCount(c: Config, es: seq<Event>)
    ensures |Sent(c, es)| == SerializableCount(es)
  {
    if es != [] {
      SentCount(c, es[1..]);
    }
  }

  /** The startup event always serializes, and its payload is exactly
      `event_type = "startup"` and `platform = "android"`. */
  lemma StartupPayload()
    ensures Serializable(StartupEvent.attributes)
    ensures Payload(StartupEvent.name, StartupEvent.attributes)
      == map[EventTypeKey := Str("startup"), "platform" := Str("android")]
  {
    var p := Payload(StartupEvent.name, StartupEvent.attributes);
    var q := map[EventTypeKey := Str("startup"), "platform" := Str("android")];
    assert EventTypeKey != "platform";
    forall k ensures k in p <==> k in q {
    }
  }

  /** The shipped configuration still holds the placeholders, so it is not configured. */
  lemma ShippedConfigIsUnconfigured()
    ensures !IsConfigured(ShippedConfig)
  {
  }

  /** The `TelemetryClient` object, over a fixed configuration. */
  class TelemetryClient {
    const config: Config
    var initialized: bool
    /** Requests handed to the transport, oldest first. */
    var outbox: seq<Request>

    /** The client is enabled only when configured, and sends only to the
        configured endpoint with the configured key. */
    ghost predicate Valid()
      reads this
    {
      && (initialized ==> IsConfigured(config))
      && (outbox != [] ==> IsConfigured(config))
      && forall i :: 0 <= i < |outbox| ==> AddressedTo(config, outbox[i])
    }

    constructor(c: Config)
      ensures config == c && !initialized && outbox == []
      ensures Valid()
    {
      config := c;
      initialized := false;
      outbox := [];
    }

    /** `init`: enabled exactly when configured; once enabled, sends the
        startup event. */
    method Init()
      requires Valid()
      modifies this
      ensures Valid()
      ensures initialized == IsConfigured(config)
      ensures outbox == old(outbox) + (if initialized then Emitted(config, StartupEvent) else [])
    {
      if config.apiKey == PlaceholderApiKey || config.datasetName == PlaceholderDatasetName {
        initialized := false;
        return;
      }
      initialized := true;
      TrackEvent(StartupEvent.name, StartupEvent.attributes);
    }

    /** `trackEvent`: a no-op while not enabled; otherwise sends the event,
        unless building its payload throws, in which case nothing is sent and
        nothing is reported to the caller. */
    method TrackEvent(name: string, attributes: map<string, Value>)
      requires Valid()
      modifies this`outbox
      ensures Valid()
      ensures outbox == old(outbox) + (if initialized then Emitted(config, Event(name, attributes)) else [])
      ensures initialized && Serializable(attributes) ==>
        && |outbox| == |old(outbox)| + 1
        && AddressedTo(config, outbox[|outbox| - 1])
        && outbox[|outbox| - 1].payload == Payload(name, attributes)
    {
      if !initialized {
        return;
      }
      var json := BuildPayload(name, attributes);
      if json.None? {
        return;
      }
      var request := EventRequest(config, json.value);
      outbox := outbox + [request];
    }
  }

  /** What a client sends over its lifetime when `init` is called once and
      then `trackEvent` once per event. */
  function SessionOutbox(c: Config, es: seq<Event>): seq<Request> {
    if IsConfigured(c) then Sent(c, [StartupEvent] + es) else []
  }

  /** Runs a fresh client: `init`, then one `trackEvent` per event; returns the outbox. */
  method Session(c: Config, es: seq<Event>) returns (sent: seq<Request>)
    ensures sent == SessionOutbox(c, es)
  {
    var client := new TelemetryClient(c);
    client.Init();
    if IsConfigured(c) {
      assert client.outbox == Sent(c, [StartupEvent]);
    }
    var i := 0;
    while i < |es|
      invariant 0 <= i <= |es|
      invariant client.Valid() && client.config == c
      invariant client.initialized == IsConfigured(c)
      invariant client.outbox == SessionOutbox(c, es[..i])
    {
      client.TrackEvent(es[i].name, es[i].attributes);
      if IsConfigured(c) {
        SentAppend(c, [StartupEvent] + es[..i], es[i]);
        assert [StartupEvent] + es[..i + 1] == ([StartupEvent] + es[..i]) + [es[i]];
      }
      i := i + 1;
    }
    assert es[..i] == es;
    sent := client.outbox;
  }

  /** With the shipped configuration, a session never sends anything. */
  method ShippedSession(es: seq<Event>) returns (sent: seq<Request>)
    ensures sent == []
  {
    sent := Session(ShippedConfig, es);
  }

}
