/** The immutable envelope around every message, and its canonical wire mapping.  Date and time
    text is a parameter: `write` gives the text of an instant and `read` the instant of a text. */
module Envelopes {
  import opened JsonValues
  import opened Text
  import opened Wrappers

  const ENVELOPE_VERSION := 1

  /** What a caller passes to the constructor. */
  datatype Draft = Draft(
    id: string, kind: string, version: int, timestamp: int, payload: map<string, Json>,
    envelopeVersion: int, source: Option<string>, correlationId: Option<string>, causationId: Option<string>,
    trace: map<string, Json>, contentType: string, serializer: string, headers: map<string, string>,
    partitionKey: Option<string>, orderingKey: Option<string>, expiresAt: Option<int>, replyTo: Option<string>)

  datatype Envelope = Envelope(
    id: string, kind: string, version: int, timestamp: int, payload: Frozen,
    envelopeVersion: int, source: Option<string>, correlationId: Option<string>, causationId: Option<string>,
    trace: Frozen, contentType: string, serializer: string, headers: map<string, string>,
    partitionKey: Option<string>, orderingKey: Option<string>, expiresAt: Option<int>, replyTo: Option<string>)

  predicate Blank(s: string) {
    Strip(s) == ""
  }

  predicate NotBlank(s: Option<string>) {
    s.Some? ==> !Blank(s.value)
  }

  predicate GoodMetadata(d: Draft) {
    && !Blank(d.id) && !Blank(d.kind) && d.version >= 1 && d.envelopeVersion == ENVELOPE_VERSION
    && !Blank(d.contentType) && !Blank(d.serializer) && "" !in d.headers
    && NotBlank(d.source) && NotBlank(d.correlationId) && NotBlank(d.causationId)
    && NotBlank(d.partitionKey) && NotBlank(d.orderingKey) && NotBlank(d.replyTo)
  }

  /** The constructor: validate, normalise, freeze.  None stands for the validation error. */
  function Build(d: Draft): Option<Envelope> {
    var payload, trace := ToJson(Embed(Object(d.payload))), ToJson(Embed(Object(d.trace)));
    if !GoodMetadata(d) || payload.None? || trace.None? then None
    else Some(Envelope(d.id, d.kind, d.version, d.timestamp, Freeze(payload.value), d.envelopeVersion, d.source,
                       d.correlationId, d.causationId, Freeze(trace.value), d.contentType, d.serializer, d.headers,
                       d.partitionKey, d.orderingKey, d.expiresAt, d.replyTo))
  }

  /** The draft that an envelope could have been built from. */
  function Recovered(e: Envelope): Draft
    requires e.payload.Proxy? && e.trace.Proxy?
  {
    Draft(e.id, e.kind, e.version, e.timestamp, Thaw(e.payload).fields, e.envelopeVersion, e.source, e.correlationId,
          e.causationId, Thaw(e.trace).fields, e.contentType, e.serializer, e.headers, e.partitionKey, e.orderingKey,
          e.expiresAt, e.replyTo)
  }

  predicate Valid(e: Envelope) {
    && e.payload.Proxy? && e.trace.Proxy?
    && GoodMetadata(Recovered(e))
    && Fits(Thaw(e.payload), 0, MAX_DEPTH) && Fits(Thaw(e.trace), 0, MAX_DEPTH)
  }

  /** Some character of the text is not white space. */
  ghost predicate HasText(s: string) {
    exists i :: 0 <= i < |s| && !White(s[i])
  }

  ghost predicate TextIfAny(s: Option<string>) {
    match s
    case None => true
    case Some(text) => HasText(text)
  }

  lemma BlankHasNoText(s: string)
    ensures Blank(s) <==> !HasText(s)
  {
    var i, j := StripExactly(s);
    if i < j { assert Strip(s)[0] == s[i]; }
  }

  lemma NotBlankHasText(s: Option<string>)
    ensures NotBlank(s) <==> TextIfAny(s)
  {
    if s.Some? { BlankHasNoText(s.value); }
  }

  /** Good metadata: the required texts say something, versions are 1 at least (and the envelope's
      own is 1), no header has an empty name, and no optional text is blank. */
  lemma GoodMetadataExactly(d: Draft)
    ensures GoodMetadata(d) <==>
      && HasText(d.id) && HasText(d.kind) && HasText(d.contentType) && HasText(d.serializer)
      && d.version >= 1 && d.envelopeVersion == 1 && (forall k :: k in d.headers ==> |k| >= 1)
      && TextIfAny(d.source) && TextIfAny(d.correlationId) && TextIfAny(d.causationId)
      && TextIfAny(d.partitionKey) && TextIfAny(d.orderingKey) && TextIfAny(d.replyTo)
  {
    BlankHasNoText(d.id);
    BlankHasNoText(d.kind);
    BlankHasNoText(d.contentType);
    BlankHasNoText(d.serializer);
    NotBlankHasText(d.source);
    NotBlankHasText(d.correlationId);
    NotBlankHasText(d.causationId);
    NotBlankHasText(d.partitionKey);
    NotBlankHasText(d.orderingKey);
    NotBlankHasText(d.replyTo);
  }

  /** The constructor succeeds exactly on good metadata and on payload and trace within the depth
      limit, and what it then holds thaws to what it was given. */
  lemma BuildExactly(d: Draft)
    ensures Build(d).Some? <==> GoodMetadata(d) && Fits(Object(d.payload), 0, MAX_DEPTH) && Fits(Object(d.trace), 0, MAX_DEPTH)
    ensures Build(d).Some? ==> Valid(Build(d).value) && Recovered(Build(d).value) == d
  {
    PartBuilt(d.payload);
    PartBuilt(d.trace);
  }

  lemma PartBuilt(fields: map<string, Json>)
    ensures ToJson(Embed(Object(fields))) == if Fits(Object(fields), 0, MAX_DEPTH) then Some(Object(fields)) else None
    ensures Freeze(Object(fields)).Proxy? && Thaw(Freeze(Object(fields))) == Object(fields)
  {
    NormalOfJson(Object(fields), 0, MAX_DEPTH);
    ThawFreeze(Object(fields));
  }

  /** The valid envelopes are exactly the ones that can be built. */
  lemma ValidIsBuilt(e: Envelope)
    requires Valid(e)
    ensures Build(Recovered(e)) == Some(e)
  {
    BuildExactly(Recovered(e));
    NormalOfJson(Thaw(e.payload), 0, MAX_DEPTH);
    NormalOfJson(Thaw(e.trace), 0, MAX_DEPTH);
    FreezeThaw(e.payload);
    FreezeThaw(e.trace);
  }

  // ----- The wire mapping ------------------------------------------------------------------

  /** An instant outside the range of UTC dates is not a validation error: the conversion itself
      raises. */
  datatype TimeReading = Instant(instant: int) | Unreadable | OutOfRange

  datatype TimeText = TimeText(write: int -> string, read: string -> TimeReading)

  ghost predicate ReadsBack(t: TimeText, instant: int) {
    t.read(t.write(instant)) == Instant(instant)
  }

  /** The times of this envelope can be written and read back. */
  ghost predicate TimesReadBack(e: Envelope, t: TimeText) {
    ReadsBack(t, e.timestamp) && (e.expiresAt.Some? ==> ReadsBack(t, e.expiresAt.value))
  }

  /** Whatever instant can be read at all can be written and read back. */
  ghost predicate Faithful(t: TimeText) {
    forall text :: t.read(text).Instant? ==> ReadsBack(t, t.read(text).instant)
  }

  function OptionalText(s: Option<string>): Json {
    if s.Some? then Str(s.value) else Null
  }

  function OptionalTime(instant: Option<int>, t: TimeText): Json {
    if instant.Some? then Str(t.write(instant.value)) else Null
  }

  function HeaderFields(headers: map<string, string>): map<string, Json> {
    map k | k in headers :: Str(headers[k])
  }

  const WIRE_FIELDS: set<string> := {
    "envelope_version", "id", "type", "version", "timestamp", "source", "correlation_id", "causation_id", "trace",
    "content_type", "serializer", "headers", "partition_key", "ordering_key", "expires_at", "reply_to", "payload"}

  function Written(e: Envelope, field: string, t: TimeText): Json {
    if field == "id" then Str(e.id)
    else if field == "type" then Str(e.kind)
    else if field == "trace" then Thaw(e.trace)
    else if field == "source" then OptionalText(e.source)
    else if field == "version" then Int(e.version)
    else if field == "headers" then Object(HeaderFields(e.headers))
    else if field == "payload" then Thaw(e.payload)
    else if field == "reply_to" then OptionalText(e.replyTo)
    else if field == "timestamp" then Str(t.write(e.timestamp))
    else if field == "serializer" then Str(e.serializer)
    else if field == "expires_at" then OptionalTime(e.expiresAt, t)
    else if field == "content_type" then Str(e.contentType)
    else if field == "causation_id" then OptionalText(e.causationId)
    else if field == "ordering_key" then OptionalText(e.orderingKey)
    else if field == "partition_key" then OptionalText(e.partitionKey)
    else if field == "correlation_id" then OptionalText(e.correlationId)
    else Int(e.envelopeVersion)
  }

  /** The canonical mapping of an envelope, with every field present. */
  function ToDict(e: Envelope, t: TimeText): map<string, Json> {
    map field | field in WIRE_FIELDS :: Written(e, field, t)
  }

  /** A field that may be missing: then `default` stands for it. */
  function Field(m: map<string, Json>, key: string, default: Json): Json {
    if key in m then m[key] else default
  }

  /** What reading something can come to: a value, a validation error, or an error that is
      neither a serialization nor a validation error. */
  datatype Reading<T> = Read(value: T) | Invalid | Escaping

  function ReadText(j: Json): Reading<Option<string>> {
    match j
    case Null => Read(None)
    case Str(s) => Read(Some(s))
    case _ => Invalid
  }

  function ReadTime(j: Json, t: TimeText): Reading<int> {
    if !j.Str? then Invalid
    else match t.read(j.s)
      case Instant(instant) => Read(instant)
      case Unreadable => Invalid
      case OutOfRange => Escaping
  }

  function ReadOptionalTime(j: Json, t: TimeText): Reading<Option<int>> {
    if j.Null? then Read(None)
    else match ReadTime(j, t)
      case Read(instant) => Read(Some(instant))
      case Invalid => Invalid
      case Escaping => Escaping
  }

  function ReadHeaders(fields: map<string, Json>): Option<map<string, string>> {
    if exists k :: k in fields && !fields[k].Str? then None
    else Some(map k | k in fields && fields[k].Str? :: fields[k].s)
  }

  /** The checks that come before any time is read. */
  predicate WellShaped(m: map<string, Json>) {
    && "id" in m && "type" in m && "version" in m && "timestamp" in m && "payload" in m
    && m["id"].Str? && m["type"].Str? && m["version"].Int? && m["payload"].Object?
    && Field(m, "envelope_version", Int(ENVELOPE_VERSION)).Int?
    && Field(m, "trace", Object(map[])).Object? && Field(m, "headers", Object(map[])).Object?
  }

  predicate Textual(m: map<string, Json>, key: string) {
    ReadText(Field(m, key, Null)).Read?
  }

  /** The checks between the two times. */
  predicate TextsFit(m: map<string, Json>) {
    && Textual(m, "source") && Textual(m, "correlation_id") && Textual(m, "causation_id")
    && Field(m, "content_type", Str("application/json")).Str? && Field(m, "serializer", Str("json")).Str?
    && Textual(m, "partition_key") && Textual(m, "ordering_key")
  }

  function TextOf(m: map<string, Json>, key: string): Option<string>
    requires Textual(m, key)
  {
    ReadText(Field(m, key, Null)).value
  }

  /** The draft that a wire mapping describes; the first check that fails decides the error. */
  function ReadDraft(m: map<string, Json>, t: TimeText): Reading<Draft> {
    if !WellShaped(m) then Invalid
    else
      var timestamp := ReadTime(m["timestamp"], t);
      if timestamp.Invalid? then Invalid
      else if timestamp.Escaping? then Escaping
      else if !TextsFit(m) then Invalid
      else
        var expires := ReadOptionalTime(Field(m, "expires_at", Null), t);
        if expires.Invalid? then Invalid
        else if expires.Escaping? then Escaping
        else
          var headers := ReadHeaders(Field(m, "headers", Object(map[])).fields);
          if !Textual(m, "reply_to") || headers.None? then Invalid
          else Read(Draft(m["id"].s, m["type"].s, m["version"].n, timestamp.value, m["payload"].fields,
                          Field(m, "envelope_version", Int(ENVELOPE_VERSION)).n, TextOf(m, "source"),
                          TextOf(m, "correlation_id"), TextOf(m, "causation_id"), Field(m, "trace", Object(map[])).fields,
                          Field(m, "content_type", Str("application/json")).s, Field(m, "serializer", Str("json")).s,
                          headers.value, TextOf(m, "partition_key"), TextOf(m, "ordering_key"), expires.value,
                          TextOf(m, "reply_to")))
  }

  function FromDict(m: map<string, Json>, t: TimeText): Reading<Envelope> {
    match ReadDraft(m, t)
    case Invalid => Invalid
    case Escaping => Escaping
    case Read(d) => if Build(d).None? then Invalid else Read(Build(d).value)
  }

  lemma HeadersRead(headers: map<string, string>)
    ensures ReadHeaders(HeaderFields(headers)) == Some(headers)
  {
    assert ReadHeaders(HeaderFields(headers)).value == headers;
  }

  ghost predicate DescribesParts(m: map<string, Json>, e: Envelope) {
    && Field(m, "payload", Null) == Thaw(e.payload) && Field(m, "trace", Null) == Thaw(e.trace)
    && Field(m, "headers", Null) == Object(HeaderFields(e.headers))
  }

  ghost predicate DescribesNames(m: map<string, Json>, e: Envelope, t: TimeText) {
    && Field(m, "id", Null) == Str(e.id) && Field(m, "type", Null) == Str(e.kind)
    && Field(m, "version", Null) == Int(e.version) && Field(m, "timestamp", Null) == Str(t.write(e.timestamp))
    && Field(m, "envelope_version", Null) == Int(e.envelopeVersion)
    && Field(m, "content_type", Null) == Str(e.contentType) && Field(m, "serializer", Null) == Str(e.serializer)
  }

  ghost predicate DescribesOptions(m: map<string, Json>, e: Envelope, t: TimeText) {
    && Field(m, "source", Null) == OptionalText(e.source) && Field(m, "correlation_id", Null) == OptionalText(e.correlationId)
    && Field(m, "causation_id", Null) == OptionalText(e.causationId) && Field(m, "partition_key", Null) == OptionalText(e.partitionKey)
    && Field(m, "ordering_key", Null) == OptionalText(e.orderingKey) && Field(m, "reply_to", Null) == OptionalText(e.replyTo)
    && Field(m, "expires_at", Null) == OptionalTime(e.expiresAt, t)
  }

  lemma WrittenParts(e: Envelope, t: TimeText)
    ensures DescribesParts(ToDict(e, t), e)
  {
  }

  lemma WrittenNames(e: Envelope, t: TimeText)
    ensures DescribesNames(ToDict(e, t), e, t)
  {
  }

  lemma WrittenOptions(e: Envelope, t: TimeText)
    ensures DescribesOptions(ToDict(e, t), e, t)
  {
  }

  lemma DescribedShape(m: map<string, Json>, e: Envelope, t: TimeText)
    requires Valid(e) && DescribesParts(m, e) && DescribesNames(m, e, t)
    ensures WellShaped(m) && m["timestamp"] == Str(t.write(e.timestamp))
    ensures Field(m, "headers", Object(map[])) == Object(HeaderFields(e.headers))
  {
  }

  lemma DescribedTexts(m: map<string, Json>, e: Envelope, t: TimeText)
    requires DescribesNames(m, e, t) && DescribesOptions(m, e, t)
    ensures TextsFit(m) && Textual(m, "reply_to")
    ensures TextOf(m, "source") == e.source && TextOf(m, "correlation_id") == e.correlationId
    ensures TextOf(m, "causation_id") == e.causationId && TextOf(m, "partition_key") == e.partitionKey
    ensures TextOf(m, "ordering_key") == e.orderingKey && TextOf(m, "reply_to") == e.replyTo
  {
    assert forall s: Option<string> :: ReadText(OptionalText(s)) == Read(s);
  }

  lemma DescribedTimes(m: map<string, Json>, e: Envelope, t: TimeText)
    requires TimesReadBack(e, t) && DescribesOptions(m, e, t)
    ensures ReadTime(Str(t.write(e.timestamp)), t) == Read(e.timestamp)
    ensures ReadOptionalTime(Field(m, "expires_at", Null), t) == Read(e.expiresAt)
  {
  }

  lemma WrittenDraft(e: Envelope, t: TimeText)
    requires Valid(e) && TimesReadBack(e, t)
    ensures ReadDraft(ToDict(e, t), t) == Read(Recovered(e))
  {
    WrittenParts(e, t);
    WrittenNames(e, t);
    WrittenOptions(e, t);
    DescribedDraft(ToDict(e, t), e, t);
  }

  lemma DescribedDraft(m: map<string, Json>, e: Envelope, t: TimeText)
    requires Valid(e) && TimesReadBack(e, t)
    requires DescribesParts(m, e) && DescribesNames(m, e, t) && DescribesOptions(m, e, t)
    ensures ReadDraft(m, t) == Read(Recovered(e))
  {
    DescribedShape(m, e, t);
    DescribedTexts(m, e, t);
    DescribedTimes(m, e, t);
    HeadersRead(e.headers);
  }

  /** Reading the wire mapping of an envelope gives that envelope back. */
  lemma DictRoundTrip(e: Envelope, t: TimeText)
    requires Valid(e) && TimesReadBack(e, t)
    ensures FromDict(ToDict(e, t), t) == Read(e)
  {
    WrittenDraft(e, t);
    ValidIsBuilt(e);
  }

  lemma ReadTimes(m: map<string, Json>, t: TimeText)
    requires Faithful(t) && ReadDraft(m, t).Read?
    ensures var d := ReadDraft(m, t).value;
      ReadsBack(t, d.timestamp) && (d.expiresAt.Some? ==> ReadsBack(t, d.expiresAt.value))
  {
    assert t.read(m["timestamp"].s).Instant?;
    var expires := Field(m, "expires_at", Null);
    assert expires.Str? ==> t.read(expires.s).Instant?;
  }

  /** Whatever mapping is accepted, the envelope made from it is valid, and writing and reading
      that envelope changes nothing any more. */
  lemma ReadIsCanonical(m: map<string, Json>, t: TimeText)
    requires Faithful(t)
    ensures var e := FromDict(m, t);
      e.Read? ==> Valid(e.value) && FromDict(ToDict(e.value, t), t) == e
  {
    var d := ReadDraft(m, t);
    if d.Read? && Build(d.value).Some? {
      ReadTimes(m, t);
      BuildExactly(d.value);
      DictRoundTrip(Build(d.value).value, t);
    }
  }

  /** The one way in which a mapping is refused by neither kind of error: a time outside the
      range of UTC dates, met before any check that fails. */
  lemma EscapesExactly(m: map<string, Json>, t: TimeText)
    ensures FromDict(m, t).Escaping? <==>
      && WellShaped(m) && m["timestamp"].Str?
      && (t.read(m["timestamp"].s).OutOfRange?
          || (t.read(m["timestamp"].s).Instant? && TextsFit(m) && Field(m, "expires_at", Null).Str?
              && t.read(Field(m, "expires_at", Null).s).OutOfRange?))
  {
  }

  /** A mapping of the five required fields alone is read, with the defaults for all others. */
  lemma DefaultsRead(id: string, kind: string, version: int, text: string, payload: map<string, Json>, t: TimeText)
    requires t.read(text).Instant?
    ensures ReadDraft(map["id" := Str(id), "type" := Str(kind), "version" := Int(version), "timestamp" := Str(text),
                          "payload" := Object(payload)], t)
         == Read(Draft(id, kind, version, t.read(text).instant, payload, 1, None, None, None, map[], "application/json", "json",
                       map[], None, None, None, None))
  {
    var m := map["id" := Str(id), "type" := Str(kind), "version" := Int(version), "timestamp" := Str(text), "payload" := Object(payload)];
    MinimalTexts(m);
    NoHeadersRead();
  }

  lemma NoHeadersRead()
    ensures ReadHeaders(map[]) == Some(map[])
  {
    var none: map<string, Json> := map[];
    assert ReadHeaders(none).value == map[];
  }

  lemma MinimalTexts(m: map<string, Json>)
    requires m.Keys == {"id", "type", "version", "timestamp", "payload"}
    ensures TextsFit(m) && Textual(m, "reply_to") && Field(m, "expires_at", Null).Null?
    ensures TextOf(m, "source").None? && TextOf(m, "correlation_id").None? && TextOf(m, "causation_id").None?
    ensures TextOf(m, "partition_key").None? && TextOf(m, "ordering_key").None? && TextOf(m, "reply_to").None?
    ensures Field(m, "content_type", Str("application/json")) == Str("application/json") && Field(m, "serializer", Str("json")) == Str("json")
    ensures Field(m, "trace", Object(map[])) == Object(map[]) && Field(m, "headers", Object(map[])) == Object(map[])
    ensures Field(m, "envelope_version", Int(1)) == Int(1)
  {
  }

  /** Without any one of them it is refused. */
  lemma RequiredFields(m: map<string, Json>, t: TimeText)
    ensures (exists k :: k in {"id", "type", "version", "timestamp", "payload"} && k !in m) ==> FromDict(m, t).Invalid?
  {
  }

  /** Headers are texts: a mapping with any other header is refused, and an accepted one gives its
      headers to the envelope. */
  lemma HeadersAreTexts(m: map<string, Json>, t: TimeText)
    requires FromDict(m, t).Read? && "headers" in m
    ensures m["headers"].Object?
    ensures var e, fields := FromDict(m, t).value, m["headers"].fields;
      e.headers.Keys == fields.Keys && forall k :: k in fields ==> fields[k] == Str(e.headers[k])
  {
    BuildExactly(ReadDraft(m, t).value);
  }

  predicate Scalar(j: Json) {
    !j.Object? && !j.Array?
  }

  lemma OthersAreScalar(e: Envelope, t: TimeText, key: string)
    requires key in ToDict(e, t) && key != "payload" && key != "trace" && key != "headers"
    ensures Scalar(ToDict(e, t)[key])
  {
  }

  /** The wire mapping nests payload and trace one level deeper. */
  lemma DictDepth(e: Envelope, t: TimeText, max: nat)
    requires max >= 2
    ensures Fits(Object(ToDict(e, t)), 0, max)
       <==> Fits(Thaw(e.payload), 0, max - 1) && Fits(Thaw(e.trace), 0, max - 1)
  {
    var m := ToDict(e, t);
    WrittenParts(e, t);
    forall k | k in m ensures Fits(m[k], 1, max) <==>
      ((k == "payload" ==> Fits(Thaw(e.payload), 0, max - 1)) && (k == "trace" ==> Fits(Thaw(e.trace), 0, max - 1)))
    {
      FieldDepth(e, t, k, max);
    }
    assert "payload" in m && "trace" in m;
  }

  lemma FieldDepth(e: Envelope, t: TimeText, key: string, max: nat)
    requires max >= 2 && key in ToDict(e, t)
    ensures Fits(ToDict(e, t)[key], 1, max) <==>
      ((key == "payload" ==> Fits(Thaw(e.payload), 0, max - 1)) && (key == "trace" ==> Fits(Thaw(e.trace), 0, max - 1)))
  {
    WrittenParts(e, t);
    if key == "payload" {
      FitsShifted(Thaw(e.payload), 0, max - 1);
    } else if key == "trace" {
      FitsShifted(Thaw(e.trace), 0, max - 1);
    } else if key == "headers" {
      assert forall k :: k in HeaderFields(e.headers) ==> Fits(HeaderFields(e.headers)[k], 2, max);
    } else {
      OthersAreScalar(e, t, key);
    }
  }
}
