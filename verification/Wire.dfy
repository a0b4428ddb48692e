/** Frames on the wire: a magic prefix, the serializer's name with its length, and the serialized
    envelope.  Payloads without the prefix are bare JSON envelopes.  The byte formats of the
    serializers are parameters. */
module Wire {
  import opened Envelopes
  import opened JsonValues
  import opened Utf8
  import opened Wrappers

  type Payload = seq<byte>

  /** "PYEV" and the byte 1. */
  const MAGIC: Payload := [0x50, 0x59, 0x45, 0x56, 0x01]

  /** What a decoder makes of bytes: a value, a serialization error, or any other error (nesting
      too deep for its parser, say). */
  datatype Loaded = Loaded(value: Json) | Unloadable | LoaderFailed

  /** The encoder and the decoder of a serializer; None stands for the encoder's errors. */
  datatype Serializer = Serializer(name: string, encode: Json -> Option<Payload>, load: Payload -> Loaded)

  /** `textDump` and `textLoad` are the JSON text format of bare envelopes.  The dump refuses an
      integer of more digits than the interpreter writes out. */
  datatype Config = Config(maxSize: nat, allowed: set<string>, registry: string -> Option<Serializer>, times: TimeText,
                           textDump: Json -> Option<Payload>, textLoad: Payload -> Loaded)

  /** `Escaped` is an error that is neither a serialization nor a validation error. */
  datatype Decoded =
    | Got(envelope: Envelope)
    | TooLarge | Truncated | BadNameSize | NameNotAscii | NotAllowed | UnknownSerializer | Undecodable | BadEnvelope
    | Escaped

  function Frame(name: string, body: Payload): Payload
    requires Ascii(name) && |name| <= 255
  {
    MAGIC + [|name|] + Bytes(name) + body
  }

  function EncodeWire(e: Envelope, s: Serializer, t: TimeText): Option<Payload> {
    if !Ascii(s.name) || !(1 <= |s.name| <= 255) then None
    else
      var body := s.encode(Object(ToDict(e, t)));
      if body.None? then None else Some(Frame(s.name, body.value))
  }

  predicate IsAscii(b: Payload) {
    forall i :: 0 <= i < |b| ==> b[i] < 0x80
  }

  function AsciiText(b: Payload): (s: string)
    requires IsAscii(b)
    ensures Ascii(s) && Bytes(s) == b
  {
    seq(|b|, i requires 0 <= i < |b| => b[i] as char)
  }

  function Interpret(j: Loaded, t: TimeText): Decoded {
    match j
    case LoaderFailed => Escaped
    case Unloadable => Undecodable
    case Loaded(value) =>
      if !value.Object? then Undecodable
      else match FromDict(value.fields, t)
        case Read(e) => Got(e)
        case Invalid => BadEnvelope
        case Escaping => Escaped
  }

  /** Where the name of a frame ends. */
  function NameEnd(p: Payload): (n: nat)
    requires |p| > 5
    ensures 6 <= n <= 261
  {
    6 + p[5] as int
  }

  function DecodeFrame(p: Payload, c: Config): Decoded
    requires MAGIC <= p
  {
    if |p| <= 5 then Truncated
    else
      var end := NameEnd(p);
      if p[5] == 0 || end > |p| then BadNameSize
      else if !IsAscii(p[6..end]) then NameNotAscii
      else
        var name := AsciiText(p[6..end]);
        if name !in c.allowed then NotAllowed
        else
          var s := c.registry(name);
          if s.None? then UnknownSerializer else Interpret(s.value.load(p[end..]), c.times)
  }

  function DecodeWire(p: Payload, c: Config): Decoded {
    if |p| > c.maxSize then TooLarge
    else if !(MAGIC <= p) then Interpret(c.textLoad(p), c.times)
    else DecodeFrame(p, c)
  }

  // ----- Framing ------------------------------------------------------------------------------

  lemma FrameParts(name: string, body: Payload)
    requires Ascii(name) && 1 <= |name| <= 255
    ensures var p := Frame(name, body);
      && |p| == 6 + |name| + |body| && MAGIC <= p && p[5] == |name|
      && p[6..6 + |name|] == Bytes(name) && p[6 + |name|..] == body
  {
    var p := Frame(name, body);
    assert p == MAGIC + ([|name|] + Bytes(name) + body);
    assert p[6..6 + |name|] == Bytes(name) && p[6 + |name|..] == body;
  }

  lemma SameBytes(a: string, b: string)
    requires Ascii(a) && Ascii(b) && Bytes(a) == Bytes(b)
    ensures a == b
  {
    assert forall i :: 0 <= i < |a| ==> Bytes(a)[i] == a[i] as int && Bytes(b)[i] == b[i] as int;
    assert |a| == |b| && forall i :: 0 <= i < |a| ==> a[i] == b[i];
  }

  /** Different names or different bodies make different frames. */
  lemma FramingIsInjective(name: string, body: Payload, name': string, body': Payload)
    requires Ascii(name) && 1 <= |name| <= 255 && Ascii(name') && 1 <= |name'| <= 255
    requires Frame(name, body) == Frame(name', body')
    ensures name == name' && body == body'
  {
    FrameParts(name, body);
    FrameParts(name', body');
    SameBytes(name, name');
  }

  lemma CutIsFrame(p: Payload)
    requires MAGIC <= p && |p| > 5 && NameEnd(p) <= |p| && IsAscii(p[6..NameEnd(p)])
    ensures p == Frame(AsciiText(p[6..NameEnd(p)]), p[NameEnd(p)..])
  {
    assert p == p[..5] + [p[5]] + p[6..NameEnd(p)] + p[NameEnd(p)..];
    assert p[..5] == MAGIC;
  }

  /** Only frames are decoded as frames: an accepted payload with the prefix is the frame of an
      allowed, registered serializer's name and of a body which that serializer reads. */
  lemma AcceptedIsFrame(p: Payload, c: Config) returns (name: string, body: Payload)
    requires MAGIC <= p && DecodeWire(p, c).Got?
    ensures Ascii(name) && 1 <= |name| <= 255 && p == Frame(name, body) && |p| <= c.maxSize
    ensures name in c.allowed && c.registry(name).Some? && c.registry(name).value.load(body).Loaded?
  {
    assert DecodeFrame(p, c).Got?;
    name, body := AsciiText(p[6..NameEnd(p)]), p[NameEnd(p)..];
    CutIsFrame(p);
  }

  // ----- Round trips ------------------------------------------------------------------------------

  /** Loading undoes encoding wherever encoding succeeds. */
  ghost predicate Invertible(s: Serializer) {
    forall j: Json :: s.encode(j).Some? ==> s.load(s.encode(j).value) == Loaded(j)
  }

  lemma InvertibleAt(s: Serializer, j: Json)
    requires Invertible(s) && s.encode(j).Some?
    ensures s.load(s.encode(j).value) == Loaded(j)
  {
  }

  lemma FrameIsRead(name: string, body: Payload, c: Config)
    requires Ascii(name) && 1 <= |name| <= 255 && |Frame(name, body)| <= c.maxSize
    requires name in c.allowed && c.registry(name).Some?
    ensures DecodeWire(Frame(name, body), c) == Interpret(c.registry(name).value.load(body), c.times)
  {
    FrameParts(name, body);
    var p := Frame(name, body);
    assert NameEnd(p) == 6 + |name|;
    SameBytes(AsciiText(p[6..NameEnd(p)]), name);
  }

  /** Why a frame is refused before its body is read, in order: its size, its serializer's name not
      allowed, no serializer under that name. */
  lemma FrameRefused(name: string, body: Payload, c: Config)
    requires Ascii(name) && 1 <= |name| <= 255
    ensures var p := Frame(name, body);
      && (DecodeWire(p, c).TooLarge? <==> |p| > c.maxSize)
      && (DecodeWire(p, c).NotAllowed? <==> |p| <= c.maxSize && name !in c.allowed)
      && (DecodeWire(p, c).UnknownSerializer? <==> |p| <= c.maxSize && name in c.allowed && c.registry(name).None?)
  {
    FrameParts(name, body);
    var p := Frame(name, body);
    assert NameEnd(p) == 6 + |name|;
    SameBytes(AsciiText(p[6..NameEnd(p)]), name);
  }

  /** A payload that begins like a frame and is none: cut off before its name's length, with a name of
      no or too few bytes, or with a name that is not ASCII. */
  lemma BrokenFrameRefused(p: Payload, c: Config)
    requires MAGIC <= p && |p| <= c.maxSize
    ensures DecodeWire(p, c).Truncated? <==> |p| == 5
    ensures DecodeWire(p, c).BadNameSize? <==> |p| > 5 && (p[5] == 0 || |p| < 6 + p[5] as int)
    ensures DecodeWire(p, c).NameNotAscii? <==>
      |p| > 5 && 1 <= p[5] && |p| >= 6 + p[5] as int && exists i :: 6 <= i < 6 + p[5] as int && p[i] >= 0x80
  {
    if |p| > 5 && 1 <= p[5] && |p| >= 6 + p[5] as int {
      var name := p[6..NameEnd(p)];
      assert forall i :: 0 <= i < |name| ==> name[i] == p[6 + i];
      assert forall i :: 6 <= i < 6 + p[5] as int ==> p[i] == name[i - 6];
    }
  }

  lemma MagicSpelled()
    ensures MAGIC == Bytes("PYEV") + [1]
  {
  }

  /** What a payload without the prefix comes to: text that is no JSON or no mapping cannot be decoded,
      a mapping is read as an envelope or refused as one. */
  lemma BareExactly(p: Payload, c: Config)
    requires |p| <= c.maxSize && !(MAGIC <= p)
    ensures DecodeWire(p, c).Undecodable? <==>
      c.textLoad(p).Unloadable? || (c.textLoad(p).Loaded? && !c.textLoad(p).value.Object?)
    ensures c.textLoad(p).Loaded? && c.textLoad(p).value.Object? ==>
      match FromDict(c.textLoad(p).value.fields, c.times)
      case Read(e) => DecodeWire(p, c) == Got(e)
      case Invalid => DecodeWire(p, c).BadEnvelope?
      case Escaping => DecodeWire(p, c).Escaped?
    ensures c.textLoad(p).LoaderFailed? ==> DecodeWire(p, c).Escaped?
  {
  }

  lemma MappingIsRead(e: Envelope, t: TimeText)
    requires Valid(e) && TimesReadBack(e, t)
    ensures Interpret(Loaded(Object(ToDict(e, t))), t) == Got(e)
  {
    DictRoundTrip(e, t);
  }

  /** Decoding an encoded envelope gives that envelope, for every valid envelope and every
      invertible serializer that is allowed and registered under its name, when the frame is
      within the size limit. */
  lemma WireRoundTrip(e: Envelope, s: Serializer, c: Config)
    requires Valid(e) && TimesReadBack(e, c.times) && Invertible(s)
    requires EncodeWire(e, s, c.times).Some? && |EncodeWire(e, s, c.times).value| <= c.maxSize
    requires s.name in c.allowed && c.registry(s.name) == Some(s)
    ensures DecodeWire(EncodeWire(e, s, c.times).value, c) == Got(e)
  {
    var mapping := Object(ToDict(e, c.times));
    FrameIsRead(s.name, s.encode(mapping).value, c);
    InvertibleAt(s, mapping);
    MappingIsRead(e, c.times);
  }

  /** Equal frames carry equal envelopes, whichever registered serializers wrote them. */
  lemma EqualFramesEqualEnvelopes(e: Envelope, s: Serializer, e': Envelope, s': Serializer, c: Config)
    requires Valid(e) && Valid(e') && TimesReadBack(e, c.times) && TimesReadBack(e', c.times)
    requires Invertible(s) && Invertible(s') && c.registry(s.name) == Some(s) && c.registry(s'.name) == Some(s')
    requires EncodeWire(e, s, c.times).Some? && EncodeWire(e, s, c.times) == EncodeWire(e', s', c.times)
    ensures e == e' && s == s'
  {
    var mapping, mapping' := Object(ToDict(e, c.times)), Object(ToDict(e', c.times));
    FramingIsInjective(s.name, s.encode(mapping).value, s'.name, s'.encode(mapping').value);
    InvertibleAt(s, mapping);
    InvertibleAt(s', mapping');
    DictRoundTrip(e, c.times);
    DictRoundTrip(e', c.times);
  }

  // ----- Depth -----------------------------------------------------------------------------------

  /** The JSON and MessagePack serializers normalise and then dump the result. */
  function DumpedNormal(dump: Json -> Option<Payload>, j: Json): Option<Payload> {
    var normal := ToJson(Embed(j));
    if normal.None? then None else dump(normal.value)
  }

  ghost predicate NormalisesThenDumps(s: Serializer, dump: Json -> Option<Payload>) {
    forall j: Json :: s.encode(j) == DumpedNormal(dump, j)
  }

  /** A serializer that refuses what the normaliser refuses; the Pickle serializer does not. */
  ghost predicate Normalises(s: Serializer) {
    forall j: Json :: s.encode(j).Some? ==> Fits(j, 0, MAX_DEPTH)
  }

  /** The built-in normalising encoders encode exactly what fits and can be dumped. */
  lemma NormalisingExactly(s: Serializer, dump: Json -> Option<Payload>)
    requires NormalisesThenDumps(s, dump)
    ensures Normalises(s)
    ensures forall j: Json :: s.encode(j) == if Fits(j, 0, MAX_DEPTH) then dump(j) else None
  {
    forall j: Json ensures s.encode(j) == if Fits(j, 0, MAX_DEPTH) then dump(j) else None {
      assert s.encode(j) == DumpedNormal(dump, j);
      NormalOfJson(j, 0, MAX_DEPTH);
    }
  }

  /** With a normalising serializer an envelope can be encoded exactly when the serializer has a
      name of 1 to 255 ASCII characters, payload and trace are at most 63 deep (the wire mapping
      nests them once more) and the mapping can be dumped. */
  lemma EncodesExactly(e: Envelope, s: Serializer, dump: Json -> Option<Payload>, t: TimeText)
    requires NormalisesThenDumps(s, dump)
    ensures EncodeWire(e, s, t).Some? <==>
      && Ascii(s.name) && 1 <= |s.name| <= 255
      && Fits(Thaw(e.payload), 0, 63) && Fits(Thaw(e.trace), 0, 63)
      && dump(Object(ToDict(e, t))).Some?
  {
    NormalisingExactly(s, dump);
    DictDepth(e, t, MAX_DEPTH);
  }

  /** No normalising serializer, built in or not, writes a frame for a deeper envelope. */
  lemma NoFrameBelowTheLimit(e: Envelope, s: Serializer, t: TimeText)
    requires Normalises(s) && EncodeWire(e, s, t).Some?
    ensures Fits(Thaw(e.payload), 0, 63) && Fits(Thaw(e.trace), 0, 63)
  {
    assert s.encode(Object(ToDict(e, t))).Some?;
    DictDepth(e, t, MAX_DEPTH);
  }

  function Nested(depth: nat): Json {
    if depth == 0 then Null else Array([Nested(depth - 1)])
  }

  lemma {:induction false} NestedFits(depth: nat, at: nat, max: nat)
    ensures Fits(Nested(depth), at, max) <==> at + depth <= max
    decreases depth
  {
    if depth > 0 {
      NestedFits(depth - 1, at + 1, max);
      assert Nested(depth).items[0] == Nested(depth - 1);
    }
  }

  lemma DeepPayload(depth: nat, max: nat)
    ensures Fits(Object(map["deep" := Nested(depth)]), 0, max) <==> depth < max
  {
    var fields := map["deep" := Nested(depth)];
    NestedFits(depth, 1, max);
    assert "deep" in fields && forall k :: k in fields ==> fields[k] == Nested(depth);
  }

  /** An envelope at the depth limit exists, and the serializer decides its fate: no normalising
      one writes a frame for it, and one that does encode its mapping and is invertible carries
      it over the wire unchanged. */
  lemma DeepestPayload(d: Draft, depth: nat, s: Serializer, c: Config)
    requires GoodMetadata(d) && depth == 63 && d.payload == map["deep" := Nested(depth)] && d.trace == map[]
    ensures Build(d).Some? && Valid(Build(d).value) && !Fits(Thaw(Build(d).value.payload), 0, 63)
    ensures Normalises(s) ==> EncodeWire(Build(d).value, s, c.times) == None
    ensures var frame := EncodeWire(Build(d).value, s, c.times);
      && Ascii(s.name) && 1 <= |s.name| <= 255 && s.encode(Object(ToDict(Build(d).value, c.times))).Some?
      && Invertible(s) && TimesReadBack(Build(d).value, c.times) && s.name in c.allowed && c.registry(s.name) == Some(s)
      ==> frame.Some? && (|frame.value| <= c.maxSize ==> DecodeWire(frame.value, c) == Got(Build(d).value))
  {
    DeepPayload(depth, 64);
    DeepPayload(depth, 63);
    BuildExactly(d);
    var e := Build(d).value;
    assert Thaw(e.payload) == Object(d.payload);
    CarriedOrNot(e, s, c);
  }

  lemma CarriedOrNot(e: Envelope, s: Serializer, c: Config)
    requires Valid(e) && !Fits(Thaw(e.payload), 0, 63)
    ensures Normalises(s) ==> EncodeWire(e, s, c.times) == None
    ensures var frame := EncodeWire(e, s, c.times);
      && Ascii(s.name) && 1 <= |s.name| <= 255 && s.encode(Object(ToDict(e, c.times))).Some?
      && Invertible(s) && TimesReadBack(e, c.times) && s.name in c.allowed && c.registry(s.name) == Some(s)
      ==> frame.Some? && (|frame.value| <= c.maxSize ==> DecodeWire(frame.value, c) == Got(e))
  {
    var frame := EncodeWire(e, s, c.times);
    if frame.Some? && Normalises(s) { NoFrameBelowTheLimit(e, s, c.times); }
    if frame.Some? && Invertible(s) && TimesReadBack(e, c.times) && s.name in c.allowed && c.registry(s.name) == Some(s)
       && |frame.value| <= c.maxSize
    {
      WireRoundTrip(e, s, c);
    }
  }

  /** A serializer whose decoder always refuses (Pickle, whose bytes the broker never declares to
      be trusted) can be written with, but none of its frames is ever read. */
  lemma UntrustedNeverRead(e: Envelope, s: Serializer, c: Config)
    requires EncodeWire(e, s, c.times).Some? && |EncodeWire(e, s, c.times).value| <= c.maxSize
    requires s.name in c.allowed && c.registry(s.name) == Some(s)
    requires forall p :: s.load(p) == Unloadable
    ensures DecodeWire(EncodeWire(e, s, c.times).value, c) == Undecodable
  {
    FrameIsRead(s.name, s.encode(Object(ToDict(e, c.times))).value, c);
  }

  // ----- Bare JSON envelopes ----------------------------------------------------------------------

  /** The JSON text format: loading undoes dumping, and an object's text starts with a brace. */
  ghost predicate TextFormat(c: Config) {
    && (forall j: Json :: Fits(j, 0, MAX_DEPTH + 1) && c.textDump(j).Some? ==> c.textLoad(c.textDump(j).value) == Loaded(j))
    && (forall j: Json :: j.Object? && c.textDump(j).Some? ==> c.textDump(j).value != [] && c.textDump(j).value[0] == 0x7B)
  }

  function BareBytes(e: Envelope, c: Config): Option<Payload> {
    c.textDump(Object(ToDict(e, c.times)))
  }

  lemma MappingFits(e: Envelope, t: TimeText)
    requires Valid(e)
    ensures Fits(Object(ToDict(e, t)), 0, MAX_DEPTH + 1)
  {
    DictDepth(e, t, MAX_DEPTH + 1);
  }

  lemma BareIsNoFrame(e: Envelope, s: Serializer, c: Config)
    requires TextFormat(c) && BareBytes(e, c).Some?
    ensures BareBytes(e, c).value != [] && BareBytes(e, c).value[0] != MAGIC[0]
    ensures EncodeWire(e, s, c.times) != BareBytes(e, c)
  {
    var p := BareBytes(e, c).value;
    assert p != [] && p[0] == 0x7B;
    if EncodeWire(e, s, c.times).Some? {
      FrameParts(s.name, s.encode(Object(ToDict(e, c.times))).value);
      assert EncodeWire(e, s, c.times).value[0] == MAGIC[0];
    }
  }

  /** A bare envelope is read back, for every valid envelope whose text can be written, and never
      looks like a frame. */
  lemma BareRoundTrip(e: Envelope, s: Serializer, c: Config)
    requires Valid(e) && TimesReadBack(e, c.times) && TextFormat(c)
    requires BareBytes(e, c).Some? && |BareBytes(e, c).value| <= c.maxSize
    ensures DecodeWire(BareBytes(e, c).value, c) == Got(e)
    ensures EncodeWire(e, s, c.times) != BareBytes(e, c)
  {
    BareIsNoFrame(e, s, c);
    MappingFits(e, c.times);
    MappingIsRead(e, c.times);
  }
}
