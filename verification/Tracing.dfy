/** Trace context travels in the headers `traceparent`, `tracestate` and `baggage` of W3C Trace
    Context and Baggage.  Baggage is percent-encoded (section 2.1 of RFC 3986) and split on
    commas, equals signs and semicolons, which may also occur inside keys and values. */
module Tracing {
  import opened Text
  import opened Utf8
  import opened Wrappers

  // ----- Hexadecimal digits -----------------------------------------------------------------

  predicate HexDigit(c: char) {
    '0' <= c <= '9' || 'a' <= c <= 'f'
  }

  predicate AnyCaseHex(c: char) {
    HexDigit(c) || 'A' <= c <= 'F'
  }

  function DigitValue(c: char): (n: nat)
    requires AnyCaseHex(c)
    ensures n < 16
  {
    if c <= '9' then c as int - '0' as int
    else if c <= 'F' then c as int - 'A' as int + 10
    else c as int - 'a' as int + 10
  }

  function LowerDigit(n: nat): (c: char)
    requires n < 16
    ensures HexDigit(c) && DigitValue(c) == n
  {
    if n < 10 then ('0' as int + n) as char else ('a' as int + n - 10) as char
  }

  function UpperDigit(n: nat): (c: char)
    requires n < 16
    ensures AnyCaseHex(c) && DigitValue(c) == n && !('a' <= c <= 'f')
  {
    if n < 10 then ('0' as int + n) as char else ('A' as int + n - 10) as char
  }

  ghost predicate AllHex(s: string) {
    forall i :: 0 <= i < |s| ==> HexDigit(s[i])
  }

  predicate Zeros(s: string) {
    forall i :: 0 <= i < |s| ==> s[i] == '0'
  }

  // ----- The traceparent header ----------------------------------------------------------------

  datatype TraceContext = TraceContext(traceId: string, spanId: string, flags: int,
                                       state: Option<string>, baggage: map<string, string>)

  ghost predicate ValidContext(c: TraceContext) {
    && |c.traceId| == 32 && AllHex(c.traceId) && !Zeros(c.traceId)
    && |c.spanId| == 16 && AllHex(c.spanId) && !Zeros(c.spanId)
    && 0 <= c.flags <= 255
  }

  function TraceParent(c: TraceContext): string
    requires 0 <= c.flags <= 255
  {
    "00-" + c.traceId + "-" + c.spanId + "-" + [LowerDigit(c.flags / 16), LowerDigit(c.flags % 16)]
  }

  predicate HexRange(s: string, from: nat, to: nat)
    requires from <= to <= |s|
  {
    forall i :: from <= i < to ==> HexDigit(s[i])
  }

  predicate WellFormed(t: string) {
    && |t| == 55 && t[2] == '-' && t[35] == '-' && t[52] == '-'
    && HexRange(t, 0, 2) && HexRange(t, 3, 35) && HexRange(t, 36, 52) && HexRange(t, 53, 55)
    && t[..2] != "ff"
    && !Zeros(t[3..35]) && !Zeros(t[36..52])
  }

  /** Case folding is a parameter; of Unicode's all that matters is that it folds ASCII text to
      lower case. */
  type Folding = string -> string

  ghost predicate FoldsAscii(fold: Folding) {
    forall s :: Ascii(s) ==> fold(s) == Lower(s)
  }

  /** None stands for the error that rejects a header. */
  function Parse(header: string, state: Option<string>, fold: Folding): Option<TraceContext> {
    var t := fold(Strip(header));
    if !WellFormed(t) then None
    else Some(TraceContext(t[3..35], t[36..52], DigitValue(t[53]) * 16 + DigitValue(t[54]), state, map[]))
  }

  lemma LowerFixed(s: string)
    requires forall i :: 0 <= i < |s| ==> !('A' <= s[i] <= 'Z')
    ensures Lower(s) == s
  {
  }

  /** Reading back a written header gives the identifiers and the flags. */
  lemma TraceParentRoundTrip(c: TraceContext, state: Option<string>, fold: Folding)
    requires ValidContext(c) && FoldsAscii(fold)
    ensures Parse(TraceParent(c), state, fold) == Some(c.(state := state, baggage := map[]))
  {
    var t := TraceParent(c);
    assert t[3..35] == c.traceId && t[36..52] == c.spanId;
    assert t[..2] == "00" && t[2] == '-' && t[35] == '-' && t[52] == '-';
    assert t[53] == LowerDigit(c.flags / 16) && t[54] == LowerDigit(c.flags % 16);
    assert forall i :: 3 <= i < 35 ==> t[i] == c.traceId[i - 3];
    assert forall i :: 36 <= i < 52 ==> t[i] == c.spanId[i - 36];
    StripFixed(t);
    LowerFixed(t);
    assert Ascii(t) by { WrittenIsAscii(c); }
  }

  lemma WrittenIsAscii(c: TraceContext)
    requires ValidContext(c)
    ensures Ascii(TraceParent(c))
  {
  }

  /** Every accepted header is what a valid context writes, up to surrounding white space, letter
      case and the two version digits. */
  lemma ParsedIsWritten(header: string, state: Option<string>, fold: Folding)
    ensures var parsed := Parse(header, state, fold);
      parsed.Some? ==> ValidContext(parsed.value) && fold(Strip(header))[2..] == TraceParent(parsed.value)[2..]
  {
    if Parse(header, state, fold).Some? {
      ReadIsWritten(fold(Strip(header)), Parse(header, state, fold).value);
    }
  }

  lemma ReadIsWritten(t: string, c: TraceContext)
    requires WellFormed(t) && c.traceId == t[3..35] && c.spanId == t[36..52]
    requires c.flags == DigitValue(t[53]) * 16 + DigitValue(t[54])
    ensures ValidContext(c) && t[2..] == TraceParent(c)[2..]
  {
    PartsAreHex(t);
    DigitWritten(t[53]);
    DigitWritten(t[54]);
    WrittenTail(c);
    ReadTail(t);
  }

  lemma PartsAreHex(t: string)
    requires WellFormed(t)
    ensures AllHex(t[3..35]) && AllHex(t[36..52])
  {
    assert forall i :: 0 <= i < 32 ==> t[3..35][i] == t[i + 3];
    assert forall i :: 0 <= i < 16 ==> t[36..52][i] == t[i + 36];
  }

  lemma WrittenTail(c: TraceContext)
    requires 0 <= c.flags <= 255
    ensures TraceParent(c)[2..] == "-" + c.traceId + "-" + c.spanId + "-" + [LowerDigit(c.flags / 16), LowerDigit(c.flags % 16)]
  {
    var rest := "-" + c.traceId + "-" + c.spanId + "-" + [LowerDigit(c.flags / 16), LowerDigit(c.flags % 16)];
    assert TraceParent(c) == "00" + rest;
  }

  lemma ReadTail(t: string)
    requires |t| == 55 && t[2] == '-' && t[35] == '-' && t[52] == '-'
    ensures t[2..] == "-" + t[3..35] + "-" + t[36..52] + "-" + [t[53], t[54]]
  {
    assert t[2..] == t[2..3] + t[3..35] + t[35..36] + t[36..52] + t[52..53] + t[53..];
    assert t[2..3] == "-" && t[35..36] == "-" && t[52..53] == "-" && t[53..] == [t[53], t[54]];
  }

  lemma DigitWritten(c: char)
    requires HexDigit(c)
    ensures LowerDigit(DigitValue(c)) == c
  {
  }

  // ----- Percent-encoding ------------------------------------------------------------------------

  /** The unreserved characters of section 2.3 of RFC 3986. */
  predicate Unreserved(n: int) {
    || 'a' as int <= n <= 'z' as int || 'A' as int <= n <= 'Z' as int || '0' as int <= n <= '9' as int
    || n == '_' as int || n == '.' as int || n == '-' as int || n == '~' as int
  }

  function QuoteByte(b: byte): (r: string)
    ensures r != "" && Ascii(r)
  {
    if Unreserved(b) then [b as char] else ['%', UpperDigit(b / 16), UpperDigit(b % 16)]
  }

  function QuoteBytes(b: seq<byte>): string {
    if b == [] then "" else QuoteByte(b[0]) + QuoteBytes(b[1..])
  }

  function Quote(s: string): string {
    QuoteBytes(Encode(s))
  }

  /** A percent sign that two hexadecimal digits do not follow stands for itself. */
  function UnquoteBytes(s: string): seq<byte>
    requires Ascii(s)
  {
    if s == "" then []
    else if s[0] == '%' && |s| >= 3 && AnyCaseHex(s[1]) && AnyCaseHex(s[2]) then
      [DigitValue(s[1]) * 16 + DigitValue(s[2])] + UnquoteBytes(s[3..])
    else [s[0] as int] + UnquoteBytes(s[1..])
  }

  function AsciiRun(s: string): (n: nat)
    ensures n <= |s| && Ascii(s[..n])
    ensures Ascii(s) ==> n == |s|
  {
    if s == "" || s[0] as int >= 0x80 then 0
    else
      var n := AsciiRun(s[1..]);
      assert s[..1 + n] == [s[0]] + s[1..][..n];
      1 + n
  }

  /** Stretches of ASCII are decoded, other characters stay. */
  function UnquoteRuns(s: string): string {
    if s == "" then ""
    else
      var n := AsciiRun(s);
      if n == 0 then [s[0]] + UnquoteRuns(s[1..])
      else Decode(UnquoteBytes(s[..n])) + UnquoteRuns(s[n..])
  }

  function Unquote(s: string): string {
    if '%' !in s then s else UnquoteRuns(s)
  }

  lemma HexPair(b: byte)
    ensures DigitValue(UpperDigit(b / 16)) * 16 + DigitValue(UpperDigit(b % 16)) == b
  {
  }

  lemma UnquoteByte(b: byte, rest: string)
    requires Ascii(rest)
    ensures UnquoteBytes(QuoteByte(b) + rest) == [b] + UnquoteBytes(rest)
  {
    var s := QuoteByte(b) + rest;
    if Unreserved(b) {
      assert s[1..] == rest;
    } else {
      assert s[3..] == rest;
      assert s[1] == UpperDigit(b / 16) && s[2] == UpperDigit(b % 16);
      HexPair(b);
    }
  }

  /** What quoting can leave in a header. */
  predicate Plain(c: char) {
    Unreserved(c as int) || c == '%'
  }

  lemma {:induction false} QuotedIsPlain(b: seq<byte>)
    ensures Ascii(QuoteBytes(b)) && forall i :: 0 <= i < |QuoteBytes(b)| ==> Plain(QuoteBytes(b)[i])
    decreases |b|
  {
    if b != [] {
      QuotedIsPlain(b[1..]);
      assert forall i :: 0 <= i < |QuoteByte(b[0])| ==> Plain(QuoteByte(b[0])[i]);
    }
  }

  lemma {:induction false} BytesRoundTrip(b: seq<byte>)
    ensures Ascii(QuoteBytes(b)) && UnquoteBytes(QuoteBytes(b)) == b
    decreases |b|
  {
    QuotedIsPlain(b);
    if b != [] {
      QuotedIsPlain(b[1..]);
      BytesRoundTrip(b[1..]);
      UnquoteByte(b[0], QuoteBytes(b[1..]));
    }
  }

  lemma {:induction false} NoPercentNoChange(s: string)
    requires Ascii(s) && '%' !in s
    ensures UnquoteBytes(s) == Bytes(s)
    decreases |s|
  {
    if s != "" {
      NoPercentNoChange(s[1..]);
      assert Bytes(s) == [s[0] as int] + Bytes(s[1..]);
    }
  }

  lemma OneRun(s: string)
    requires Ascii(s)
    ensures UnquoteRuns(s) == Decode(UnquoteBytes(s))
  {
    if s != "" {
      assert s[..|s|] == s && s[|s|..] == "";
      assert UnquoteRuns("") == "";
    }
  }

  /** Unquoting undoes quoting, for every string. */
  lemma QuoteRoundTrip(s: string)
    ensures Unquote(Quote(s)) == s
  {
    var b, q := Encode(s), Quote(s);
    BytesRoundTrip(b);
    RoundTrip(s);
    if '%' in q {
      OneRun(q);
    } else {
      NoPercentNoChange(q);
      AsciiDecodes(q);
    }
  }

  // ----- Splitting and joining -----------------------------------------------------------------------

  /** The position of the first `c`, or the length when there is none. */
  function IndexOf(s: string, c: char): (n: nat)
    ensures n <= |s| && (n < |s| ==> s[n] == c) && forall i :: 0 <= i < n ==> s[i] != c
  {
    if s == "" || s[0] == c then 0 else
      var n := IndexOf(s[1..], c);
      assert forall i :: 1 <= i < 1 + n ==> s[i] == s[1..][i - 1];
      1 + n
  }

  function Split(s: string, c: char): seq<string>
    decreases |s|
  {
    var n := IndexOf(s, c);
    if n == |s| then [s] else [s[..n]] + Split(s[n + 1..], c)
  }

  function Join(items: seq<string>, c: char): string {
    if items == [] then "" else if |items| == 1 then items[0] else items[0] + [c] + Join(items[1..], c)
  }

  lemma FoundAt(s: string, c: char, n: nat)
    requires n <= |s| && c !in s[..n] && (n == |s| || s[n] == c)
    ensures IndexOf(s, c) == n
  {
    assert forall i :: 0 <= i < n ==> s[..n][i] == s[i];
  }

  lemma SplitLast(item: string, c: char)
    requires c !in item
    ensures Split(item, c) == [item]
  {
    assert item[..|item|] == item;
    FoundAt(item, c, |item|);
  }

  lemma SplitFirst(item: string, rest: string, c: char)
    requires c !in item
    ensures Split(item + [c] + rest, c) == [item] + Split(rest, c)
  {
    var s, n := item + [c] + rest, |item|;
    assert s[..n] == item && s[n] == c && s[n + 1..] == rest;
    FoundAt(s, c, n);
  }

  lemma {:induction false} SplitUndoesJoin(items: seq<string>, c: char)
    requires items != [] && forall i :: 0 <= i < |items| ==> c !in items[i]
    ensures Split(Join(items, c), c) == items
    decreases |items|
  {
    if |items| == 1 {
      SplitLast(items[0], c);
    } else {
      SplitFirst(items[0], Join(items[1..], c), c);
      SplitUndoesJoin(items[1..], c);
    }
  }

  lemma {:induction false} StripKeeps(s: string, c: char)
    requires c in s && !White(c)
    ensures c in Strip(s)
    decreases |s|
  {
    if White(s[0]) {
      StripKeeps(s[1..], c);
    } else if White(s[|s| - 1]) {
      StripKeeps(s[..|s| - 1], c);
    }
  }

  // ----- Baggage -----------------------------------------------------------------------------------------

  /** One list member as it is written, and the effect of one list member on what has been read. */
  function Item(key: string, value: string): string {
    Quote(key) + "=" + Quote(value)
  }

  /** The text before the first equals sign, and the text after it up to a semicolon. */
  function Halves(t: string): (string, string)
    requires '=' in t
  {
    var n := IndexOf(t, '=');
    assert t[..|t|] == t;
    var value := t[n + 1..];
    (t[..n], value[..IndexOf(value, ';')])
  }

  function Absorb(baggage: map<string, string>, item: string): map<string, string> {
    var t := Strip(item);
    if t == "" || '=' !in item then baggage
    else
      StripKeeps(item, '=');
      var (key, value) := Halves(t);
      baggage[Unquote(key) := Unquote(value)]
  }

  function Gather(items: seq<string>): map<string, string> {
    if items == [] then map[] else Absorb(Gather(items[..|items| - 1]), items[|items| - 1])
  }

  function Items(baggage: map<string, string>, keys: seq<string>): (r: seq<string>)
    requires forall k :: k in keys ==> k in baggage
    ensures |r| == |keys|
  {
    seq(|keys|, i requires 0 <= i < |keys| => Item(keys[i], baggage[keys[i]]))
  }

  lemma PlainIsSafe(s: string)
    ensures var q := Quote(s);
      && ',' !in q && '=' !in q && ';' !in q && forall i :: 0 <= i < |q| ==> !White(q[i])
  {
    QuotedIsPlain(Encode(s));
  }

  lemma CutBefore(front: string, c: char, rest: string)
    requires c !in front
    ensures var t := front + [c] + rest; IndexOf(t, c) == |front| && t[..|front|] == front && t[|front| + 1..] == rest
  {
    var t := front + [c] + rest;
    assert t[..|front|] == front && t[|front|] == c;
    FoundAt(t, c, |front|);
  }

  lemma CutAtEnd(front: string, c: char)
    requires c !in front
    ensures IndexOf(front, c) == |front| && front[..|front|] == front
  {
    assert front[..|front|] == front;
    FoundAt(front, c, |front|);
  }

  lemma ValueCut(value: string, tail: string)
    requires tail == "" || tail[0] == ';'
    ensures var v := Quote(value) + tail; IndexOf(v, ';') == |Quote(value)| && v[..|Quote(value)|] == Quote(value)
  {
    PlainIsSafe(value);
    if tail == "" {
      assert Quote(value) + tail == Quote(value);
      CutAtEnd(Quote(value), ';');
    } else {
      assert Quote(value) + tail == Quote(value) + [';'] + tail[1..];
      CutBefore(Quote(value), ';', tail[1..]);
    }
  }

  lemma StripHolds(item: string, c: char)
    ensures c in Strip(item) ==> c in item
  {
    var i, j := StripExactly(item);
  }

  lemma EqualsKept(item: string)
    requires '=' in Strip(item)
    ensures Strip(item) != "" && '=' in item
  {
    StripHolds(item, '=');
  }

  lemma WrittenHalves(t: string, key: string, value: string, tail: string)
    requires t == Quote(key) + ['='] + (Quote(value) + tail) && (tail == "" || tail[0] == ';')
    ensures '=' in t && Halves(t) == (Quote(key), Quote(value))
  {
    PlainIsSafe(key);
    CutBefore(Quote(key), '=', Quote(value) + tail);
    ValueCut(value, tail);
    assert t[|Quote(key)|] == '=';
  }

  /** A list member is read as its key and value also between white space and with properties. */
  lemma MemberIsRead(baggage: map<string, string>, item: string, key: string, value: string, tail: string)
    requires Strip(item) == Quote(key) + ['='] + (Quote(value) + tail) && (tail == "" || tail[0] == ';')
    ensures Absorb(baggage, item) == baggage[key := value]
  {
    WrittenHalves(Strip(item), key, value, tail);
    EqualsKept(item);
    QuoteRoundTrip(key);
    QuoteRoundTrip(value);
  }

  /** Reading a written member gives its key and value back. */
  lemma ItemIsRead(baggage: map<string, string>, key: string, value: string)
    ensures Absorb(baggage, Item(key, value)) == baggage[key := value]
    ensures ',' !in Item(key, value)
  {
    PlainIsSafe(key);
    PlainIsSafe(value);
    StripFixed(Item(key, value));
    assert Item(key, value) == Quote(key) + ['='] + (Quote(value) + "");
    MemberIsRead(baggage, Item(key, value), key, value, "");
  }

  function Restricted(baggage: map<string, string>, keys: seq<string>): map<string, string>
    requires forall k :: k in keys ==> k in baggage
  {
    map k | k in keys :: baggage[k]
  }

  lemma GatherItem(items: seq<string>, key: string, value: string)
    ensures Gather(items + [Item(key, value)]) == Gather(items)[key := value]
  {
    assert (items + [Item(key, value)])[..|items|] == items;
    ItemIsRead(Gather(items), key, value);
  }

  lemma OneMoreKey(baggage: map<string, string>, front: seq<string>, last: string)
    requires forall k :: k in front + [last] ==> k in baggage
    ensures forall k :: k in front ==> k in front + [last]
    ensures last in front + [last]
    ensures Items(baggage, front + [last]) == Items(baggage, front) + [Item(last, baggage[last])]
    ensures Restricted(baggage, front + [last]) == Restricted(baggage, front)[last := baggage[last]]
  {
    assert last == (front + [last])[|front|];
  }

  lemma {:induction false} BaggageIsRead(baggage: map<string, string>, keys: seq<string>)
    requires forall k :: k in keys ==> k in baggage
    ensures Gather(Items(baggage, keys)) == Restricted(baggage, keys)
    decreases |keys|
  {
    if keys != [] {
      var front, last := keys[..|keys| - 1], keys[|keys| - 1];
      assert keys == front + [last];
      OneMoreKey(baggage, front, last);
      BaggageIsRead(baggage, front);
      GatherItem(Items(baggage, front), last, baggage[last]);
    }
  }

  lemma BaggageRoundTrip(baggage: map<string, string>, keys: seq<string>)
    requires baggage != map[] && forall k :: k in keys <==> k in baggage
    ensures Gather(Split(Join(Items(baggage, keys), ','), ',')) == baggage
  {
    var items := Items(baggage, keys);
    forall i | 0 <= i < |items| ensures ',' !in items[i] {
      ItemIsRead(map[], keys[i], baggage[keys[i]]);
    }
    assert keys == [] ==> forall k :: k !in baggage;
    SplitUndoesJoin(items, ',');
    BaggageIsRead(baggage, keys);
  }

  // ----- Carriers --------------------------------------------------------------------------------------------

  /** The headers of a message, in insertion order. */
  type Headers = seq<(string, string)>

  function Put(headers: Headers, key: string, value: string): Headers {
    if headers == [] then [(key, value)]
    else if headers[0].0 == key then [(key, value)] + headers[1..]
    else [headers[0]] + Put(headers[1..], key, value)
  }

  /** The value under `key` once letter case is ignored: of several the last wins. */
  function Value(headers: Headers, key: string, fold: Folding): Option<string> {
    if headers == [] then None
    else if fold(headers[|headers| - 1].0) == key then Some(headers[|headers| - 1].1)
    else Value(headers[..|headers| - 1], key, fold)
  }

  function Injected(headers: Headers, c: TraceContext, keys: seq<string>): Headers
    requires 0 <= c.flags <= 255 && forall k :: k in keys ==> k in c.baggage
  {
    var h1 := Put(headers, "traceparent", TraceParent(c));
    var h2 := if c.state.Some? && c.state.value != "" then Put(h1, "tracestate", c.state.value) else h1;
    if c.baggage == map[] then h2 else Put(h2, "baggage", Join(Items(c.baggage, keys), ','))
  }

  datatype Extraction = NoTrace | InvalidTrace | Extracted(context: TraceContext)

  function ValueOr(headers: Headers, key: string, default: string, fold: Folding): string {
    if Value(headers, key, fold).Some? then Value(headers, key, fold).value else default
  }

  function ExtractedFrom(headers: Headers, fold: Folding): Extraction {
    var header := Value(headers, "traceparent", fold);
    if header.None? then NoTrace
    else
      var c := Parse(header.value, Value(headers, "tracestate", fold), fold);
      if c.None? then InvalidTrace
      else Extracted(c.value.(baggage := Gather(Split(ValueOr(headers, "baggage", "", fold), ','))))
  }

  /** All keys, each once, in increasing order. */
  ghost predicate Listing(keys: set<string>, list: seq<string>) {
    && (forall k :: k in list <==> k in keys)
    && forall i, j :: 0 <= i < j < |list| ==> StringLess(list[i], list[j])
  }

  class Carrier {
    var headers: Headers

    constructor (headers: Headers)
      ensures this.headers == headers
    {
      this.headers := headers;
    }
  }

  method SortKeys(keys: set<string>) returns (list: seq<string>)
    ensures Listing(keys, list)
  {
    list := [];
    var todo := keys;
    while todo != {}
      invariant todo <= keys && Listing(keys - todo, list)
      decreases todo
    {
      var key :| key in todo;
      var i := 0;
      while i < |list| && StringLess(list[i], key)
        invariant 0 <= i <= |list|
        invariant forall k :: 0 <= k < i ==> StringLess(list[k], key)
      {
        i := i + 1;
      }
      InsertedListing(keys - todo, list, key, i);
      list := list[..i] + [key] + list[i..];
      todo := todo - {key};
      assert keys - todo == keys - (todo + {key}) + {key};
    }
    assert keys - todo == keys;
  }

  lemma InsertedListing(keys: set<string>, list: seq<string>, key: string, i: nat)
    requires Listing(keys, list) && key !in keys && i <= |list|
    requires forall k :: 0 <= k < i ==> StringLess(list[k], key)
    requires i < |list| ==> !StringLess(list[i], key)
    ensures Listing(keys + {key}, list[..i] + [key] + list[i..])
  {
    var longer := list[..i] + [key] + list[i..];
    forall k | i <= k < |list| ensures StringLess(key, list[k]) {
      assert list[k] in keys && list[i] in keys;
      StringLessTotal(key, list[i]);
      if i < k {
        StringLessTransitive(key, list[i], list[k]);
      }
    }
    assert forall k :: k in longer <==> k in list[..i] || k == key || k in list[i..];
    assert forall k :: k in list <==> k in list[..i] || k in list[i..] by {
      assert list == list[..i] + list[i..];
    }
  }

  method Inject(carrier: Carrier, context: Option<TraceContext>) returns (ghost keys: seq<string>)
    requires context.Some? ==> ValidContext(context.value)
    modifies carrier
    ensures context.None? ==> carrier.headers == old(carrier.headers)
    ensures context.Some? ==>
      && Listing(context.value.baggage.Keys, keys)
      && carrier.headers == Injected(old(carrier.headers), context.value, keys)
  {
    keys := [];
    if context.None? { return; }
    var c := context.value;
    carrier.headers := Put(carrier.headers, "traceparent", TraceParent(c));
    if c.state.Some? && c.state.value != "" {
      carrier.headers := Put(carrier.headers, "tracestate", c.state.value);
    }
    var sorted := SortKeys(c.baggage.Keys);
    if c.baggage != map[] {
      carrier.headers := Put(carrier.headers, "baggage", Join(Items(c.baggage, sorted), ','));
    }
    keys := sorted;
  }

  method Extract(carrier: Carrier, fold: Folding) returns (answer: Extraction)
    ensures answer == ExtractedFrom(carrier.headers, fold)
  {
    var header := Value(carrier.headers, "traceparent", fold);
    if header.None? { return NoTrace; }
    var context := Parse(header.value, Value(carrier.headers, "tracestate", fold), fold);
    if context.None? { return InvalidTrace; }
    var items := Split(ValueOr(carrier.headers, "baggage", "", fold), ',');
    var baggage, i := map[], 0;
    while i < |items|
      invariant 0 <= i <= |items| && baggage == Gather(items[..i])
    {
      assert items[..i + 1][..i] == items[..i];
      baggage := Absorb(baggage, items[i]);
      i := i + 1;
    }
    assert items[..i] == items;
    if baggage != map[] {
      return Extracted(context.value.(baggage := baggage));
    }
    return Extracted(context.value);
  }

  // ----- Propagation ---------------------------------------------------------------------------------------

  /** No header of the carrier is one of the three, in any letter case. */
  ghost predicate Untraced(headers: Headers, fold: Folding) {
    forall h :: h in headers ==> fold(h.0) != "traceparent" && fold(h.0) != "tracestate" && fold(h.0) != "baggage"
  }

  lemma HeaderNames(fold: Folding)
    requires FoldsAscii(fold)
    ensures fold("traceparent") == "traceparent" && fold("tracestate") == "tracestate" && fold("baggage") == "baggage"
  {
    LowerFixed("traceparent");
    LowerFixed("tracestate");
    LowerFixed("baggage");
  }

  lemma {:induction false} PutNew(headers: Headers, key: string, value: string)
    requires forall h :: h in headers ==> h.0 != key
    ensures Put(headers, key, value) == headers + [(key, value)]
  {
    if headers != [] {
      PutNew(headers[1..], key, value);
      assert headers + [(key, value)] == [headers[0]] + (headers[1..] + [(key, value)]);
    }
  }

  lemma {:induction false} NoValue(headers: Headers, key: string, fold: Folding)
    requires forall h :: h in headers ==> fold(h.0) != key
    ensures Value(headers, key, fold) == None
    decreases |headers|
  {
    if headers != [] {
      NoValue(headers[..|headers| - 1], key, fold);
    }
  }

  lemma ValueAppended(headers: Headers, key: string, value: string, asked: string, fold: Folding)
    requires fold(key) == key
    ensures Value(headers + [(key, value)], asked, fold) == if asked == key then Some(value) else Value(headers, asked, fold)
  {
    assert (headers + [(key, value)])[..|headers|] == headers;
  }

  /** What injection leaves in an untraced carrier. */
  lemma InjectedValues(headers: Headers, c: TraceContext, keys: seq<string>, fold: Folding)
    requires FoldsAscii(fold) && Untraced(headers, fold) && ValidContext(c) && forall k :: k in keys ==> k in c.baggage
    ensures var after := Injected(headers, c, keys);
      && Value(after, "traceparent", fold) == Some(TraceParent(c))
      && Value(after, "tracestate", fold) == (if c.state == Some("") then None else c.state)
      && Value(after, "baggage", fold) == if c.baggage == map[] then None else Some(Join(Items(c.baggage, keys), ','))
  {
    HeaderNames(fold);
    NoValue(headers, "traceparent", fold);
    NoValue(headers, "tracestate", fold);
    NoValue(headers, "baggage", fold);
    PutNew(headers, "traceparent", TraceParent(c));
    var h1 := headers + [("traceparent", TraceParent(c))];
    AllValuesAppended(headers, "traceparent", TraceParent(c), fold);
    var h2 := h1;
    if c.state.Some? && c.state.value != "" {
      PutNew(h1, "tracestate", c.state.value);
      h2 := h1 + [("tracestate", c.state.value)];
      AllValuesAppended(h1, "tracestate", c.state.value, fold);
    }
    if c.baggage != map[] {
      PutNew(h2, "baggage", Join(Items(c.baggage, keys), ','));
      AllValuesAppended(h2, "baggage", Join(Items(c.baggage, keys), ','), fold);
    }
  }

  lemma AllValuesAppended(headers: Headers, key: string, value: string, fold: Folding)
    requires fold(key) == key
    ensures forall asked :: Value(headers + [(key, value)], asked, fold) == if asked == key then Some(value) else Value(headers, asked, fold)
  {
    forall asked { ValueAppended(headers, key, value, asked, fold); }
  }

  /** Propagation: what is injected into a carrier without trace headers is extracted again, with
      all its baggage, whatever characters its keys and values hold.  Only an empty trace state
      is lost: it comes back as an absent one. */
  lemma ExtractsWhatWasInjected(headers: Headers, c: TraceContext, keys: seq<string>, fold: Folding)
    requires FoldsAscii(fold) && Untraced(headers, fold) && ValidContext(c) && Listing(c.baggage.Keys, keys)
    ensures ExtractedFrom(Injected(headers, c, keys), fold) == Extracted(c.(state := if c.state == Some("") then None else c.state))
    ensures ExtractedFrom(Injected(headers, c, keys), fold) == Extracted(c) <==> c.state != Some("")
  {
    var state := if c.state == Some("") then None else c.state;
    InjectedValues(headers, c, keys, fold);
    TraceParentRoundTrip(c, state, fold);
    if c.baggage == map[] {
      NothingGathered();
    } else {
      BaggageRoundTrip(c.baggage, keys);
    }
  }

  lemma NothingGathered()
    ensures Gather(Split("", ',')) == map[]
  {
    assert Split("", ',') == [""];
    assert Gather([""]) == Absorb(Gather([]), "");
  }

  // ----- Foreign headers -------------------------------------------------------------------------------------

  /** Quoting keeps letters, digits and four marks, and writes every other byte as a percent sign and
      two hexadecimal digits. */
  lemma QuotedExactly(b: byte)
    ensures var c := b as char;
      if c in LOWER_LETTERS || c in UPPER_LETTERS || c in DIGITS || c in "_.-~" then QuoteByte(b) == [c]
      else |QuoteByte(b)| == 3 && QuoteByte(b)[0] == '%'
           && AnyCaseHex(QuoteByte(b)[1]) && AnyCaseHex(QuoteByte(b)[2])
           && DigitValue(QuoteByte(b)[1]) == b / 16 && DigitValue(QuoteByte(b)[2]) == b % 16
  {
    LetterTables(b as char);
  }

  /** A header whose version is any but `ff` is read like one of version 00, and one of version `ff`
      is refused. */
  lemma VersionIsRead(c: TraceContext, a: char, b: char, state: Option<string>, fold: Folding)
    requires ValidContext(c) && FoldsAscii(fold) && HexDigit(a) && HexDigit(b)
    ensures Parse([a, b] + TraceParent(c)[2..], state, fold)
         == if a == 'f' && b == 'f' then None else Some(c.(state := state, baggage := map[]))
  {
    var t := [a, b] + TraceParent(c)[2..];
    VersionedParts(c, a, b);
    VersionChecked(c, a, b);
    AsReadAlready(t, fold);
  }

  /** Text of digits, lower-case hexadecimal letters and dashes is left alone. */
  lemma AsReadAlready(t: string, fold: Folding)
    requires FoldsAscii(fold) && forall i :: 0 <= i < |t| ==> HexDigit(t[i]) || t[i] == '-'
    ensures fold(Strip(t)) == t
  {
    StripFixed(t);
    LowerFixed(t);
    assert Ascii(t);
  }

  lemma VersionChecked(c: TraceContext, a: char, b: char)
    requires ValidContext(c) && HexDigit(a) && HexDigit(b)
    ensures WellFormed([a, b] + TraceParent(c)[2..]) <==> a != 'f' || b != 'f'
  {
    VersionedParts(c, a, b);
    assert [a, b][0] == a && [a, b][1] == b;
  }

  lemma VersionedParts(c: TraceContext, a: char, b: char)
    requires ValidContext(c) && HexDigit(a) && HexDigit(b)
    ensures var t := [a, b] + TraceParent(c)[2..];
      && |t| == 55 && t[3..35] == c.traceId && t[36..52] == c.spanId && t[..2] == [a, b]
      && t[2] == '-' && t[35] == '-' && t[52] == '-'
      && t[53] == LowerDigit(c.flags / 16) && t[54] == LowerDigit(c.flags % 16)
      && HexRange(t, 3, 35) && HexRange(t, 36, 52) && (forall i :: 0 <= i < |t| ==> HexDigit(t[i]) || t[i] == '-')
  {
    var t := [a, b] + TraceParent(c)[2..];
    WrittenTail(c);
    assert t[3..35] == c.traceId && t[36..52] == c.spanId;
    assert forall i :: 3 <= i < 35 ==> t[i] == c.traceId[i - 3];
    assert forall i :: 36 <= i < 52 ==> t[i] == c.spanId[i - 36];
  }

  /** A list member without an equals sign is ignored. */
  lemma NoMember(baggage: map<string, string>, item: string)
    requires '=' !in item
    ensures Absorb(baggage, item) == baggage
  {
  }

  /** Writing a header replaces it in its place, or appends it. */
  lemma {:induction false} PutExactly(headers: Headers, key: string, value: string, i: nat)
    requires i <= |headers| && (i < |headers| ==> headers[i].0 == key)
    requires forall k :: 0 <= k < i ==> headers[k].0 != key
    ensures Put(headers, key, value) == if i < |headers| then headers[i := (key, value)] else headers + [(key, value)]
    decreases i
  {
    if i > 0 {
      PutExactly(headers[1..], key, value, i - 1);
    }
  }

  /** Of several headers that differ in letter case only, the last is read. */
  lemma {:induction false} LastWins(headers: Headers, key: string, fold: Folding, i: nat)
    requires i < |headers| && fold(headers[i].0) == key && forall k :: i < k < |headers| ==> fold(headers[k].0) != key
    ensures Value(headers, key, fold) == Some(headers[i].1)
    decreases |headers|
  {
    if i < |headers| - 1 {
      LastWins(headers[..|headers| - 1], key, fold, i);
    }
  }

  /** No percent sign is followed by two hexadecimal digits. */
  ghost predicate Unescaped(s: string) {
    forall i :: 0 <= i < |s| - 2 && s[i] == '%' ==> !AnyCaseHex(s[i + 1]) || !AnyCaseHex(s[i + 2])
  }

  lemma {:induction false} UnescapedBytes(s: string)
    requires Ascii(s) && Unescaped(s)
    ensures UnquoteBytes(s) == Bytes(s)
    decreases |s|
  {
    if s != "" {
      assert Unescaped(s[1..]) by { assert forall i :: 0 <= i < |s| - 1 ==> s[1..][i] == s[i + 1]; }
      UnescapedBytes(s[1..]);
      assert Bytes(s) == [s[0] as int] + Bytes(s[1..]);
    }
  }

  lemma UnescapedParts(s: string, k: nat)
    requires Unescaped(s) && k <= |s|
    ensures Unescaped(s[..k]) && Unescaped(s[k..]) && s == s[..k] + s[k..]
  {
    assert forall i :: 0 <= i < k ==> s[..k][i] == s[i];
    assert forall i :: 0 <= i < |s| - k ==> s[k..][i] == s[i + k];
  }

  lemma UnescapedRun(s: string)
    requires Ascii(s) && Unescaped(s)
    ensures Decode(UnquoteBytes(s)) == s
  {
    UnescapedBytes(s);
    AsciiDecodes(s);
  }

  lemma {:induction false} UnescapedRuns(s: string)
    requires Unescaped(s)
    ensures UnquoteRuns(s) == s
    decreases |s|
  {
    if s != "" {
      var n := AsciiRun(s);
      UnescapedParts(s, if n == 0 then 1 else n);
      UnescapedRuns(s[if n == 0 then 1 else n..]);
      if n > 0 { UnescapedRun(s[..n]); }
    }
  }

  /** Text without escapes is left alone, whatever characters it holds. */
  lemma UnescapedStays(s: string)
    requires Unescaped(s)
    ensures Unquote(s) == s
  {
    UnescapedRuns(s);
  }

  /** What extraction comes to: nothing without the header, an error exactly when the header does not
      parse, and otherwise its context with the other two headers. */
  lemma ExtractionOutcome(headers: Headers, fold: Folding)
    ensures var r := ExtractedFrom(headers, fold);
      && (r.NoTrace? <==> forall h :: h in headers ==> fold(h.0) != "traceparent")
      && (r.Extracted? ==> && r.context.state == Value(headers, "tracestate", fold)
                           && Value(headers, "traceparent", fold).Some?
                           && Parse(Value(headers, "traceparent", fold).value, r.context.state, fold) == Some(r.context.(baggage := map[])))
      && (r.InvalidTrace? ==> && Value(headers, "traceparent", fold).Some?
                              && Parse(Value(headers, "traceparent", fold).value, Value(headers, "tracestate", fold), fold).None?)
  {
    ValueIfAny(headers, "traceparent", fold);
  }

  lemma {:induction false} ValueIfAny(headers: Headers, key: string, fold: Folding)
    ensures Value(headers, key, fold).Some? <==> exists h :: h in headers && fold(h.0) == key
    decreases |headers|
  {
    if headers != [] {
      var front, last := headers[..|headers| - 1], headers[|headers| - 1];
      ValueIfAny(front, key, fold);
      assert headers == front + [last];
      assert forall h :: h in headers <==> h in front || h == last;
    }
  }
}
