/** The safe data model of payloads: arbitrary values are normalised to JSON values of bounded
    depth, frozen while an envelope holds them and thawed again for the wire. */
module JsonValues {
  import opened Wrappers

  /** `NonFinite` is what a decoder makes of a number beyond the range of floats; it is never the
      result of normalising. */
  datatype Json =
    | Null | Bool(b: bool) | Int(n: int) | Float(x: real) | NonFinite | Str(s: string)
    | Object(fields: map<string, Json>) | Array(items: seq<Json>)

  /** The values that the normaliser tells apart.  `Text` stands for dates, times, UUIDs,
      decimals and paths, which become their text; `Model` for dataclasses and for objects that
      dump themselves as a mapping; a float without a value is not finite; `otherKeys` says that
      a mapping also has keys that are not strings. */
  datatype Value =
    | VNull | VBool(b: bool) | VInt(n: int) | VFloat(x: Option<real>) | VStr(s: string)
    | Member(value: Value) | Text(text: string) | Binary
    | Model(attributes: map<string, Value>) | Mapping(entries: map<string, Value>, otherKeys: bool)
    | Sequence(items: seq<Value>) | SetValue | Unsupported

  const MAX_DEPTH: nat := 64

  // ----- Normalisation -------------------------------------------------------------------

  /** None stands for the validation error. */
  function Normal(v: Value, depth: nat, max: nat): Option<Json> {
    if depth > max then None
    else
      match v
      case VNull => Some(Null)
      case VBool(b) => Some(Bool(b))
      case VStr(s) => Some(Str(s))
      case VInt(n) => Some(Int(n))
      case VFloat(x) => if x.None? then None else Some(Float(x.value))
      case Member(w) => Normal(w, depth + 1, max)
      case Text(t) => Some(Str(t))
      case Binary => None
      case Model(attributes) => NormalFields(map k | k in attributes :: Normal(attributes[k], depth + 1, max))
      case Mapping(entries, otherKeys) =>
        if otherKeys then None else NormalFields(map k | k in entries :: Normal(entries[k], depth + 1, max))
      case Sequence(items) => NormalItems(seq(|items|, i requires 0 <= i < |items| => Normal(items[i], depth + 1, max)))
      case SetValue => None
      case Unsupported => None
  }

  function NormalFields(results: map<string, Option<Json>>): Option<Json> {
    if exists k :: k in results && results[k].None? then None
    else Some(Object(map k | k in results && results[k].Some? :: results[k].value))
  }

  function NormalItems(results: seq<Option<Json>>): Option<Json> {
    if exists i :: 0 <= i < |results| && results[i].None? then None
    else Some(Array(seq(|results|, i requires 0 <= i < |results| => if results[i].Some? then results[i].value else Null)))
  }

  /** The public entry point. */
  function ToJson(v: Value): Option<Json> {
    Normal(v, 0, MAX_DEPTH)
  }

  /** A JSON value seen as an arbitrary value again. */
  function Embed(j: Json): Value {
    match j
    case Null => VNull
    case Bool(b) => VBool(b)
    case Int(n) => VInt(n)
    case Float(x) => VFloat(Some(x))
    case NonFinite => VFloat(None)
    case Str(s) => VStr(s)
    case Object(fields) => Mapping(map k | k in fields :: Embed(fields[k]), false)
    case Array(items) => Sequence(seq(|items|, i requires 0 <= i < |items| => Embed(items[i])))
  }

  /** Every number of `j` is finite and no part of it, itself at `depth`, lies deeper than `max`. */
  predicate Fits(j: Json, depth: nat, max: nat) {
    && depth <= max
    && match j
       case Object(fields) => forall k :: k in fields ==> Fits(fields[k], depth + 1, max)
       case Array(items) => forall i :: 0 <= i < |items| ==> Fits(items[i], depth + 1, max)
       case NonFinite => false
       case _ => true
  }

  lemma FieldsOfJson(fields: map<string, Json>, results: map<string, Option<Json>>, depth: nat, max: nat)
    requires results.Keys == fields.Keys
    requires forall k :: k in fields ==> results[k] == if Fits(fields[k], depth, max) then Some(fields[k]) else None
    ensures NormalFields(results) == if forall k :: k in fields ==> Fits(fields[k], depth, max) then Some(Object(fields)) else None
  {
    if NormalFields(results).Some? {
      assert NormalFields(results).value.fields == fields;
    }
  }

  lemma ItemsOfJson(items: seq<Json>, results: seq<Option<Json>>, depth: nat, max: nat)
    requires |results| == |items|
    requires forall i :: 0 <= i < |items| ==> results[i] == if Fits(items[i], depth, max) then Some(items[i]) else None
    ensures NormalItems(results) == if forall i :: 0 <= i < |items| ==> Fits(items[i], depth, max) then Some(Array(items)) else None
  {
    if NormalItems(results).Some? {
      assert NormalItems(results).value.items == items;
    }
  }

  ghost predicate KeptIfFits(j: Json, depth: nat, max: nat) {
    Normal(Embed(j), depth, max) == if Fits(j, depth, max) then Some(j) else None
  }

  lemma ObjectKept(fields: map<string, Json>, depth: nat, max: nat)
    requires forall k :: k in fields ==> KeptIfFits(fields[k], depth + 1, max)
    ensures KeptIfFits(Object(fields), depth, max)
  {
    var entries := Embed(Object(fields)).entries;
    FieldsOfJson(fields, map k | k in entries :: Normal(entries[k], depth + 1, max), depth + 1, max);
  }

  lemma ArrayKept(items: seq<Json>, depth: nat, max: nat)
    requires forall i :: 0 <= i < |items| ==> KeptIfFits(items[i], depth + 1, max)
    ensures KeptIfFits(Array(items), depth, max)
  {
    var values := Embed(Array(items)).items;
    assert forall i :: 0 <= i < |items| ==> values[i] == Embed(items[i]);
    ItemsOfJson(items, seq(|values|, i requires 0 <= i < |values| => Normal(values[i], depth + 1, max)), depth + 1, max);
  }

  lemma {:induction false} Kept(j: Json, depth: nat, max: nat)
    ensures KeptIfFits(j, depth, max)
    decreases j
  {
    match j
    case Object(fields) =>
      forall k | k in fields ensures KeptIfFits(fields[k], depth + 1, max) {
        Kept(fields[k], depth + 1, max);
      }
      ObjectKept(fields, depth, max);
    case Array(items) =>
      forall i | 0 <= i < |items| ensures KeptIfFits(items[i], depth + 1, max) {
        Kept(items[i], depth + 1, max);
      }
      ArrayKept(items, depth, max);
    case _ =>
  }

  /** JSON values are normal already: they are kept unchanged exactly when they are finite
      and not nested too deeply. */
  lemma NormalOfJson(j: Json, depth: nat, max: nat)
    ensures Normal(Embed(j), depth, max) == if Fits(j, depth, max) then Some(j) else None
  {
    Kept(j, depth, max);
  }

  /** Whatever the normaliser accepts, its result is within the depth limit. */
  lemma {:induction false} NormalFits(v: Value, depth: nat, max: nat)
    ensures Normal(v, depth, max).Some? ==> Fits(Normal(v, depth, max).value, depth, max)
  {
    match v
    case Member(w) =>
      NormalFits(w, depth + 1, max);
      if Normal(v, depth, max).Some? { FitsHigher(Normal(v, depth, max).value, depth, depth + 1, max); }
    case Model(attributes) =>
      forall k | k in attributes
        ensures Normal(attributes[k], depth + 1, max).Some? ==> Fits(Normal(attributes[k], depth + 1, max).value, depth + 1, max)
      {
        NormalFits(attributes[k], depth + 1, max);
      }
    case Mapping(entries, _) =>
      forall k | k in entries
        ensures Normal(entries[k], depth + 1, max).Some? ==> Fits(Normal(entries[k], depth + 1, max).value, depth + 1, max)
      {
        NormalFits(entries[k], depth + 1, max);
      }
    case Sequence(items) =>
      forall i | 0 <= i < |items|
        ensures Normal(items[i], depth + 1, max).Some? ==> Fits(Normal(items[i], depth + 1, max).value, depth + 1, max)
      {
        NormalFits(items[i], depth + 1, max);
      }
    case _ =>
  }

  lemma {:induction false} FitsHigher(j: Json, depth: nat, deeper: nat, max: nat)
    requires depth <= deeper && Fits(j, deeper, max)
    ensures Fits(j, depth, max)
  {
    match j
    case Object(fields) =>
      forall k | k in fields ensures Fits(fields[k], depth + 1, max) { FitsHigher(fields[k], depth + 1, deeper + 1, max); }
    case Array(items) =>
      forall i | 0 <= i < |items| ensures Fits(items[i], depth + 1, max) { FitsHigher(items[i], depth + 1, deeper + 1, max); }
    case _ =>
  }

  /** One level of nesting costs one level of depth. */
  lemma {:induction false} FitsShifted(j: Json, depth: nat, max: nat)
    ensures Fits(j, depth + 1, max + 1) <==> Fits(j, depth, max)
  {
    match j
    case Object(fields) =>
      forall k | k in fields ensures Fits(fields[k], depth + 2, max + 1) <==> Fits(fields[k], depth + 1, max) {
        FitsShifted(fields[k], depth + 1, max);
      }
    case Array(items) =>
      forall i | 0 <= i < |items| ensures Fits(items[i], depth + 2, max + 1) <==> Fits(items[i], depth + 1, max) {
        FitsShifted(items[i], depth + 1, max);
      }
    case _ =>
  }

  /** Normalising is idempotent: an accepted value's normal form is accepted unchanged. */
  lemma NormalisingTwice(v: Value)
    ensures ToJson(v).Some? ==> ToJson(Embed(ToJson(v).value)) == ToJson(v)
  {
    NormalFits(v, 0, MAX_DEPTH);
    if ToJson(v).Some? {
      NormalOfJson(ToJson(v).value, 0, MAX_DEPTH);
    }
  }

  /** Values that are no JSON themselves are normalised like the text, the member's value or the mapping
      they stand for; bytes, sets, floats that are not finite, mappings with other keys and
      anything else are refused. */
  lemma NormalisedAlike(text: string, w: Value, fields: map<string, Value>, depth: nat, max: nat)
    ensures Normal(Text(text), depth, max) == Normal(VStr(text), depth, max)
    ensures depth <= max ==> Normal(Member(w), depth, max) == Normal(w, depth + 1, max)
    ensures Normal(Model(fields), depth, max) == Normal(Mapping(fields, false), depth, max)
    ensures Normal(Mapping(fields, true), depth, max).None? && Normal(VFloat(None), depth, max).None?
    ensures Normal(Binary, depth, max).None? && Normal(SetValue, depth, max).None? && Normal(Unsupported, depth, max).None?
  {
  }

  // ----- Freezing ------------------------------------------------------------------------

  /** What an envelope holds: read-only mappings and tuples. */
  datatype Frozen =
    | FNull | FBool(b: bool) | FInt(n: int) | FFloat(x: real) | FNonFinite | FStr(s: string)
    | Proxy(fields: map<string, Frozen>) | Tuple(items: seq<Frozen>)

  function Freeze(j: Json): Frozen {
    match j
    case Null => FNull
    case Bool(b) => FBool(b)
    case Int(n) => FInt(n)
    case Float(x) => FFloat(x)
    case NonFinite => FNonFinite
    case Str(s) => FStr(s)
    case Object(fields) => Proxy(map k | k in fields :: Freeze(fields[k]))
    case Array(items) => Tuple(seq(|items|, i requires 0 <= i < |items| => Freeze(items[i])))
  }

  function Thaw(f: Frozen): Json {
    match f
    case FNull => Null
    case FBool(b) => Bool(b)
    case FInt(n) => Int(n)
    case FFloat(x) => Float(x)
    case FNonFinite => NonFinite
    case FStr(s) => Str(s)
    case Proxy(fields) => Object(map k | k in fields :: Thaw(fields[k]))
    case Tuple(items) => Array(seq(|items|, i requires 0 <= i < |items| => Thaw(items[i])))
  }

  lemma {:induction false} ThawFreeze(j: Json)
    ensures Thaw(Freeze(j)) == j
  {
    match j
    case Object(fields) =>
      forall k | k in fields ensures Thaw(Freeze(fields[k])) == fields[k] { ThawFreeze(fields[k]); }
    case Array(items) =>
      forall i | 0 <= i < |items| ensures Thaw(Freeze(items[i])) == items[i] { ThawFreeze(items[i]); }
    case _ =>
  }

  lemma {:induction false} FreezeThaw(f: Frozen)
    ensures Freeze(Thaw(f)) == f
  {
    match f
    case Proxy(fields) =>
      forall k | k in fields ensures Freeze(Thaw(fields[k])) == fields[k] { FreezeThaw(fields[k]); }
    case Tuple(items) =>
      forall i | 0 <= i < |items| ensures Freeze(Thaw(items[i])) == items[i] { FreezeThaw(items[i]); }
    case _ =>
  }
}
