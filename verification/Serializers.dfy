/** Serializers are found by name or by content type.  The two indexes must stay inverses of each
    other however registrations replace one another. */
module Serializers {
  import opened Text
  import opened Wrappers

  // ----- Normal forms of names and content types ---------------------------------------------

  function BeforeSemicolon(s: string): string {
    if s == "" || s[0] == ';' then "" else [s[0]] + BeforeSemicolon(s[1..])
  }

  function NormalName(s: string): string {
    Lower(Strip(s))
  }

  function NormalType(s: string): string {
    Lower(Strip(BeforeSemicolon(s)))
  }

  // ----- The registry ---------------------------------------------------------------------------

  /** `identity` tells apart two serializer objects with equal attributes. */
  datatype Serializer = Serializer(identity: nat, name: string, contentType: string)

  datatype Registry = Registry(byName: map<string, Serializer>, byType: map<string, string>, default: Option<string>)

  datatype Answer = Accepted | BadName | BadType | DuplicateName | DuplicateType

  datatype Found = Found(serializer: Serializer) | Unknown | Unsupported | Mismatch | NoDefault

  class SerializerRegistry {
    var byName: map<string, Serializer>
    var byType: map<string, string>
    var default: Option<string>

    function Now(): Registry
      reads this
    {
      Registry(byName, byType, default)
    }

    constructor (default: Option<string>)
      ensures Now() == Registry(map[], map[], default)
    {
      byName, byType, this.default := map[], map[], default;
    }

    method Register(s: Serializer, replace: bool, makeDefault: bool) returns (answer: Answer)
      modifies this
      ensures (Now(), answer) == Registered(old(Now()), s, replace, makeDefault)
    {
      if Strip(s.name) == "" { return BadName; }
      if Strip(s.contentType) == "" { return BadType; }
      var name, kind := NormalName(s.name), NormalType(s.contentType);
      if kind == "" { return BadType; }
      if name in byName && byName[name] != s && !replace { return DuplicateName; }
      if kind in byType && byType[kind] != name && !replace { return DuplicateType; }
      var owner := if kind in byType then Some(byType[kind]) else None;
      assert byName - {} == byName && byType - {} == byType;
      if name in byName {
        byType := byType - {NormalType(byName[name].contentType)};
      }
      if owner.Some? && owner.value != name {
        byName := byName - {owner.value};
        if default == owner {
          default := Some(name);
        }
      }
      byName := byName[name := s];
      byType := byType[kind := name];
      if makeDefault || default.None? {
        default := Some(name);
      }
      return Accepted;
    }

    method Unregister(name: string) returns (removed: Option<Serializer>)
      modifies this
      ensures Now() == Unregistered(old(Now()), name)
      ensures removed == ByName(old(Now()), name)
    {
      var normal := NormalName(name);
      if normal !in byName { return None; }
      var s := byName[normal];
      byName := byName - {normal};
      byType := byType - {NormalType(s.contentType)};
      if default == Some(normal) {
        default := None;
      }
      return Some(s);
    }

    method Resolve(name: Option<string>, kind: Option<string>) returns (found: Found)
      ensures found == Resolved(Now(), name, kind)
    {
      if name.None? && kind.None? {
        if default.None? { return NoDefault; }
        var s := ByName(Now(), default.value);
        return if s.Some? then Found(s.value) else Unknown;
      }
      if name.None? {
        var s := ByType(Now(), kind.value);
        return if s.Some? then Found(s.value) else Unsupported;
      }
      var s := ByName(Now(), name.value);
      if s.None? { return Unknown; }
      if kind.Some? && NormalType(s.value.contentType) != NormalType(kind.value) { return Mismatch; }
      return Found(s.value);
    }
  }

  function Registered(r: Registry, s: Serializer, replace: bool, makeDefault: bool): (Registry, Answer) {
    var name, kind := NormalName(s.name), NormalType(s.contentType);
    if Strip(s.name) == "" then (r, BadName)
    else if Strip(s.contentType) == "" || kind == "" then (r, BadType)
    else if name in r.byName && r.byName[name] != s && !replace then (r, DuplicateName)
    else if kind in r.byType && r.byType[kind] != name && !replace then (r, DuplicateType)
    else
      var owner := if kind in r.byType && r.byType[kind] != name then {r.byType[kind]} else {};
      var stale := if name in r.byName then {NormalType(r.byName[name].contentType)} else {};
      var default := if r.default.Some? && r.default.value !in owner && !makeDefault then r.default else Some(name);
      (Registry((r.byName - owner)[name := s], (r.byType - stale)[kind := name], default), Accepted)
  }

  function Unregistered(r: Registry, name: string): Registry {
    var normal := NormalName(name);
    if normal !in r.byName then r
    else Registry(r.byName - {normal}, r.byType - {NormalType(r.byName[normal].contentType)},
                  if r.default == Some(normal) then None else r.default)
  }

  function ByName(r: Registry, name: string): Option<Serializer> {
    if NormalName(name) in r.byName then Some(r.byName[NormalName(name)]) else None
  }

  function ByType(r: Registry, kind: string): Option<Serializer> {
    var normal := NormalType(kind);
    if normal in r.byType && r.byType[normal] in r.byName then Some(r.byName[r.byType[normal]]) else None
  }

  function Resolved(r: Registry, name: Option<string>, kind: Option<string>): Found {
    match (name, kind)
    case (None, None) =>
      if r.default.None? then NoDefault
      else if ByName(r, r.default.value).Some? then Found(ByName(r, r.default.value).value) else Unknown
    case (None, Some(k)) => if ByType(r, k).Some? then Found(ByType(r, k).value) else Unsupported
    case (Some(n), None) => if ByName(r, n).Some? then Found(ByName(r, n).value) else Unknown
    case (Some(n), Some(k)) =>
      if ByName(r, n).None? then Unknown
      else if NormalType(ByName(r, n).value.contentType) != NormalType(k) then Mismatch
      else Found(ByName(r, n).value)
  }

  // ----- Runs --------------------------------------------------------------------------------------

  datatype Call = Register(s: Serializer, replace: bool, makeDefault: bool) | Unregister(name: string)

  function After(r: Registry, c: Call): Registry {
    match c
    case Register(s, replace, makeDefault) => Registered(r, s, replace, makeDefault).0
    case Unregister(name) => Unregistered(r, name)
  }

  function Run(default: Option<string>, calls: seq<Call>): Registry
    decreases |calls|
  {
    if calls == [] then Registry(map[], map[], default) else After(Run(default, calls[..|calls| - 1]), calls[|calls| - 1])
  }

  /** The two indexes are inverses of each other. */
  ghost predicate Inverse(r: Registry) {
    (forall n :: NamePoints(r, n)) && (forall k :: TypePoints(r, k))
  }

  predicate NamePoints(r: Registry, n: string) {
    n in r.byName ==>
      && NormalName(r.byName[n].name) == n
      && NormalType(r.byName[n].contentType) in r.byType
      && r.byType[NormalType(r.byName[n].contentType)] == n
  }

  predicate TypePoints(r: Registry, k: string) {
    k in r.byType ==> r.byType[k] in r.byName && NormalType(r.byName[r.byType[k]].contentType) == k
  }

  lemma RegisterKeepsName(r: Registry, s: Serializer, replace: bool, makeDefault: bool, n: string)
    requires NamePoints(r, n) && NamePoints(r, NormalName(s.name))
    ensures NamePoints(Registered(r, s, replace, makeDefault).0, n)
  {
  }

  lemma RegisterKeepsType(r: Registry, s: Serializer, replace: bool, makeDefault: bool, k: string)
    requires TypePoints(r, k) && TypePoints(r, NormalType(s.contentType))
    ensures TypePoints(Registered(r, s, replace, makeDefault).0, k)
  {
  }

  lemma RegisterKeepsInverse(r: Registry, s: Serializer, replace: bool, makeDefault: bool)
    requires Inverse(r)
    ensures Inverse(Registered(r, s, replace, makeDefault).0)
  {
    forall n ensures NamePoints(Registered(r, s, replace, makeDefault).0, n) {
      RegisterKeepsName(r, s, replace, makeDefault, n);
    }
    forall k ensures TypePoints(Registered(r, s, replace, makeDefault).0, k) {
      RegisterKeepsType(r, s, replace, makeDefault, k);
    }
  }

  lemma UnregisterKeepsInverse(r: Registry, name: string)
    requires Inverse(r)
    ensures Inverse(Unregistered(r, name))
  {
    var after := Unregistered(r, name);
    assert NamePoints(r, NormalName(name));
    forall n ensures NamePoints(after, n) {
      assert NamePoints(r, n);
    }
    forall k ensures TypePoints(after, k) {
      assert TypePoints(r, k);
    }
  }

  lemma {:induction false} AlwaysInverse(default: Option<string>, calls: seq<Call>)
    ensures Inverse(Run(default, calls))
    decreases |calls|
  {
    if calls != [] {
      var before := Run(default, calls[..|calls| - 1]);
      AlwaysInverse(default, calls[..|calls| - 1]);
      match calls[|calls| - 1]
      case Register(s, replace, makeDefault) => RegisterKeepsInverse(before, s, replace, makeDefault);
      case Unregister(name) => UnregisterKeepsInverse(before, name);
    }
  }

  lemma PointsBothWays(r: Registry, n: string, k: string)
    requires Inverse(r)
    ensures NamePoints(r, n) && TypePoints(r, k)
    ensures k in r.byType ==> NamePoints(r, r.byType[k])
    ensures n in r.byName ==> TypePoints(r, NormalType(r.byName[n].contentType))
  {
  }

  /** After any run of registrations and removals, finding a serializer by name and finding it by
      content type agree. */
  lemma LookupsAgree(default: Option<string>, calls: seq<Call>, s: Serializer)
    ensures ByName(Run(default, calls), s.name) == Some(s) <==> ByType(Run(default, calls), s.contentType) == Some(s)
  {
    AlwaysInverse(default, calls);
    PointsBothWays(Run(default, calls), NormalName(s.name), NormalType(s.contentType));
  }

  /** Selecting by both finds a serializer exactly when each selector alone finds that one. */
  lemma BothSelectorsAgree(default: Option<string>, calls: seq<Call>, name: string, kind: string, s: Serializer)
    ensures Resolved(Run(default, calls), Some(name), Some(kind)) == Found(s)
       <==> ByName(Run(default, calls), name) == Some(s) && ByType(Run(default, calls), kind) == Some(s)
  {
    AlwaysInverse(default, calls);
    PointsBothWays(Run(default, calls), NormalName(name), NormalType(kind));
  }

  /** No accepted registration so far was under the normal name `n`. */
  ghost predicate NeverRegistered(default: Option<string>, calls: seq<Call>, n: string)
    decreases |calls|
  {
    calls == [] ||
      var front, last := calls[..|calls| - 1], calls[|calls| - 1];
      && NeverRegistered(default, front, n)
      && !(last.Register? && NormalName(last.s.name) == n
           && Registered(Run(default, front), last.s, last.replace, last.makeDefault).1.Accepted?)
  }

  /** The default is absent or registered.  Only an initial default that was never registered
      under that name can be dangling. */
  lemma {:induction false} DefaultRegistered(default: Option<string>, calls: seq<Call>)
    ensures var r := Run(default, calls);
      r.default.Some? && r.default.value !in r.byName ==> r.default == default && NeverRegistered(default, calls, default.value)
    decreases |calls|
  {
    if calls != [] {
      DefaultRegistered(default, calls[..|calls| - 1]);
    }
  }

  lemma {:induction false} NeverBefore(default: Option<string>, first: seq<Call>, more: seq<Call>, n: string)
    requires NeverRegistered(default, first + more, n)
    ensures NeverRegistered(default, first, n)
    decreases |more|
  {
    if more == [] {
      assert first + more == first;
    } else {
      assert (first + more)[..|first + more| - 1] == first + more[..|more| - 1];
      NeverBefore(default, first, more[..|more| - 1], n);
    }
  }

  lemma NormalNameFixed(s: string)
    ensures NormalName(NormalName(s)) == NormalName(s)
  {
    var n := NormalName(s);
    StripFixed(n);
    assert Lower(n) == n;
  }

  /** A registered default is what resolving without any selector finds. */
  lemma DefaultResolves(default: Option<string>, calls: seq<Call>)
    ensures var r := Run(default, calls);
      r.default.Some? && r.default.value in r.byName ==> Resolved(r, None, None) == Found(r.byName[r.default.value])
  {
    AlwaysInverse(default, calls);
    var r := Run(default, calls);
    if r.default.Some? && r.default.value in r.byName {
      PointsBothWays(r, r.default.value, "");
      NormalNameFixed(r.byName[r.default.value].name);
    }
  }

  /** The registry that every broker starts from: JSON is the default and MessagePack is there. */
  lemma WithDefaults(json: Serializer, msgpack: Serializer, calls: seq<Call>)
    requires NormalName(json.name) == "json" && NormalType(json.contentType) != ""
    requires Strip(json.name) != "" && Strip(json.contentType) != ""
    ensures var r := Run(Some("json"), [Register(json, false, false), Register(msgpack, false, false)] + calls);
      r.default.Some? ==> r.default.value in r.byName
  {
    var first, rest := [Register(json, false, false)], [Register(msgpack, false, false)] + calls;
    assert [Register(json, false, false), Register(msgpack, false, false)] + calls == first + rest;
    DefaultRegistered(Some("json"), first + rest);
    assert !NeverRegistered(Some("json"), first, "json") by {
      assert first[..0] == [];
    }
    if NeverRegistered(Some("json"), first + rest, "json") {
      NeverBefore(Some("json"), first, rest, "json");
    }
  }

  /** An accepted registration removes exactly the entries that share its name or its content
      type, and keeps every other entry. */
  lemma EvictsExactlyRivals(r: Registry, s: Serializer, replace: bool, makeDefault: bool, other: string)
    requires Inverse(r) && Registered(r, s, replace, makeDefault).1.Accepted?
    requires other in r.byName && other != NormalName(s.name)
    ensures var after := Registered(r, s, replace, makeDefault).0;
      && (other in after.byName <==> NormalType(r.byName[other].contentType) != NormalType(s.contentType))
      && (other in after.byName ==> after.byName[other] == r.byName[other])
  {
    PointsBothWays(r, other, NormalType(s.contentType));
  }

  // ----- What one call does ---------------------------------------------------------------------------

  /** Names are compared without surrounding white space and without letter case, content types also
      without their parameters. */
  lemma {:induction false} ParametersIgnored(kind: string, parameters: string)
    requires ';' !in kind
    ensures NormalType(kind) == Lower(Strip(kind)) && NormalType(kind + ";" + parameters) == Lower(Strip(kind))
    decreases |kind|
  {
    CutAtSemicolon(kind, parameters);
  }

  /** The letter cases of two names make no difference, nor does white space around them. */
  lemma CaseIgnored(a: string, b: string)
    requires |a| == |b| && forall i :: 0 <= i < |a| ==> a[i] == b[i] || (a[i] in UPPER_LETTERS && Lower(a)[i] == b[i])
    ensures NormalName(a) == NormalName(b)
  {
    forall i | 0 <= i < |a| ensures SameLetter(a[i], b[i]) { UpperTable(a[i]); }
    StripsAlike(a, b);
    assert Lower(Strip(a)) == Lower(Strip(b));
  }

  /** Equal, or an upper-case letter and its lower-case form. */
  predicate SameLetter(a: char, b: char) {
    a == b || ('A' <= a <= 'Z' && b as int == a as int + 32)
  }

  lemma {:induction false} StripsAlike(a: string, b: string)
    requires |a| == |b| && forall i :: 0 <= i < |a| ==> SameLetter(a[i], b[i])
    ensures |Strip(a)| == |Strip(b)| && forall i :: 0 <= i < |Strip(a)| ==> SameLetter(Strip(a)[i], Strip(b)[i])
    decreases |a|
  {
    if a != "" {
      assert SameLetter(a[0], b[0]) && SameLetter(a[|a| - 1], b[|a| - 1]);
      if White(a[0]) {
        StripsAlike(a[1..], b[1..]);
      } else if White(a[|a| - 1]) {
        StripsAlike(a[..|a| - 1], b[..|b| - 1]);
      }
    }
  }

  lemma {:induction false} CutAtSemicolon(kind: string, parameters: string)
    requires ';' !in kind
    ensures BeforeSemicolon(kind) == kind && BeforeSemicolon(kind + ";" + parameters) == kind
    decreases |kind|
  {
    if kind != "" {
      CutAtSemicolon(kind[1..], parameters);
      assert (kind + ";" + parameters)[1..] == kind[1..] + ";" + parameters;
    }
  }

  lemma {:induction false} WhiteStrips(s: string)
    requires forall i :: 0 <= i < |s| ==> White(s[i])
    ensures Strip(s) == ""
    decreases |s|
  {
    if s != "" { WhiteStrips(s[1..]); }
  }

  lemma {:induction false} CutIsPrefix(s: string)
    ensures BeforeSemicolon(s) <= s
    decreases |s|
  {
    if s != "" && s[0] != ';' { CutIsPrefix(s[1..]); }
  }

  lemma BlankTypes(kind: string)
    ensures NormalType(kind) != "" ==> Strip(kind) != ""
  {
    if Strip(kind) == "" {
      var i, j := StripExactly(kind);
      CutIsPrefix(kind);
      WhiteStrips(BeforeSemicolon(kind));
    }
  }

  /** A registration is accepted exactly when name and content type are not blank and each is free,
      already this serializer's own, or to be replaced; otherwise it changes nothing. */
  lemma AcceptedExactly(default: Option<string>, calls: seq<Call>, s: Serializer, replace: bool, makeDefault: bool)
    ensures var r := Run(default, calls);
      var (after, answer) := Registered(r, s, replace, makeDefault);
      var byName, byType := ByName(r, s.name), ByType(r, s.contentType);
      && (answer.Accepted? <==>
            && NormalName(s.name) != "" && NormalType(s.contentType) != ""
            && (replace || ((byName.None? || byName == Some(s))
                            && (byType.None? || NormalName(byType.value.name) == NormalName(s.name)))))
      && (!answer.Accepted? ==> after == r)
  {
    AlwaysInverse(default, calls);
    var r, kind := Run(default, calls), NormalType(s.contentType);
    BlankTypes(s.contentType);
    PointsBothWays(r, NormalName(s.name), kind);
  }

  /** An accepted serializer is found by its name and by its content type, and it is the default
      exactly when it is made so, there was none, its name was the default already, or the
      default was evicted with its content type. */
  lemma AcceptedIsFound(default: Option<string>, calls: seq<Call>, s: Serializer, replace: bool, makeDefault: bool)
    requires Registered(Run(default, calls), s, replace, makeDefault).1.Accepted?
    ensures var r, after := Run(default, calls), Registered(Run(default, calls), s, replace, makeDefault).0;
      && ByName(after, s.name) == Some(s) && ByType(after, s.contentType) == Some(s)
      && after.default == (if makeDefault || r.default.None?
                              || (r.default.value in r.byName && r.default.value !in after.byName)
                           then Some(NormalName(s.name)) else r.default)
  {
    AlwaysInverse(default, calls);
    PointsBothWays(Run(default, calls), NormalName(s.name), NormalType(s.contentType));
  }

  /** A removal takes the named serializer from both lookups, takes back its default, and leaves every
      other serializer. */
  lemma RemovedExactly(default: Option<string>, calls: seq<Call>, name: string, other: string)
    ensures var r, after := Run(default, calls), Unregistered(Run(default, calls), name);
      && ByName(after, name).None?
      && (NormalName(other) != NormalName(name) ==> ByName(after, other) == ByName(r, other))
      && after.default == (if ByName(r, name).Some? && r.default == Some(NormalName(name)) then None else r.default)
  {
  }

  /** Why nothing is found. */
  lemma NotFoundExactly(r: Registry, name: Option<string>, kind: Option<string>)
    ensures var found := Resolved(r, name, kind);
      && (found.NoDefault? <==> name.None? && kind.None? && r.default.None?)
      && (found.Unsupported? <==> name.None? && kind.Some? && ByType(r, kind.value).None?)
      && (name.Some? ==> (found.Unknown? <==> ByName(r, name.value).None?))
      && (name.Some? && ByName(r, name.value).Some? ==>
            (found.Mismatch? <==> kind.Some? && NormalType(kind.value) != NormalType(ByName(r, name.value).value.contentType)))
  {
  }
}
