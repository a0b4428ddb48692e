/** Old event payloads are brought to a newer schema version by a chain of registered
    transformations, each of which moves one version of one event forward. */
module Upcasting {
  import opened Text
  import opened Wrappers

  datatype Key = Key(name: string, version: int)

  predicate AlphaNumeric(c: char) {
    'a' <= c <= 'z' || 'A' <= c <= 'Z' || '0' <= c <= '9'
  }

  predicate ValidName(name: string) {
    name != "" && AlphaNumeric(name[0])
    && forall i :: 0 <= i < |name| ==> AlphaNumeric(name[i]) || name[i] in "_.:-"
  }

  /** `transform` gives None when it raises or does not return a mapping. */
  datatype Upcaster<!P> = Upcaster(target: int, transform: P -> Option<P>)

  type Upcasters<!P> = map<Key, Upcaster<P>>

  datatype Registration = Registered | BadIdentity | BadTarget | NotForward | Duplicate

  datatype Rebuilt<P> =
    | Built(version: int, payload: P)
    | InvalidIdentity | Downcast
    | NoPath(from: int)
    | TransformFailed(from: int)
    | UnknownEvent

  ghost predicate Forward<P>(ups: Upcasters<P>) {
    forall k :: k in ups ==> k.version < ups[k].target
  }

  class EventRegistry<!P> {
    var events: set<Key>
    var upcasters: Upcasters<P>

    ghost predicate Valid()
      reads this
    {
      Forward(upcasters)
    }

    constructor ()
      ensures Valid() && events == {} && upcasters == map[]
    {
      events, upcasters := {}, map[];
    }

    method RegisterUpcaster(name: string, from: int, to: int, transform: P -> Option<P>, replace: bool) returns (answer: Registration)
      requires Valid()
      modifies this`upcasters
      ensures Valid()
      ensures upcasters == Register(old(upcasters), Request(name, from, to, transform, replace))
      ensures answer.Registered? <==> ValidName(name) && 1 <= from < to && (Key(name, from) !in old(upcasters) || replace)
    {
      if !ValidName(name) || from < 1 { return BadIdentity; }
      if to < 1 { return BadTarget; }
      if to <= from { return NotForward; }
      var key := Key(name, from);
      if key in upcasters && !replace { return Duplicate; }
      upcasters := upcasters[key := Upcaster(to, transform)];
      return Registered;
    }

    /** The loop terminates because every stored step goes forward and none may overshoot. */
    method Reconstruct(name: string, version: int, payload: P, target: Option<int>) returns (answer: Rebuilt<P>)
      requires Valid()
      ensures var goal := if target.Some? then target.value else version;
        answer == if !ValidName(name) || version < 1 then InvalidIdentity
                  else if goal < version then Downcast
                  else Resolved(Climb(upcasters, name, version, goal, payload), events, name)
      ensures var goal := if target.Some? then target.value else version;
        answer.Built? <==> && ValidName(name) && 1 <= version <= goal && Key(name, goal) in events
                           && Climb(upcasters, name, version, goal, payload).Built?
    {
      if !ValidName(name) || version < 1 { return InvalidIdentity; }
      var destination := if target.Some? then target.value else version;
      if destination < version { return Downcast; }
      var current, at := payload, version;
      while at < destination
        invariant at <= destination
        invariant Climb(upcasters, name, at, destination, current) == Climb(upcasters, name, version, destination, payload)
        decreases destination - at
      {
        var key := Key(name, at);
        if key !in upcasters || upcasters[key].target > destination {
          return NoPath(at);
        }
        var next := upcasters[key].transform(current);
        if next.None? { return TransformFailed(at); }
        current, at := next.value, upcasters[key].target;
      }
      if Key(name, destination) !in events { return UnknownEvent; }
      return Built(destination, current);
    }
  }

  function Resolved<P>(climb: Rebuilt<P>, events: set<Key>, name: string): Rebuilt<P> {
    if climb.Built? && Key(name, climb.version) !in events then UnknownEvent else climb
  }

  function Climb<P>(ups: Upcasters<P>, name: string, at: int, goal: int, payload: P): Rebuilt<P>
    requires Forward(ups) && at <= goal
    decreases goal - at
  {
    if at == goal then Built(at, payload)
    else if Key(name, at) !in ups || ups[Key(name, at)].target > goal then NoPath(at)
    else
      var up := ups[Key(name, at)];
      var next := up.transform(payload);
      if next.None? then TransformFailed(at) else Climb(ups, name, up.target, goal, next.value)
  }

  // ----- Registrations ---------------------------------------------------------------------

  datatype Request<!P> = Request(name: string, from: int, to: int, transform: P -> Option<P>, replace: bool)

  function Register<P>(ups: Upcasters<P>, r: Request<P>): Upcasters<P> {
    if !ValidName(r.name) || r.from < 1 || r.to <= r.from || (Key(r.name, r.from) in ups && !r.replace) then ups
    else ups[Key(r.name, r.from) := Upcaster(r.to, r.transform)]
  }

  function After<P>(requests: seq<Request<P>>): Upcasters<P> {
    if requests == [] then map[] else Register(After(requests[..|requests| - 1]), requests[|requests| - 1])
  }

  lemma {:induction false} AlwaysForward<P>(requests: seq<Request<P>>)
    ensures Forward(After(requests)) && forall k :: k in After(requests) ==> ValidName(k.name) && k.version >= 1
    decreases |requests|
  {
    if requests != [] {
      AlwaysForward(requests[..|requests| - 1]);
    }
  }

  predicate LetterOrDigit(c: char) {
    c in LOWER_LETTERS || c in UPPER_LETTERS || c in DIGITS
  }

  /** An event name begins with a letter or digit and goes on with these and a few marks. */
  lemma ValidNameExactly(name: string)
    ensures ValidName(name) <==>
      && |name| >= 1 && LetterOrDigit(name[0])
      && forall c :: c in name ==> LetterOrDigit(c) || c == '_' || c == '.' || c == ':' || c == '-'
  {
    forall c: char ensures AlphaNumeric(c) <==> LetterOrDigit(c) { LetterTables(c); }
  }

  /** A step is stored exactly when its identity is valid, it goes forward, and its place is free or
      to be replaced; every other step stays. */
  lemma RegisteredExactly<P>(ups: Upcasters<P>, r: Request<P>, other: Key)
    ensures var after, key := Register(ups, r), Key(r.name, r.from);
      && (if ValidName(r.name) && 1 <= r.from < r.to && (key !in ups || r.replace)
          then key in after && after[key].target == r.to && after[key].transform == r.transform else after == ups)
      && (other != key ==> (other in after <==> other in ups) && (other in ups ==> after[other] == ups[other]))
  {
  }

  // ----- The successor chain -------------------------------------------------------------------

  /** The version reached from `v` after `k` steps, without any goal in mind. */
  function Successor<P>(ups: Upcasters<P>, name: string, v: int, k: nat): Option<int>
    decreases k
  {
    if k == 0 then Some(v)
    else
      var before := Successor(ups, name, v, k - 1);
      if before.Some? && Key(name, before.value) in ups then Some(ups[Key(name, before.value)].target) else None
  }

  /** The payload after the first `k` transformations of the chain. */
  function Composed<P>(ups: Upcasters<P>, name: string, v: int, payload: P, k: nat): Option<P>
    decreases k
  {
    if k == 0 then Some(payload)
    else
      var at, before := Successor(ups, name, v, k - 1), Composed(ups, name, v, payload, k - 1);
      if at.Some? && Key(name, at.value) in ups && before.Some? then ups[Key(name, at.value)].transform(before.value) else None
  }

  ghost predicate OnChain<P>(ups: Upcasters<P>, name: string, v: int, goal: int) {
    exists k: nat :: Successor(ups, name, v, k) == Some(goal)
  }

  lemma {:induction false} ChainClimbs<P>(ups: Upcasters<P>, name: string, v: int, j: nat, k: nat)
    requires Forward(ups) && j <= k && Successor(ups, name, v, k).Some?
    ensures Successor(ups, name, v, j).Some?
    ensures j < k ==> Successor(ups, name, v, j).value < Successor(ups, name, v, k).value
    decreases k
  {
    if j < k {
      ChainClimbs(ups, name, v, j, k - 1);
    }
  }

  /** The chain from the first successor is the chain, one step later. */
  lemma {:induction false} Shifted<P>(ups: Upcasters<P>, name: string, v: int, payload: P, k: nat)
    requires Key(name, v) in ups
    ensures Successor(ups, name, ups[Key(name, v)].target, k) == Successor(ups, name, v, k + 1)
    ensures ups[Key(name, v)].transform(payload).Some? ==>
      Composed(ups, name, ups[Key(name, v)].target, ups[Key(name, v)].transform(payload).value, k) == Composed(ups, name, v, payload, k + 1)
    decreases k
  {
    if k > 0 {
      Shifted(ups, name, v, payload, k - 1);
    } else {
      assert Successor(ups, name, v, 0) == Some(v) && Composed(ups, name, v, payload, 0) == Some(payload);
    }
  }

  ghost predicate ClimbIs<P>(ups: Upcasters<P>, name: string, v: int, goal: int, payload: P, r: Rebuilt<P>, k: nat) {
    var at, so := Successor(ups, name, v, k), Composed(ups, name, v, payload, k);
    && at.Some? && so.Some?
    && match r
       case Built(w, q) => w == goal == at.value && q == so.value
       case NoPath(w) => w == at.value < goal && (Key(name, w) !in ups || ups[Key(name, w)].target > goal)
       case TransformFailed(w) => w == at.value < goal && Key(name, w) in ups && ups[Key(name, w)].target <= goal
                                  && ups[Key(name, w)].transform(so.value).None?
       case _ => false
  }

  lemma {:induction false} ClimbFollowsChain<P>(ups: Upcasters<P>, name: string, v: int, goal: int, payload: P) returns (k: nat)
    requires Forward(ups) && v <= goal
    ensures ClimbIs(ups, name, v, goal, payload, Climb(ups, name, v, goal, payload), k)
    decreases goal - v
  {
    k := 0;
    if v < goal && Key(name, v) in ups && ups[Key(name, v)].target <= goal {
      var next := ups[Key(name, v)].transform(payload);
      if next.Some? {
        var rest := ClimbFollowsChain(ups, name, ups[Key(name, v)].target, goal, next.value);
        Shifted(ups, name, v, payload, rest);
        k := rest + 1;
      }
    }
  }

  /** The path search is exact.  The climb succeeds exactly when the goal is on the successor
      chain of the wire version and every transformation before it succeeds, and then it returns
      their composition. */
  lemma BuiltExactlyOnChain<P>(ups: Upcasters<P>, name: string, v: int, goal: int, payload: P, q: P)
    requires Forward(ups) && v <= goal
    ensures Climb(ups, name, v, goal, payload) == Built(goal, q)
       <==> exists k: nat :: Successor(ups, name, v, k) == Some(goal) && Composed(ups, name, v, payload, k) == Some(q)
  {
    var k := ClimbFollowsChain(ups, name, v, goal, payload);
    if j: nat :| Successor(ups, name, v, j) == Some(goal) && Composed(ups, name, v, payload, j) == Some(q) {
      StopsNoSooner(ups, name, v, goal, payload, Climb(ups, name, v, goal, payload), k, j);
    }
  }

  lemma {:induction false} ComposedPrefix<P>(ups: Upcasters<P>, name: string, v: int, payload: P, j: nat, k: nat)
    requires j <= k && Composed(ups, name, v, payload, k).Some?
    ensures Composed(ups, name, v, payload, j).Some?
    decreases k
  {
    if j < k {
      ComposedPrefix(ups, name, v, payload, j, k - 1);
    }
  }

  /** A climb that stops at step `k` cannot have stopped before a goal that lies at step `j`. */
  lemma StopsNoSooner<P>(ups: Upcasters<P>, name: string, v: int, goal: int, payload: P, r: Rebuilt<P>, k: nat, j: nat)
    requires Forward(ups) && ClimbIs(ups, name, v, goal, payload, r, k)
    requires Successor(ups, name, v, j) == Some(goal)
    ensures !r.NoPath?
    ensures r.Built? ==> k == j
    ensures Composed(ups, name, v, payload, j).Some? ==> r.Built?
  {
    if k < j {
      ChainClimbs(ups, name, v, k, j);
      ChainClimbs(ups, name, v, k + 1, j);
      if Composed(ups, name, v, payload, j).Some? {
        ComposedPrefix(ups, name, v, payload, k + 1, j);
      }
    } else if j < k {
      ChainClimbs(ups, name, v, j, k);
    }
  }

  /** When no transformation fails, "no path" is answered exactly when the goal is not on the
      chain.  In general a goal off the chain is never reached and a goal on it is never
      answered with "no path". */
  lemma NoPathExactlyOffChain<P>(ups: Upcasters<P>, name: string, v: int, goal: int, payload: P)
    requires Forward(ups) && v <= goal
    ensures OnChain(ups, name, v, goal) ==> !Climb(ups, name, v, goal, payload).NoPath?
    ensures !OnChain(ups, name, v, goal) ==> !Climb(ups, name, v, goal, payload).Built?
    ensures !Climb(ups, name, v, goal, payload).TransformFailed? ==>
      (Climb(ups, name, v, goal, payload).NoPath? <==> !OnChain(ups, name, v, goal))
  {
    var k := ClimbFollowsChain(ups, name, v, goal, payload);
    if j: nat :| Successor(ups, name, v, j) == Some(goal) {
      StopsNoSooner(ups, name, v, goal, payload, Climb(ups, name, v, goal, payload), k, j);
    }
  }

  // ----- Composition ---------------------------------------------------------------------------

  /** Upcasting in two stages through any version of the chain is upcasting in one, with the
      same payload on success and the same error at the same version otherwise. */
  lemma {:induction false} TwoStages<P>(ups: Upcasters<P>, name: string, v: int, k: nat, w: int, goal: int, payload: P)
    requires Forward(ups) && v <= w <= goal && Successor(ups, name, v, k) == Some(w)
    ensures var first := Climb(ups, name, v, w, payload);
      && (first.Built? || first.TransformFailed?)
      && Climb(ups, name, v, goal, payload) == (if first.Built? then Climb(ups, name, w, goal, first.payload) else first)
    decreases goal - v
  {
    if v < w {
      assert k > 0 by { assert Successor(ups, name, v, 0) == Some(v); }
      ChainClimbs(ups, name, v, 1, k);
      assert Successor(ups, name, v, 0) == Some(v);
      var next := ups[Key(name, v)].transform(payload);
      Shifted(ups, name, v, payload, k - 1);
      if next.Some? {
        TwoStages(ups, name, ups[Key(name, v)].target, k - 1, w, goal, next.value);
      }
    }
  }

  /** Conversely only versions of the chain will do as a stop-over. */
  lemma StopOverOnChain<P>(ups: Upcasters<P>, name: string, v: int, w: int, goal: int, payload: P)
    requires Forward(ups) && v <= w <= goal && Climb(ups, name, v, goal, payload).Built?
    ensures Climb(ups, name, v, w, payload).Built? <==> OnChain(ups, name, v, w)
  {
    NoPathExactlyOffChain(ups, name, v, w, payload);
    if k: nat :| Successor(ups, name, v, k) == Some(w) {
      TwoStages(ups, name, v, k, w, goal, payload);
    }
  }
}
