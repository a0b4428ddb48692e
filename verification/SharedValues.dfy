/** Containers in memory may share parts or contain themselves.  The normaliser keeps the set of
    containers it is inside of, to refuse recursive ones; shared ones are fine. */
module SharedValues {
  import opened JsonValues
  import opened Wrappers

  /** The identity of a container. */
  type Ref = nat

  /** `Leaf` is a scalar that is accepted as it is; `Bad` stands for a value or a key that is refused
      by its type or its value alone. */
  datatype Item = Leaf(json: Json) | Bad | Link(ref: Ref)

  datatype Container = Dict(fields: map<string, Item>) | List(items: seq<Item>)

  type Memory = map<Ref, Container>

  /** Normalisation with the set of enclosing containers; None stands for the error. */
  function Walk(h: Memory, v: Item, depth: nat, max: nat, seen: set<Ref>): Option<Json>
    decreases max + 1 - depth, 1
  {
    if depth > max then None
    else
      match v
      case Leaf(j) => Some(j)
      case Bad => None
      case Link(r) =>
        if r in seen || r !in h then None
        else
          match h[r]
          case Dict(fields) => NormalFields(WalkFields(h, fields, depth, max, seen + {r}))
          case List(items) => NormalItems(WalkItems(h, items, depth, max, seen + {r}))
  }

  /** The parts of a container at `depth`. */
  function WalkFields(h: Memory, fields: map<string, Item>, depth: nat, max: nat, seen: set<Ref>): map<string, Option<Json>>
    requires depth <= max
    decreases max + 1 - depth, 0
  {
    map k | k in fields :: Walk(h, fields[k], depth + 1, max, seen)
  }

  function WalkItems(h: Memory, items: seq<Item>, depth: nat, max: nat, seen: set<Ref>): seq<Option<Json>>
    requires depth <= max
    decreases max + 1 - depth, 0
  {
    seq(|items|, i requires 0 <= i < |items| => Walk(h, items[i], depth + 1, max, seen))
  }

  /** Normalisation that looks at the nesting depth alone. */
  function Plain(h: Memory, v: Item, depth: nat, max: nat): Option<Json>
    decreases max + 1 - depth
  {
    if depth > max then None
    else
      match v
      case Leaf(j) => Some(j)
      case Bad => None
      case Link(r) =>
        if r !in h then None
        else
          match h[r]
          case Dict(fields) => NormalFields(map k | k in fields :: Plain(h, fields[k], depth + 1, max))
          case List(items) => NormalItems(seq(|items|, i requires 0 <= i < |items| => Plain(h, items[i], depth + 1, max)))
  }

  // ----- The loop with its mutable set ------------------------------------------------------

  class SeenSet {
    var refs: set<Ref>

    constructor ()
      ensures refs == {}
    {
      refs := {};
    }
  }

  /** A container is in the set exactly while its parts are normalised, however that ends. */
  method ToJsonValue(h: Memory, v: Item, depth: nat, max: nat, seen: SeenSet) returns (result: Option<Json>)
    modifies seen
    ensures seen.refs == old(seen.refs)
    ensures result == Walk(h, v, depth, max, old(seen.refs))
    decreases max + 1 - depth, 1
  {
    if depth > max { return None; }
    match v {
      case Leaf(j) => return Some(j);
      case Bad => return None;
      case Link(r) =>
        if r in seen.refs { return None; }
        if r !in h { return None; }
        ghost var before := seen.refs;
        seen.refs := seen.refs + {r};
        match h[r] {
          case Dict(fields) => result := DictValue(h, fields, depth, max, seen);
          case List(items) => result := ListValue(h, items, depth, max, seen);
        }
        seen.refs := seen.refs - {r};
        assert seen.refs == before;
    }
  }

  method DictValue(h: Memory, fields: map<string, Item>, depth: nat, max: nat, seen: SeenSet) returns (result: Option<Json>)
    requires depth <= max
    modifies seen
    ensures seen.refs == old(seen.refs)
    ensures result == NormalFields(WalkFields(h, fields, depth, max, old(seen.refs)))
    decreases max + 1 - depth, 0
  {
    ghost var results := WalkFields(h, fields, depth, max, seen.refs);
    var todo, values := fields.Keys, map[];
    while todo != {}
      invariant todo <= fields.Keys && seen.refs == old(seen.refs)
      invariant values.Keys == fields.Keys - todo
      invariant forall k :: k in values ==> results[k] == Some(values[k])
      decreases todo
    {
      var key :| key in todo;
      var value := ToJsonValue(h, fields[key], depth + 1, max, seen);
      if value.None? {
        assert results[key].None?;
        return None;
      }
      values := values[key := value.value];
      todo := todo - {key};
    }
    assert forall k :: k in results ==> k in values;
    assert NormalFields(results).Some? && NormalFields(results).value.fields == values;
    return Some(Object(values));
  }

  method ListValue(h: Memory, items: seq<Item>, depth: nat, max: nat, seen: SeenSet) returns (result: Option<Json>)
    requires depth <= max
    modifies seen
    ensures seen.refs == old(seen.refs)
    ensures result == NormalItems(WalkItems(h, items, depth, max, old(seen.refs)))
    decreases max + 1 - depth, 0
  {
    ghost var results := WalkItems(h, items, depth, max, seen.refs);
    var values, i := [], 0;
    while i < |items|
      invariant 0 <= i <= |items| && |values| == i && seen.refs == old(seen.refs)
      invariant forall k :: 0 <= k < i ==> results[k] == Some(values[k])
    {
      var value := ToJsonValue(h, items[i], depth + 1, max, seen);
      if value.None? {
        assert results[i].None?;
        return None;
      }
      values := values + [value.value];
      i := i + 1;
    }
    assert NormalItems(results).Some? && NormalItems(results).value.items == values;
    return Some(Array(values));
  }

  // ----- Cycles and depth -----------------------------------------------------------------------

  ghost predicate Holds(h: Memory, outer: Ref, v: Item) {
    outer in h &&
    match h[outer]
    case Dict(fields) => exists k :: k in fields && fields[k] == v
    case List(items) => v in items
  }

  /** What the container at position `i` of a trail to `v` has to hold. */
  function Next(trail: seq<Ref>, v: Item, i: nat): Item {
    if i + 1 < |trail| then Link(trail[i + 1]) else v
  }

  /** Each container of the trail holds the next, and the last holds `v`. */
  ghost predicate Trail(h: Memory, trail: seq<Ref>, v: Item) {
    forall i: nat :: i < |trail| ==> Holds(h, trail[i], Next(trail, v, i))
  }

  lemma PartsAreDefined(h: Memory, outer: Ref, v: Item, depth: nat, max: nat)
    requires Holds(h, outer, v) && Plain(h, Link(outer), depth, max).Some?
    ensures Plain(h, v, depth + 1, max).Some?
  {
    match h[outer]
    case Dict(fields) =>
      var results := map k | k in fields :: Plain(h, fields[k], depth + 1, max);
      assert NormalFields(results).Some?;
      var k :| k in fields && fields[k] == v;
      assert k in results;
    case List(items) =>
      var results := seq(|items|, i requires 0 <= i < |items| => Plain(h, items[i], depth + 1, max));
      assert NormalItems(results).Some?;
      var i: nat :| i < |items| && items[i] == v;
      assert results[i].Some?;
  }

  lemma TrailFrom(h: Memory, trail: seq<Ref>, v: Item, i: nat)
    requires Trail(h, trail, v) && i <= |trail|
    ensures Trail(h, trail[i..], v)
  {
    forall j: nat | j < |trail| - i ensures Holds(h, trail[i..][j], Next(trail[i..], v, j)) {
      assert Next(trail[i..], v, j) == Next(trail, v, i + j);
      assert trail[i..][j] == trail[i + j];
    }
  }

  lemma {:induction false} TrailIsDefined(h: Memory, trail: seq<Ref>, v: Item, depth: nat, max: nat)
    requires trail != [] && Trail(h, trail, v) && Plain(h, Link(trail[0]), depth, max).Some?
    ensures Plain(h, v, depth + |trail|, max).Some?
    decreases |trail|
  {
    if |trail| == 1 {
      assert Next(trail, v, 0) == v;
      PartsAreDefined(h, trail[0], v, depth, max);
    } else {
      assert Next(trail, v, 0) == Link(trail[1]);
      PartsAreDefined(h, trail[0], Link(trail[1]), depth, max);
      TrailFrom(h, trail, v, 1);
      TrailIsDefined(h, trail[1..], v, depth + 1, max);
    }
  }

  /** A container that contains itself is refused for its depth alone, at every depth. */
  lemma {:induction false} CycleRefused(h: Memory, cycle: seq<Ref>, depth: nat, max: nat)
    requires cycle != [] && Trail(h, cycle, Link(cycle[0]))
    ensures Plain(h, Link(cycle[0]), depth, max) == None
    decreases max + 1 - depth
  {
    if Plain(h, Link(cycle[0]), depth, max).Some? {
      TrailIsDefined(h, cycle, Link(cycle[0]), depth, max);
      CycleRefused(h, cycle, depth + |cycle|, max);
    }
  }

  ghost predicate OnTrail(trail: seq<Ref>, seen: set<Ref>) {
    forall r :: r in seen <==> r in trail
  }

  lemma LoopsBack(h: Memory, trail: seq<Ref>, r: Ref, depth: nat, max: nat)
    requires Trail(h, trail, Link(r)) && r in trail
    ensures Plain(h, Link(r), depth, max) == None
  {
    var i: nat :| i < |trail| && trail[i] == r;
    var cycle := trail[i..];
    TrailFrom(h, trail, Link(r), i);
    CycleRefused(h, cycle, depth, max);
  }

  lemma ExtendTrail(h: Memory, trail: seq<Ref>, seen: set<Ref>, r: Ref, v: Item)
    requires Trail(h, trail, Link(r)) && OnTrail(trail, seen) && Holds(h, r, v)
    ensures Trail(h, trail + [r], v) && OnTrail(trail + [r], seen + {r})
  {
    var longer := trail + [r];
    forall i: nat | i < |longer| ensures Holds(h, longer[i], Next(longer, v, i)) {
      if i < |trail| {
        assert Next(longer, v, i) == Next(trail, Link(r), i) && longer[i] == trail[i];
      }
    }
  }

  lemma {:induction false} SeenIsRedundant(h: Memory, v: Item, trail: seq<Ref>, seen: set<Ref>, depth: nat, max: nat)
    requires Trail(h, trail, v) && OnTrail(trail, seen)
    ensures Walk(h, v, depth, max, seen) == Plain(h, v, depth, max)
    decreases max + 1 - depth
  {
    if depth <= max && v.Link? && v.ref in seen {
      LoopsBack(h, trail, v.ref, depth, max);
    } else if depth <= max && v.Link? && v.ref in h {
      var r := v.ref;
      match h[r]
      case Dict(fields) =>
        forall k | k in fields ensures Walk(h, fields[k], depth + 1, max, seen + {r}) == Plain(h, fields[k], depth + 1, max) {
          ExtendTrail(h, trail, seen, r, fields[k]);
          SeenIsRedundant(h, fields[k], trail + [r], seen + {r}, depth + 1, max);
        }
        assert WalkFields(h, fields, depth, max, seen + {r})
            == (map k | k in fields :: Plain(h, fields[k], depth + 1, max));
      case List(items) =>
        forall i | 0 <= i < |items| ensures Walk(h, items[i], depth + 1, max, seen + {r}) == Plain(h, items[i], depth + 1, max) {
          ExtendTrail(h, trail, seen, r, items[i]);
          SeenIsRedundant(h, items[i], trail + [r], seen + {r}, depth + 1, max);
        }
        assert WalkItems(h, items, depth, max, seen + {r})
            == seq(|items|, i requires 0 <= i < |items| => Plain(h, items[i], depth + 1, max));
    }
  }

  /** The set of enclosing containers never changes what is accepted or the result: every
      recursive value would be refused for its depth anyway, and a container that is merely
      shared is normalised wherever it occurs. */
  lemma SeenChangesNothing(h: Memory, v: Item, max: nat)
    ensures Walk(h, v, 0, max, {}) == Plain(h, v, 0, max)
  {
    SeenIsRedundant(h, v, [], {}, 0, max);
  }
}
