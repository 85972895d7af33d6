/**
 * The entity store the systems share (EnTT's registry in the source), reduced
 * to what the modelled code relies on: each live entity maps to the record of
 * components attached to it, views visit live entities by increasing
 * identifier, and destroying an entity removes it with all its components. The
 * store also carries the two outside effects the systems produce: the camera's
 * trauma counter and the log of sounds played.
 */
module Store {
  import opened Wrappers
  import opened Components

  /** An entity identifier; identifiers are never reused. */
  type Entity = nat

  /** The components attached to one entity: `None` (or `false`) means not attached. */
  datatype Entry = Entry(
    player: Option<Player>,
    enemy: Option<Enemy>,
    gravity: Option<Gravity>,
    position: Option<Position>,
    velocity: Option<Velocity>,
    facing: Option<Facing>,
    collider: Option<Collider>,
    health: Option<Health>,
    debugColor: Option<DebugColor>,
    meleeAttack: Option<MeleeAttack>,
    biteAttack: Option<BiteAttack>,
    gunAttack: Option<GunAttack>,
    weaponSet: Option<WeaponSet>,
    rayCast: Option<RayCast>,
    bullet: Option<Bullet>,
    jump: Option<Jump>,
    animation: Option<AnimationState>,
    character: Option<Character>,
    movement: Option<Movement>,
    stunned: bool,
    particles: Option<ParticleSystem>)

  /** A freshly created entity: no components at all. */
  const Bare: Entry :=
    Entry(None, None, None, None, None, None, None, None, None, None, None,
          None, None, None, None, None, None, None, None, false, None)

  /**
   * A snapshot of the store: the components of every live entity, the next
   * identifier to hand out, the camera trauma and the sounds played so far
   * (oldest first). Views visit live entities in increasing identifier order.
   */
  datatype World = World(
    entries: map<Entity, Entry>,
    next: Entity,
    trauma: real,
    sounds: seq<Sound>)

  /** Every live entity was handed out before `next`, so `next` is always fresh. */
  ghost predicate Wf(w: World)
  {
    forall e :: e in w.entries ==> e < w.next
  }

  /** `registry.create()` followed by attaching `c`: a new entity, after all existing ones. */
  function Created(w: World, c: Entry): (r: World)
    requires Wf(w)
    ensures Wf(r)
    ensures w.next !in w.entries && w.next in r.entries && r.entries[w.next] == c
    ensures forall e :: e in w.entries ==> e in r.entries && r.entries[e] == w.entries[e]
    ensures r.entries.Keys == w.entries.Keys + {w.next}
    ensures r.next == w.next + 1 && r.trauma == w.trauma && r.sounds == w.sounds
  {
    World(w.entries[w.next := c], w.next + 1, w.trauma, w.sounds)
  }

  /** `registry.destroy(e)`: the entity and every component attached to it are gone. */
  function Destroyed(w: World, e: Entity): (r: World)
    requires Wf(w)
    ensures Wf(r)
    ensures e !in r.entries
    ensures forall x :: x in r.entries <==> x in w.entries && x != e
    ensures forall x :: x in r.entries ==> r.entries[x] == w.entries[x]
    ensures r.next == w.next && r.trauma == w.trauma && r.sounds == w.sounds
  {
    World(w.entries - {e}, w.next, w.trauma, w.sounds)
  }

  /** The store itself, updated in place by the systems. */
  class Registry {
    var entries: map<Entity, Entry>
    var next: Entity
    var trauma: real
    var sounds: seq<Sound>

    function State(): World
      reads this
    {
      World(entries, next, trauma, sounds)
    }

    ghost predicate Valid()
      reads this
    {
      Wf(State())
    }

    constructor ()
      ensures Valid()
      ensures State() == World(map[], 0, 0.0, [])
    {
      entries, next := map[], 0;
      trauma, sounds := 0.0, [];
    }

    /** `registry.create()`: a new entity with no components. */
    method Create() returns (e: Entity)
      requires Valid()
      modifies this
      ensures Valid()
      ensures e == old(next) && e !in old(entries)
      ensures State() == Created(old(State()), Bare)
    {
      e := next;
      entries := entries[e := Bare];
      next := next + 1;
    }

    /** `registry.destroy(e)`. */
    method Destroy(e: Entity)
      requires Valid()
      modifies this
      ensures Valid()
      ensures State() == Destroyed(old(State()), e)
    {
      entries := entries - {e};
    }
  }
}
