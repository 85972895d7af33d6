/**
 * The combat systems of src/combat.cc, run once per frame over the entity
 * store: damage with its screen shake and blood spray, the one-shot death
 * transition, the weapon tick, and bullet flight with terrain and target hits.
 * Each system is a method that updates the store in place and is proved to
 * produce the store a pure function describes; the properties the game relies
 * on are proved about those functions.
 */
module Combat {
  import opened Wrappers
  import opened Components
  import opened Store
  import opened Tiles

  // ---------------------------------------------------------------------------
  // deal_damage

  predicate HasHealth(w: World, e: Entity)
  {
    e in w.entries && w.entries[e].health.Some?
  }

  /** The blood spray a hit of `damage` spawns on a target of collider height `height` standing at `position`. */
  function BloodSpray(damage: int, position: Vec2, height: real, direction: Vec2): ParticleSystem
  {
    ParticleSystem(damage, Minus(position, Vec2(0.0, height / 2.0)), direction)
  }

  /**
   * The store after `deal_damage(target, damage, direction)`. Without Health
   * nothing happens. With it, exactly `damage` is taken off `now` (which may go
   * negative) and nothing else of the target changes; only when the target also
   * has Position and Collider does the camera shake by `damage / 100` and one
   * new entity appear, carrying the blood spray half a collider height above
   * the target's position.
   */
  function Damage(w: World, target: Entity, damage: int, direction: Vec2): (r: World)
    requires Wf(w)
    ensures Wf(r) && r.sounds == w.sounds
    ensures !HasHealth(w, target) ==> r == w
    ensures HasHealth(w, target) ==>
      var c := w.entries[target];
      var h := c.health.value;
      && target in r.entries
      && r.entries[target] == c.(health := Some(Health(h.now - damage, h.max)))
      && (forall e :: e in w.entries && e != target ==> e in r.entries && r.entries[e] == w.entries[e])
    ensures HasHealth(w, target) && !(w.entries[target].position.Some? && w.entries[target].collider.Some?) ==>
      r.entries.Keys == w.entries.Keys && r.next == w.next && r.trauma == w.trauma
    ensures HasHealth(w, target) && w.entries[target].position.Some? && w.entries[target].collider.Some? ==>
      var c := w.entries[target];
      && r.trauma == w.trauma + damage as real / 100.0
      && r.next == w.next + 1
      && r.entries.Keys == w.entries.Keys + {w.next}
      && w.next !in w.entries
      && r.entries[w.next] == Bare.(particles := Some(
           BloodSpray(damage, c.position.value.value, c.collider.value.height, direction)))
  {
    if !HasHealth(w, target) then w
    else
      var c := w.entries[target];
      var h := c.health.value;
      var hurt := w.(entries := w.entries[target := c.(health := Some(h.(now := h.now - damage)))]);
      if !(c.position.Some? && c.collider.Some?) then hurt
      else
        var blood := BloodSpray(damage, c.position.value.value, c.collider.value.height, direction);
        Created(hurt.(trauma := hurt.trauma + damage as real / 100.0), Bare.(particles := Some(blood)))
  }

  /** `deal_damage(target, damage, direction)`. */
  method DealDamage(reg: Registry, target: Entity, damage: int, direction: Vec2)
    requires reg.Valid()
    modifies reg
    ensures reg.Valid()
    ensures reg.State() == Damage(old(reg.State()), target, damage, direction)
  {
    if !(target in reg.entries && reg.entries[target].health.Some?) {
      return;
    }
    var c := reg.entries[target];
    var health := c.health.value;
    reg.entries := reg.entries[target := c.(health := Some(health.(now := health.now - damage)))];
    if !(c.position.Some? && c.collider.Some?) {
      return;
    }
    var position := c.position.value.value;
    var height := c.collider.value.height;
    reg.trauma := reg.trauma + damage as real / 100.0;
    var blood := BloodSpray(damage, position, height, direction);
    var e := reg.Create();
    reg.entries := reg.entries[e := reg.entries[e].(particles := Some(blood))];
  }

  // ---------------------------------------------------------------------------
  // death

  /** The entity has every component the death view asks for. */
  predicate InDeathView(c: Entry)
  {
    c.health.Some? && c.collider.Some? && c.animation.Some? && c.character.Some? && c.movement.Some?
  }

  /** The entity is in the death view with no health left. */
  predicate Dead(c: Entry)
  {
    InDeathView(c) && c.health.value.now <= 0
  }

  /** This pass is the one in which the entity dies: it is dead and still active, or stunned (which reactivates it). */
  predicate DiesNow(c: Entry)
  {
    Dead(c) && (c.stunned || c.character.value.active)
  }

  /**
   * What `death` does to one entity. A dead, stunned entity first loses its
   * Stun and is made active again; a dead entity that is then active has its
   * collider disabled, is deactivated and stops moving horizontally.
   */
  function DeathEntry(c: Entry): Entry
  {
    if !Dead(c) then c
    else
      var c1 := if c.stunned then c.(stunned := false, character := Some(c.character.value.(active := true))) else c;
      if !c1.character.value.active then c1
      else
        c1.(collider := Some(c1.collider.value.(enabled := false)),
            character := Some(c1.character.value.(active := false)),
            movement := Some(Movement(Vec2(0.0, c1.movement.value.direction.y))))
  }

  /** The sound `death` plays for an entity dying now: its death sound at volume 0.2. */
  function DeathSound(c: Entry): Sound
    requires InDeathView(c)
  {
    Sound(c.character.value.deathSound, 0.2)
  }

  /** The death transition for one entity, with its consequences spelled out. */
  lemma DeathEntryEffect(c: Entry)
    ensures !Dead(c) ==> DeathEntry(c) == c
    ensures Dead(c) && !DiesNow(c) ==> DeathEntry(c) == c
    ensures DiesNow(c) ==>
      var d := DeathEntry(c);
      && !d.stunned
      && d.collider == Some(c.collider.value.(enabled := false))
      && d.character == Some(c.character.value.(active := false))
      && d.movement == Some(Movement(Vec2(0.0, c.movement.value.direction.y)))
      && d.(stunned := c.stunned, collider := c.collider, character := c.character, movement := c.movement) == c
  {
  }

  /** After the transition the entity is never dying any more, and a second transition changes nothing. */
  lemma DeathEntryOnce(c: Entry)
    ensures !DiesNow(DeathEntry(c))
    ensures DeathEntry(DeathEntry(c)) == DeathEntry(c)
  {
  }

  /** The store after `death` has visited the entities with identifiers below `n`, in increasing order. */
  function DeathUpTo(w: World, n: nat): World
  {
    if n == 0 then w
    else
      var v := DeathUpTo(w, n - 1);
      var e := n - 1;
      if e in v.entries then
        var c := v.entries[e];
        v.(entries := v.entries[e := DeathEntry(c)],
           sounds := v.sounds + if DiesNow(c) then [DeathSound(c)] else [])
      else v
  }

  /** `death()`: one pass over every live entity. */
  function DeathPass(w: World): World
  {
    DeathUpTo(w, w.next)
  }

  /** Every entity visited so far has had the transition applied exactly once; the rest are untouched. */
  lemma {:induction false} DeathUpToEntries(w: World, n: nat)
    ensures DeathUpTo(w, n).entries.Keys == w.entries.Keys
    ensures forall e :: e in w.entries ==>
      DeathUpTo(w, n).entries[e] == if e < n then DeathEntry(w.entries[e]) else w.entries[e]
    ensures DeathUpTo(w, n).next == w.next && DeathUpTo(w, n).trauma == w.trauma
  {
    if n > 0 {
      DeathUpToEntries(w, n - 1);
    }
  }

  /**
   * `death` leaves every entity that is alive (or outside the view) exactly as
   * it was, and applies the transition to every dead one.
   */
  lemma DeathPassEntries(w: World)
    requires Wf(w)
    ensures DeathPass(w).entries.Keys == w.entries.Keys
    ensures forall e :: e in w.entries && !Dead(w.entries[e]) ==> DeathPass(w).entries[e] == w.entries[e]
    ensures forall e :: e in w.entries ==> DeathPass(w).entries[e] == DeathEntry(w.entries[e])
    ensures DeathPass(w).next == w.next && DeathPass(w).trauma == w.trauma
  {
    DeathUpToEntries(w, w.next);
  }

  /** A dead entity that was stunned is fully processed in the same pass. */
  lemma DeathProcessesStunned(w: World, e: Entity)
    requires Wf(w) && e in w.entries && Dead(w.entries[e]) && w.entries[e].stunned
    ensures e in DeathPass(w).entries
    ensures var c, d := w.entries[e], DeathPass(w).entries[e];
      && !d.stunned
      && d.collider == Some(c.collider.value.(enabled := false))
      && d.character == Some(c.character.value.(active := false))
      && d.movement == Some(Movement(Vec2(0.0, c.movement.value.direction.y)))
  {
    DeathPassEntries(w);
  }

  /** On a store where nobody is dying and every transition is a no-op, a pass changes nothing. */
  lemma {:induction false} DeathUpToSettled(w: World, n: nat)
    requires forall e :: e in w.entries ==> DeathEntry(w.entries[e]) == w.entries[e] && !DiesNow(w.entries[e])
    ensures DeathUpTo(w, n) == w
  {
    if n > 0 {
      DeathUpToSettled(w, n - 1);
      var e := n - 1;
      if e in w.entries {
        assert w.entries[e := DeathEntry(w.entries[e])] == w.entries;
      }
    }
  }

  /** `death` is one-shot: a second pass changes nothing, so each death sound plays once. */
  lemma DeathPassIdempotent(w: World)
    requires Wf(w)
    ensures DeathPass(DeathPass(w)) == DeathPass(w)
  {
    var v := DeathPass(w);
    DeathPassEntries(w);
    forall e | e in v.entries
      ensures DeathEntry(v.entries[e]) == v.entries[e] && !DiesNow(v.entries[e])
    {
      DeathEntryOnce(w.entries[e]);
    }
    DeathUpToSettled(v, v.next);
  }

  /** `death()`. */
  method Death(reg: Registry)
    requires reg.Valid()
    modifies reg
    ensures reg.Valid()
    ensures reg.State() == DeathPass(old(reg.State()))
  {
    var n := 0;
    while n < reg.next
      invariant 0 <= n <= reg.next == old(reg.next)
      invariant reg.Valid()
      invariant reg.State() == DeathUpTo(old(reg.State()), n)
    {
      if n in reg.entries && Dead(reg.entries[n]) {
        var c := reg.entries[n];
        var sound := DeathSound(c);
        if c.stunned {
          c := c.(stunned := false);
          c := c.(character := Some(c.character.value.(active := true)));
        }
        if c.character.value.active {
          c := c.(collider := Some(c.collider.value.(enabled := false)));
          c := c.(character := Some(c.character.value.(active := false)));
          c := c.(movement := Some(c.movement.value.(direction := c.movement.value.direction.(x := 0.0))));
          reg.sounds := reg.sounds + [sound];
        }
        reg.entries := reg.entries[n := c];
      }
      n := n + 1;
    }
  }

  // ---------------------------------------------------------------------------
  // weapon_update

  /** Every weapon of a set, each advanced by one tick of `update`, in place and in order. */
  function UpdatedWeapons(ws: WeaponSet, update: Weapon -> Weapon): (r: WeaponSet)
    ensures |r| == |ws|
    ensures forall i :: 0 <= i < |ws| ==> r[i] == update(ws[i])
  {
    if ws == [] then []
    else UpdatedWeapons(ws[..|ws| - 1], update) + [update(ws[|ws| - 1])]
  }

  /** One entity after `weapon_update`: its weapon set, if it has one, is ticked; nothing else changes. */
  function WeaponEntry(c: Entry, update: Weapon -> Weapon): Entry
  {
    if c.weaponSet.None? then c else c.(weaponSet := Some(UpdatedWeapons(c.weaponSet.value, update)))
  }

  /** `weapon_update()`: every weapon of every entity with a WeaponSet is ticked once. */
  function WeaponsUpdated(w: World, update: Weapon -> Weapon): World
  {
    w.(entries := map e | e in w.entries :: WeaponEntry(w.entries[e], update))
  }

  /**
   * After `weapon_update()` the same entities are live; one without a WeaponSet
   * is untouched, and one with a set has each of its weapons ticked once, in
   * order, and nothing else changed. The trauma and the sound log are kept.
   */
  lemma WeaponsUpdatedEffect(w: World, update: Weapon -> Weapon)
    ensures var r := WeaponsUpdated(w, update);
      && r.entries.Keys == w.entries.Keys
      && (forall e :: e in w.entries && w.entries[e].weaponSet.None? ==> r.entries[e] == w.entries[e])
      && (forall e :: e in w.entries && w.entries[e].weaponSet.Some? ==>
            var ws := w.entries[e].weaponSet.value;
            && r.entries[e].weaponSet.Some?
            && |r.entries[e].weaponSet.value| == |ws|
            && (forall i :: 0 <= i < |ws| ==> r.entries[e].weaponSet.value[i] == update(ws[i]))
            && r.entries[e].(weaponSet := None) == w.entries[e].(weaponSet := None))
      && r.next == w.next && r.trauma == w.trauma && r.sounds == w.sounds
  {
  }

  /**
   * `weapon_update()` with `Weapon::update` (declared outside this model) as
   * the parameter `update`.
   */
  method WeaponUpdate(reg: Registry, update: Weapon -> Weapon)
    requires reg.Valid()
    modifies reg
    ensures reg.Valid()
    ensures reg.State() == WeaponsUpdated(old(reg.State()), update)
  {
    ghost var start := reg.entries;
    var n := 0;
    while n < reg.next
      invariant 0 <= n <= reg.next == old(reg.next)
      invariant reg.entries.Keys == start.Keys
      invariant forall e :: e in reg.entries ==>
        reg.entries[e] == if e < n then WeaponEntry(start[e], update) else start[e]
      invariant reg.trauma == old(reg.trauma) && reg.sounds == old(reg.sounds)
    {
      if n in reg.entries && reg.entries[n].weaponSet.Some? {
        var ws := TickWeapons(reg.entries[n].weaponSet.value, update);
        reg.entries := reg.entries[n := reg.entries[n].(weaponSet := Some(ws))];
      }
      n := n + 1;
    }
    assert reg.State() == WeaponsUpdated(old(reg.State()), update);
  }

  /** The inner loop of `weapon_update()`: each weapon of one set is updated in place, in order. */
  method TickWeapons(ws: WeaponSet, update: Weapon -> Weapon) returns (r: WeaponSet)
    ensures r == UpdatedWeapons(ws, update)
  {
    r := ws;
    var i := 0;
    while i < |r|
      invariant 0 <= i <= |r| == |ws|
      invariant forall j :: 0 <= j < i ==> r[j] == update(ws[j])
      invariant forall j :: i <= j < |r| ==> r[j] == ws[j]
    {
      r := r[i := update(r[i])];
      i := i + 1;
    }
  }

  // ---------------------------------------------------------------------------
  // bullets

  /** The entity is in the bullet view. */
  predicate IsBullet(c: Entry)
  {
    c.position.Some? && c.velocity.Some? && c.bullet.Some?
  }

  /**
   * `t` is in the target view, its collider box contains `p`, and its collider
   * is enabled: a bullet at `p` hits it.
   */
  predicate IsHit(w: World, t: Entity, p: Vec2)
  {
    && t in w.entries
    && var c := w.entries[t];
    && c.position.Some? && c.collider.Some? && c.health.Some?
    && ContainsPoint(GetRectangle(c.collider.value, c.position.value.value), p)
    && c.collider.value.enabled
  }

  /** The first target at or after `from`, in view order, that a bullet at `p` hits. */
  function FirstHitFrom(w: World, p: Vec2, from: nat): (r: Option<Entity>)
    decreases if from < w.next then w.next - from else 0
    ensures r.Some? ==> from <= r.value < w.next && IsHit(w, r.value, p)
    ensures r.Some? ==> forall u :: from <= u < r.value ==> !IsHit(w, u, p)
    ensures r.None? ==> forall u :: from <= u < w.next ==> !IsHit(w, u, p)
  {
    if from >= w.next then None
    else if IsHit(w, from, p) then Some(from)
    else FirstHitFrom(w, p, from + 1)
  }

  /**
   * The target a bullet at `p` damages: the first one in view order whose
   * enabled collider box contains `p`; overlapping disabled colliders are
   * passed over.
   */
  function FirstHit(w: World, p: Vec2): (r: Option<Entity>)
    requires Wf(w)
    ensures r.Some? ==> IsHit(w, r.value, p) && forall u: Entity :: u < r.value ==> !IsHit(w, u, p)
    ensures r.None? ==> forall u: Entity :: !IsHit(w, u, p)
  {
    FirstHitFrom(w, p, 0)
  }

  /**
   * What `bullets` does to bullet `e` (nothing, if `e` is not a bullet): the
   * bullet moves by its velocity; if the tile under its new position is not
   * empty it is destroyed before any target is looked at; otherwise the first
   * target it hits takes the bullet's damage, in the direction of travel, and
   * the bullet is destroyed; with no target it flies on.
   */
  function BulletStep(w: World, e: Entity, tilemap: Tilemap): (r: World)
    reads tilemap.Arrays()
    requires Wf(w) && tilemap.Valid()
    ensures Wf(r) && r.sounds == w.sounds
    ensures !(e in w.entries && IsBullet(w.entries[e])) ==> r == w
  {
    if !(e in w.entries && IsBullet(w.entries[e])) then w
    else
      var c := w.entries[e];
      var p := Plus(c.position.value.value, c.velocity.value.value);
      var moved := w.(entries := w.entries[e := c.(position := Some(Position(p)))]);
      if tilemap.Lookup(WorldToTile(p, tilemap.tileSize)) != EmptyTile then Destroyed(moved, e)
      else
        match FirstHit(moved, p)
        case None => moved
        case Some(t) => Destroyed(Damage(moved, t, c.bullet.value.damage, c.velocity.value.value), e)
  }

  /** The store after `bullets` has visited the entities with identifiers below `n`, in increasing order. */
  function BulletsUpTo(w: World, n: nat, tilemap: Tilemap): (r: World)
    reads tilemap.Arrays()
    requires Wf(w) && tilemap.Valid()
    ensures Wf(r) && r.sounds == w.sounds && r.next >= w.next
  {
    if n == 0 then w else BulletStep(BulletsUpTo(w, n - 1, tilemap), n - 1, tilemap)
  }

  /** `bullets()`: one step for every bullet alive when the pass starts. */
  function BulletsPass(w: World, tilemap: Tilemap): World
    reads tilemap.Arrays()
    requires Wf(w) && tilemap.Valid()
  {
    BulletsUpTo(w, w.next, tilemap)
  }

  /** A bullet whose new tile is not empty is destroyed and nothing else changes: no target is touched. */
  lemma BulletStopsAtTerrain(w: World, e: Entity, tilemap: Tilemap)
    requires Wf(w) && tilemap.Valid()
    requires e in w.entries && IsBullet(w.entries[e])
    requires var c := w.entries[e];
      tilemap.Lookup(WorldToTile(Plus(c.position.value.value, c.velocity.value.value), tilemap.tileSize)) != EmptyTile
    ensures var r := BulletStep(w, e, tilemap);
      && e !in r.entries
      && (forall x :: x in r.entries <==> x in w.entries && x != e)
      && (forall x :: x in r.entries ==> r.entries[x] == w.entries[x])
      && r.next == w.next && r.trauma == w.trauma
  {
  }

  /**
   * A bullet whose new tile is empty and that hits no target flies on: it sits
   * at its position plus its velocity, moved exactly once, and nothing else
   * changes. (A bullet never hits its own collider: the box leaves out its
   * bottom edge, where the bullet's position lies.)
   */
  lemma BulletMissFliesOn(w: World, e: Entity, tilemap: Tilemap)
    requires Wf(w) && tilemap.Valid()
    requires e in w.entries && IsBullet(w.entries[e])
    requires var c := w.entries[e];
      var p := Plus(c.position.value.value, c.velocity.value.value);
      && tilemap.Lookup(WorldToTile(p, tilemap.tileSize)) == EmptyTile
      && forall u: Entity :: u != e ==> !IsHit(w, u, p)
    ensures var c := w.entries[e];
      var r := BulletStep(w, e, tilemap);
      && r.entries == w.entries[e := c.(position := Some(Position(Plus(c.position.value.value, c.velocity.value.value))))]
      && r.next == w.next && r.trauma == w.trauma
  {
    var c := w.entries[e];
    var p := Plus(c.position.value.value, c.velocity.value.value);
    var moved := w.(entries := w.entries[e := c.(position := Some(Position(p)))]);
    forall u: Entity
      ensures !IsHit(moved, u, p)
    {
      if u != e {
        assert !IsHit(w, u, p);
      }
    }
  }

  /**
   * A bullet that leaves the map is not destroyed by the terrain check: off
   * the map every tile reads as empty, so with no target in the way it flies on
   * at its new position.
   */
  lemma BulletLeavingMapFliesOn(w: World, e: Entity, tilemap: Tilemap)
    requires Wf(w) && tilemap.Valid()
    requires e in w.entries && IsBullet(w.entries[e])
    requires var c := w.entries[e];
      var p := Plus(c.position.value.value, c.velocity.value.value);
      && !tilemap.InMap(WorldToTile(p, tilemap.tileSize))
      && forall u: Entity :: u != e ==> !IsHit(w, u, p)
    ensures var c := w.entries[e];
      var r := BulletStep(w, e, tilemap);
      && e in r.entries
      && r.entries[e] == c.(position := Some(Position(Plus(c.position.value.value, c.velocity.value.value))))
      && (forall x :: x in r.entries <==> x in w.entries)
      && r.next == w.next && r.trauma == w.trauma
  {
    BulletMissFliesOn(w, e, tilemap);
  }

  /**
   * A bullet that misses the terrain and overlaps an enabled target damages the
   * first such target by exactly its damage and is destroyed; every later
   * target it also overlaps is left as it was. As the target has a Position
   * and a Collider, the damage also shakes the camera by `damage/100` and
   * spawns one blood spray, sprayed in the bullet's direction of travel.
   */
  lemma BulletHitsFirstTarget(w: World, e: Entity, tilemap: Tilemap, t: Entity)
    requires Wf(w) && tilemap.Valid()
    requires e in w.entries && IsBullet(w.entries[e])
    requires var c := w.entries[e];
      var p := Plus(c.position.value.value, c.velocity.value.value);
      && tilemap.Lookup(WorldToTile(p, tilemap.tileSize)) == EmptyTile
      && t != e && IsHit(w, t, p)
      && forall u: Entity :: u < t ==> u == e || !IsHit(w, u, p)
    ensures var c := w.entries[e];
      var r := BulletStep(w, e, tilemap);
      var d := c.bullet.value.damage;
      var h := w.entries[t].health.value;
      && e !in r.entries
      && t in r.entries
      && r.entries[t] == w.entries[t].(health := Some(Health(h.now - d, h.max)))
      && (forall u :: u in w.entries && u != t && u != e ==> u in r.entries && r.entries[u] == w.entries[u])
      && r.trauma == w.trauma + d as real / 100.0
      && r.next == w.next + 1
      && r.entries.Keys == w.entries.Keys - {e} + {w.next}
      && r.entries[w.next] == Bare.(particles := Some(
           BloodSpray(d, w.entries[t].position.value.value, w.entries[t].collider.value.height, c.velocity.value.value)))
  {
    var c := w.entries[e];
    var p := Plus(c.position.value.value, c.velocity.value.value);
    var moved := w.(entries := w.entries[e := c.(position := Some(Position(p)))]);
    assert IsHit(moved, t, p);
    forall u: Entity | u < t
      ensures !IsHit(moved, u, p)
    {
      if u != e {
        assert !IsHit(w, u, p);
      }
    }
    assert FirstHit(moved, p) == Some(t);
  }

  /** `bullets()` with the map it checks terrain against. */
  method Bullets(reg: Registry, tilemap: Tilemap)
    requires reg.Valid() && tilemap.Valid()
    modifies reg
    ensures reg.Valid()
    ensures reg.State() == BulletsPass(old(reg.State()), tilemap)
  {
    var last := reg.next;
    var e := 0;
    while e < last
      invariant 0 <= e <= last == old(reg.next)
      invariant reg.Valid()
      invariant reg.State() == BulletsUpTo(old(reg.State()), e, tilemap)
    {
      label L:
      if e in reg.entries && IsBullet(reg.entries[e]) {
        MoveBullet(reg, e, tilemap);
      }
      // The bullets move in the store only: the terrain they were checked against is as it was.
      assert unchanged@L(tilemap.Arrays());
      e := e + 1;
    }
  }

  /**
   * The body of the `bullets()` loop for bullet `e`: move it, check the tile,
   * then scan the targets in view order and stop at the first hit.
   */
  method MoveBullet(reg: Registry, e: Entity, tilemap: Tilemap)
    requires reg.Valid() && tilemap.Valid()
    requires e in reg.entries && IsBullet(reg.entries[e])
    modifies reg
    ensures reg.Valid()
    ensures reg.State() == BulletStep(old(reg.State()), e, tilemap)
  {
    var c := reg.entries[e];
    var velocity := c.velocity.value.value;
    var p := Plus(c.position.value.value, velocity);
    reg.entries := reg.entries[e := c.(position := Some(Position(p)))];
    var tile := WorldToTile(p, tilemap.tileSize);
    if tilemap.Lookup(tile) != EmptyTile {
      reg.Destroy(e);
      return;
    }
    ghost var moved := reg.State();
    var t := 0;
    while t < reg.next
      invariant 0 <= t <= reg.next
      invariant reg.State() == moved
      invariant FirstHit(moved, p) == FirstHitFrom(moved, p, t)
    {
      if IsHit(reg.State(), t, p) {
        DealDamage(reg, t, c.bullet.value.damage, velocity);
        reg.Destroy(e);
        break;
      }
      t := t + 1;
    }
  }
}
