/**
 * The animation decision of src/animation.cc: which weapon is mid-attack, and
 * which animation state each character shows this frame.
 */
module Animation {
  import opened Wrappers
  import opened Components
  import opened Store

  /** The position of the first weapon in set order that is mid-attack (`active > 0`). */
  function FirstActive(ws: WeaponSet): (r: Option<nat>)
    ensures r.Some? ==> r.value < |ws| && ws[r.value].active > 0.0
    ensures r.Some? ==> forall j :: 0 <= j < r.value ==> ws[j].active <= 0.0
    ensures r.None? ==> forall j :: 0 <= j < |ws| ==> ws[j].active <= 0.0
  {
    if ws == [] then None
    else if ws[0].active > 0.0 then Some(0)
    else
      match FirstActive(ws[1..])
      case None => None
      case Some(i) => Some(i + 1)
  }

  /**
   * `get_active_weapon(entity)`: nothing without a WeaponSet, otherwise the
   * first weapon of the set that is mid-attack, or nothing if none is.
   */
  function GetActiveWeapon(c: Entry): (r: Option<Weapon>)
    ensures c.weaponSet.None? ==> r.None?
    ensures r.Some? ==>
      && c.weaponSet.Some?
      && r.value.active > 0.0
      && exists i :: 0 <= i < |c.weaponSet.value| && c.weaponSet.value[i] == r.value &&
           forall j :: 0 <= j < i ==> c.weaponSet.value[j].active <= 0.0
    ensures r.None? && c.weaponSet.Some? ==> forall j :: 0 <= j < |c.weaponSet.value| ==> c.weaponSet.value[j].active <= 0.0
  {
    if c.weaponSet.None? then None
    else
      match FirstActive(c.weaponSet.value)
      case None => None
      case Some(i) => Some(c.weaponSet.value[i])
  }

  /**
   * The state `animate_character` picks, by strict priority: dead; attacking
   * in the air; any other attack; walking on the floor; sliding down a wall;
   * falling; standing still.
   */
  function ChooseState(health: Health, weapon: Option<Weapon>, collider: Collider, velocity: Velocity): (s: Action)
    ensures health.now <= 0 ==> s == Die
    ensures health.now > 0 && weapon.Some? && weapon.value.active != 0.0 && !collider.onFloor && weapon.value.action == Attack ==>
      s == AirAttack
    ensures health.now > 0 && weapon.Some? && weapon.value.active != 0.0 && !(!collider.onFloor && weapon.value.action == Attack) ==>
      s == weapon.value.action
    ensures health.now > 0 && !(weapon.Some? && weapon.value.active != 0.0) ==>
      && (collider.onFloor && velocity.value.x != 0.0 ==> s == Walk)
      && (!collider.onFloor && collider.wallDirection != 0 ==> s == WallSlide)
      && (!collider.onFloor && collider.wallDirection == 0 ==> s == Fall)
      && (collider.onFloor && velocity.value.x == 0.0 ==> s == Idle)
  {
    if health.now <= 0 then Die
    else if weapon.Some? && weapon.value.active != 0.0 && !collider.onFloor && weapon.value.action == Attack then AirAttack
    else if weapon.Some? && weapon.value.active != 0.0 then weapon.value.action
    else if collider.onFloor && velocity.value.x != 0.0 then Walk
    else if collider.wallDirection != 0 && !collider.onFloor then WallSlide
    else if !collider.onFloor then Fall
    else Idle
  }

  /** Dying overrides everything: neither motion nor weapons matter once health is gone. */
  lemma DeadAlwaysDies(health: Health, w1: Option<Weapon>, c1: Collider, v1: Velocity, w2: Option<Weapon>, c2: Collider, v2: Velocity)
    requires health.now <= 0
    ensures ChooseState(health, w1, c1, v1) == ChooseState(health, w2, c2, v2) == Die
  {
  }

  /**
   * With no attack under way, the state depends on motion alone and is one of
   * the four movement states; WALK needs the floor and horizontal speed.
   */
  lemma IdleWeaponsGiveMovementState(health: Health, c: Collider, v: Velocity)
    requires health.now > 0
    ensures var s := ChooseState(health, None, c, v);
      && s in {Walk, WallSlide, Fall, Idle}
      && (s == Walk <==> c.onFloor && v.value.x != 0.0)
      && (s == Idle <==> c.onFloor && v.value.x == 0.0)
  {
  }

  /** The entity is in the animation view. */
  predicate InAnimationView(c: Entry)
  {
    c.animation.Some? && c.velocity.Some? && c.collider.Some? && c.health.Some?
  }

  /** One entity after `animate_character`: its animation is set to the chosen state. */
  function AnimateEntry(c: Entry): Entry
  {
    if !InAnimationView(c) then c
    else
      var s := ChooseState(c.health.value, GetActiveWeapon(c), c.collider.value, c.velocity.value);
      c.(animation := Some(SetState(c.animation.value, s)))
  }

  /** `animate_character()`: every entity in the view is animated; the others are kept. */
  function Animated(w: World): World
  {
    w.(entries := map e | e in w.entries :: AnimateEntry(w.entries[e]))
  }

  /**
   * After `animate_character()` every entity in the view shows the state its
   * health, active weapon and motion call for, its timer restarting only if
   * that state is new; no other component and no other entity changes.
   */
  lemma AnimatedEffect(w: World)
    ensures var r := Animated(w);
      && r.entries.Keys == w.entries.Keys
      && (forall e :: e in w.entries && !InAnimationView(w.entries[e]) ==> r.entries[e] == w.entries[e])
      && (forall e :: e in w.entries && InAnimationView(w.entries[e]) ==>
            var c := w.entries[e];
            var s := ChooseState(c.health.value, GetActiveWeapon(c), c.collider.value, c.velocity.value);
            && r.entries[e].animation.Some?
            && r.entries[e].animation.value.state == s
            && r.entries[e].animation.value.sprite == c.animation.value.sprite
            && (c.animation.value.state == s ==> r.entries[e].animation.value.timer == c.animation.value.timer)
            && (c.animation.value.state != s ==> r.entries[e].animation.value.timer == 0.0)
            && r.entries[e].(animation := c.animation) == c)
      && r.next == w.next && r.trauma == w.trauma && r.sounds == w.sounds
  {
  }

  /** Animating twice in a row gives the same store as animating once. */
  lemma AnimatedIdempotent(w: World)
    ensures Animated(Animated(w)) == Animated(w)
  {
    var v := Animated(w);
    forall e | e in v.entries
      ensures AnimateEntry(v.entries[e]) == v.entries[e]
    {
      var c := w.entries[e];
      if InAnimationView(c) {
        var s := ChooseState(c.health.value, GetActiveWeapon(c), c.collider.value, c.velocity.value);
        assert v.entries[e] == c.(animation := Some(SetState(c.animation.value, s)));
        assert GetActiveWeapon(v.entries[e]) == GetActiveWeapon(c);
        SetStateIdempotent(c.animation.value, s);
      }
    }
    assert Animated(v).entries == v.entries;
  }

  /** A store whose every entity is the animated one is the animated store. */
  lemma AnimatedPointwise(w: World, m: map<Entity, Entry>)
    requires m.Keys == w.entries.Keys
    requires forall e :: e in m ==> m[e] == AnimateEntry(w.entries[e])
    ensures w.(entries := m) == Animated(w)
  {
  }

  /** The priority chain of one `animate_character` iteration, calling `set_state` once. */
  method SetChosenState(animation: AnimationState, health: Health, weapon: Option<Weapon>, collider: Collider, velocity: Velocity)
    returns (r: AnimationState)
    ensures r == SetState(animation, ChooseState(health, weapon, collider, velocity))
  {
    if health.now <= 0 {
      r := SetState(animation, Die);
    } else if weapon.Some? && weapon.value.active != 0.0 && !collider.onFloor && weapon.value.action == Attack {
      r := SetState(animation, AirAttack);
    } else if weapon.Some? && weapon.value.active != 0.0 {
      r := SetState(animation, weapon.value.action);
    } else if collider.onFloor && velocity.value.x != 0.0 {
      r := SetState(animation, Walk);
    } else if collider.wallDirection != 0 && !collider.onFloor {
      r := SetState(animation, WallSlide);
    } else if !collider.onFloor {
      r := SetState(animation, Fall);
    } else {
      r := SetState(animation, Idle);
    }
  }

  /** `animate_character()`. */
  method AnimateCharacter(reg: Registry)
    requires reg.Valid()
    modifies reg
    ensures reg.Valid()
    ensures reg.State() == Animated(old(reg.State()))
  {
    ghost var start := reg.entries;
    var n := 0;
    while n < reg.next
      invariant 0 <= n <= reg.next == old(reg.next)
      invariant reg.entries.Keys == start.Keys
      invariant forall e :: e in reg.entries ==>
        reg.entries[e] == if e < n then AnimateEntry(start[e]) else start[e]
      invariant reg.trauma == old(reg.trauma) && reg.sounds == old(reg.sounds)
    {
      if n in reg.entries && InAnimationView(reg.entries[n]) {
        var c := reg.entries[n];
        var animation := SetChosenState(c.animation.value, c.health.value, GetActiveWeapon(c), c.collider.value, c.velocity.value);
        reg.entries := reg.entries[n := c.(animation := Some(animation))];
      }
      n := n + 1;
    }
    AnimatedPointwise(old(reg.State()), reg.entries);
  }
}
