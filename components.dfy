/**
 * The plain component records of src/components.hh, plus the few records the
 * modelled systems read that are declared in headers outside this model
 * (Character, Movement, Weapon, Action, the particle and sound descriptions).
 * Floats are real numbers; rounding is not modelled.
 */
module Components {

  /** raylib's two-component vector. */
  datatype Vec2 = Vec2(x: real, y: real)

  function Plus(a: Vec2, b: Vec2): Vec2
  {
    Vec2(a.x + b.x, a.y + b.y)
  }

  function Minus(a: Vec2, b: Vec2): Vec2
  {
    Vec2(a.x - b.x, a.y - b.y)
  }

  /** raylib's rectangle: top-left corner and size. */
  datatype Rect = Rect(x: real, y: real, width: real, height: real)

  /**
   * raylib's point-in-rectangle test (`CheckCollisionPointRec`): closed on the
   * left and top edges, open on the right and bottom edges.
   */
  predicate ContainsPoint(r: Rect, p: Vec2)
  {
    r.x <= p.x < r.x + r.width && r.y <= p.y < r.y + r.height
  }

  datatype Color = Color(r: int, g: int, b: int, a: int)

  /** Tags an entity as the player, with its movement tuning. */
  datatype Player = Player(
    maxSpeed: real,
    groundAcceleration: real,
    airAcceleration: real,
    groundDeceleration: real,
    airDeceleration: real,
    groundTurnSpeed: real,
    airTurnSpeed: real,
    canMove: bool)

  datatype Enemy = Enemy(aggroRange: real, attackRange: real, maxSpeed: real, active: bool)

  /** Makes an entity subject to gravity, scaled by `scale`. */
  datatype Gravity = Gravity(scale: real)

  /** A default-constructed Gravity has scale 1.0. */
  function FreshGravity(): (g: Gravity)
    ensures g.scale == 1.0
  {
    Gravity(1.0)
  }

  datatype Position = Position(value: Vec2)

  datatype Velocity = Velocity(value: Vec2)

  datatype Facing = Facing(direction: int)

  /** An axis-aligned box anchored at the entity's position; `enabled` gates entity collisions. */
  datatype Collider = Collider(width: real, height: real, onFloor: bool, wallDirection: int, enabled: bool)

  /**
   * `Collider::get_rectangle`: the collider box of an entity standing at
   * `position`. The position is the box's bottom-centre, so the box holds
   * exactly the points within half a width of it horizontally and at most one
   * height above it; the box's bottom edge, and so the position itself, lies
   * outside it.
   */
  function GetRectangle(c: Collider, position: Vec2): (r: Rect)
    ensures r.width == c.width && r.height == c.height
    ensures r.x + r.width / 2.0 == position.x && r.y + r.height == position.y
    ensures forall q :: ContainsPoint(r, q) <==>
      (position.x - c.width / 2.0 <= q.x < position.x + c.width / 2.0 &&
       position.y - c.height <= q.y < position.y)
    ensures !ContainsPoint(r, position)
  {
    Rect(position.x - c.width / 2.0, position.y - c.height, c.width, c.height)
  }

  /** Current and maximum health; the entity counts as dead once `now <= 0`. */
  datatype Health = Health(now: int, max: int)

  datatype DebugColor = DebugColor(color: Color)

  /** The attack behaviours (weapon.hh, not part of this model, holds their state machines). */
  datatype WeaponKind = Melee | Bite | Gun | Shield | Charge

  /**
   * Animation states. The enumeration is declared in a header outside this
   * model; the states the modelled code names are listed, every other value is
   * an `OtherAction`.
   */
  datatype Action = Idle | Walk | Fall | WallSlide | Die | Attack | AirAttack | OtherAction(tag: nat)

  /**
   * A weapon as the rest of the game sees it: a positive `active` while it is
   * mid-attack, and the `action` to animate.
   */
  datatype Weapon = Weapon(kind: WeaponKind, active: real, action: Action)

  datatype MeleeAttack = MeleeAttack(melee: Weapon)

  datatype BiteAttack = BiteAttack(bite: Weapon)

  datatype GunAttack = GunAttack(gun: Weapon)

  /** `WeaponSet`: the entity's weapons, in order. */
  type WeaponSet = seq<Weapon>

  datatype RayCast = RayCast(start: Vec2, end: Vec2)

  /** A projectile; `damage` is dealt to whatever it hits. */
  datatype Bullet = Bullet(damage: int)

  datatype Jump = Jump(
    speed: real,
    gravityScale: real,
    coyoteLength: real,
    bufferLength: real,
    coyoteTimer: real,
    bufferTimer: real,
    canJump: bool,
    wishJump: bool)

  /** A Jump built from its tuning alone: both timers at zero and both flags cleared. */
  function FreshJump(speed: real, gravityScale: real, coyoteLength: real, bufferLength: real): (j: Jump)
    ensures j.coyoteTimer == 0.0 && j.bufferTimer == 0.0
    ensures !j.canJump && !j.wishJump
    ensures j.speed == speed && j.gravityScale == gravityScale
    ensures j.coyoteLength == coyoteLength && j.bufferLength == bufferLength
  {
    Jump(speed, gravityScale, coyoteLength, bufferLength, 0.0, 0.0, false, false)
  }

  /** An opaque reference to a sprite, standing for the source's `Sprite*`. */
  type SpriteRef = nat

  /** The state being animated and how long it has been shown. */
  datatype AnimationState = AnimationState(state: Action, sprite: SpriteRef, timer: real)

  /**
   * `AnimationState::set_state`: switching to the state already shown keeps
   * everything, including the elapsed time; switching to another state restarts
   * the timer. The sprite is never touched.
   */
  function SetState(a: AnimationState, newState: Action): (r: AnimationState)
    ensures a.state == newState ==> r == a
    ensures a.state != newState ==> r.state == newState && r.timer == 0.0
    ensures r.sprite == a.sprite
  {
    if a.state == newState then a else a.(state := newState, timer := 0.0)
  }

  /** Setting the same state twice is the same as setting it once. */
  lemma SetStateIdempotent(a: AnimationState, s: Action)
    ensures SetState(SetState(a, s), s) == SetState(a, s)
    ensures SetState(a, s).state == s
  {
  }

  /** An opaque reference to a loaded sound. */
  type SoundRef = nat

  /** The character record (declared outside this model): alive-and-controllable flag and death sound. */
  datatype Character = Character(active: bool, deathSound: SoundRef)

  /** The movement record (declared outside this model): the intended direction of travel. */
  datatype Movement = Movement(direction: Vec2)

  /**
   * The particle effect a hit spawns. Only the settings that depend on the hit
   * are kept; the fixed colours, speeds and sprite are left out.
   */
  datatype ParticleSystem = ParticleSystem(count: int, position: Vec2, direction: Vec2)

  /** One `play_sound` call: which sound, at what volume (the random pitch is left out). */
  datatype Sound = Sound(sound: SoundRef, volume: real)
}
