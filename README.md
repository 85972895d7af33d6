# Gameplay core of a 2D platformer, in Dafny

This project models the gameplay logic of the ScreamJam 2022 platformer: the
tile world (row-major tile storage, world/tile coordinate conversion,
bounds-checked lookup, and the constructors that build the map and spawn its
objects), the per-frame combat systems (damage, death, weapon ticks, bullet
flight), the animation decision, the component records with their helpers and
defaults, the entity factory that assembles entities from data files, and the
arithmetic helpers.

The entity registry (EnTT in the game) is the `Store.Registry` class. Each
live entity maps to an `Entry`, which has one optional field per component.
The registry also holds the next fresh identifier, the camera's trauma counter
and a log of the sounds played. Views visit live entities in increasing
identifier order.

Every system is an imperative method over the registry, as in the game. Each
method is proved to leave exactly the store that a pure function of the old
store describes (`Damage`, `DeathPass`, `WeaponsUpdated`, `BulletStep`,
`Animated`, `Spawn`, `SpawnAll`). The game's rules are then proved as lemmas
and contracts about those functions.

The map's layers keep their tiles in an `array`, filled in place by the layer
constructor. The map, the entity catalog and the registry are classes whose
methods update their fields.

Modules: `Wrappers` (Option), `Util` (src/util.cc), `Components`
(src/components.hh), `Store` (the registry), `Entities` (src/entities.cc),
`Tiles` (src/tilemap.cc), `Combat` (src/combat.cc), `Animation`
(src/animation.cc).

Three behaviours are modelled as the code has them:
- **Bullets that leave the map fly on.** Off the map every tile reads as
  empty, so the terrain check does not destroy them (`Combat.BulletLeavingMapFliesOn`).
- **`main_layer` counts every file layer.** It is a position in the unfiltered
  list of file layers, but it indexes the kept layers. A map whose object
  group comes before "Main" therefore takes its size and tiles from the kept
  layer after "Main" when there is one (`Tiles.MainIndexCanNameAnotherLayer`).
  When "Main" is the last kept layer, the game reads past the end of `layers`;
  the map constructor's precondition excludes that case.
- **`spawn_entity` never attaches a WeaponSet.** That line is commented out
  (`Entities.Spawn`).

## Model

| member | source | states |
|---|---|---|
| Util.Sign | src/util.cc:6-8 | the sign is 1, 0 or -1 as `n` is positive, zero or negative |
| Util.MoveTowards | src/util.cc:10-17 | the target exactly when it is within `d`; otherwise `n` moved by exactly `d` toward the target |
| Util.MoveTowardsNeverOvershoots | src/util.cc:10-17 | for `d >= 0` the result lies between `n` and the target, is never farther from the target, and is exactly `d` closer when not snapped |
| Util.Ease | src/util.cc:23-28 | `ease(0, a, b) == a` and `ease(1, a, b) == b` |
| Util.EaseStaysBetween | src/util.cc:23-28 | for `t` in [0, 1] the eased value stays between `a` and `b` |
| Components.FreshGravity | src/components.hh:32-36 | a default-constructed Gravity has scale 1.0 |
| Components.GetRectangle | src/components.hh:62-69 | the box has the collider's size and is anchored at bottom-centre; it contains exactly the points within half a width horizontally and up to one height above the position, and never the position itself |
| Components.FreshJump | src/components.hh:136-147 | a Jump built from its tuning has both timers 0, both flags false, and the tuning values as given |
| Components.SetState | src/components.hh:154-159 | setting the current state changes nothing, not even the timer; a new state is stored and the timer restarts at 0; the sprite is kept |
| Components.SetStateIdempotent | src/components.hh:154-159 | two `set_state` calls with one value equal one call, and the state is that value |
| Store.Created | src/entities.cc:42 | `registry.create()`: a fresh identifier not yet live; existing entities are untouched |
| Store.Destroyed | src/combat.cc:90 | `registry.destroy(e)`: `e` and all its components are gone; every other entity is untouched |
| Store.Registry.Create | src/combat.cc:48 | the registry's state becomes `Created` of the old state with a bare entity |
| Store.Registry.Destroy | src/combat.cc:104 | the registry's state becomes `Destroyed` of the old state |
| Entities.FindLastOf | src/entities.cc:24 | `find_last_of`: the last position holding one of the characters, or `npos` when none does |
| Entities.FindFirstOf | src/entities.cc:25 | `find_first_of`: the first position holding one of the characters, or `npos` when none does |
| Entities.Stem | src/entities.cc:24-26 | the archetype name derived with wrapping `size_t` arithmetic contains no separator |
| Entities.StemBetween | src/entities.cc:24-26 | the name is the text from just after the last separator up to the first `.`, when that `.` lies after it |
| Entities.StemOfFile | src/entities.cc:24-26 | for a directory without `.`, a base name and an extension starting with `.`, the name is the base name |
| Entities.StemKeepsExtensionAfterDottedDirectory | src/entities.cc:24-26 | with a `.` in the directory part the name keeps the extension: `./p.toml` gives `p.toml` |
| Entities.Loaded | src/entities.cc:20-31 | after loading, every earlier name is still present and every file's stem is a key |
| Entities.LoadedKeys | src/entities.cc:20-31 | the names after loading are exactly the earlier names plus the stems of the files read; no other key appears |
| Entities.LoadedLastWins | src/entities.cc:29 | a stem maps to the definition of the last file with that stem |
| Entities.LoadedKeepsOthers | src/entities.cc:29 | a name that no file's stem matches keeps its earlier definition |
| Entities.Catalog.constructor | src/entities.cc:14 | the catalog starts empty |
| Entities.Catalog.LoadEntities | src/entities.cc:16-31 | the loop stores each file under its stem, in order, yielding `Loaded` |
| Entities.AddComponent | src/entities.cc:33-39 | without a section the entity keeps what it had; with one, exactly that section's component is attached |
| Entities.Spawned | src/entities.cc:43-63 | the entry a definition spawns at a position; `Spawn` and `SpawnIgnoresDefinedPosition` state that it has the caller's Position, no WeaponSet, and each other section exactly when the definition has it |
| Entities.Spawn | src/entities.cc:41-64 | one new entity; no existing entity changes; Position is the caller's; no WeaponSet; every other section is attached exactly when the definition has it |
| Entities.SpawnIgnoresDefinedPosition | src/entities.cc:48-63 | the definition's own Position section never shows in the spawned entity |
| Entities.SpawnEntity | src/entities.cc:41-64 | the registry's state becomes `Spawn` of the old state; the direction argument has no effect |
| Tiles.TileIndex | src/tilemap.cc:48-54 | `tile_index`, row-major `width*y + x`; `IndexInRange`, `IndexInjective` and `IndexRoundTrip` state that it is in range, injective and inverted by `TileCoordAt` |
| Tiles.TileCoordAt | src/tilemap.cc:56-58 | `tile_coord` with C++ truncating `%` and `/`; `IndexRoundTrip` states that it inverts `TileIndex` on in-bounds tiles |
| Tiles.InBounds | src/tilemap.cc:87-93 | `tile_in_map`: both coordinates are within `[0, width)` and `[0, height)`; `IndexInRange` states that such a tile's index fits the tile vector |
| Tiles.WorldToTile | src/tilemap.cc:64-69 | `world_to_tile` floors each coordinate divided by the tile size; `WorldToTileOfTileToWorld` and `TileToWorldSnaps` state that it inverts `TileToWorld` and finds the tile containing the point |
| Tiles.TileToWorld | src/tilemap.cc:75-85 | `tile_to_world` scales each coordinate by the tile size; `WorldToTileOfTileToWorld` states that `WorldToTile` inverts it |
| Tiles.IndexInRange | src/tilemap.cc:254-260 | every in-bounds tile index lies in `[0, width*height)`, the size of the tile vector |
| Tiles.IndexRoundTrip | src/tilemap.cc:48-58 | `tile_coord(tile_index(t)) == t` for every in-bounds `t`, with C++ truncating `/` and `%` |
| Tiles.IndexInjective | src/tilemap.cc:48-54 | distinct in-bounds tiles have distinct indices |
| Tiles.WorldToTileOfTileToWorld | src/tilemap.cc:64-85 | `world_to_tile(tile_to_world(t)) == t` for every tile |
| Tiles.TileToWorldSnaps | src/tilemap.cc:64-85 | `tile_to_world(world_to_tile(p))` is at most `p` on each axis and within one tile size of it |
| Tiles.PaintedReadsBack | src/tilemap.cc:218-236 | with distinct in-bounds coordinates, each non-null entry's tile is stored at its coordinate's index |
| Tiles.Painted | src/tilemap.cc:210-236 | the tile stored at an index after the fill loop; `PaintedReadsBack` and `PaintedBlank` state that it is the last non-null tile written there, or the empty tile |
| Tiles.PaintedBlank | src/tilemap.cc:210-236 | an index that no non-null entry names keeps the empty tile |
| Tiles.KeptLayers | src/tilemap.cc:21-26 | the kept layers are exactly the tile and image layers of the file |
| Tiles.KeptLayersStep | src/tilemap.cc:21-26 | one more file layer is appended to the kept layers exactly when it is a tile or image layer |
| Tiles.KeptLayersAllKept | src/tilemap.cc:21-26 | when every layer is a tile or image layer, all are kept in file order |
| Tiles.MainIndex | src/tilemap.cc:28-30 | `main_layer` is the unfiltered position of the last kept layer named "Main", or 0 when there is none |
| Tiles.MainIndexStep | src/tilemap.cc:28-30 | one more file layer becomes the main position exactly when it is a kept "Main" layer |
| Tiles.MainIndexFindsMainWhenNothingDroppedBefore | src/tilemap.cc:30-34 | when no layer up to "Main" is dropped, `layers[main_layer]` is the "Main" layer |
| Tiles.MainIndexCanNameAnotherLayer | src/tilemap.cc:30-34 | with an object group first, `layers[main_layer]` is the layer after "Main" |
| Tiles.FirstNamed | src/tilemap.cc:37 | `getLayer(name)` finds the first file layer with that name, or none |
| Tiles.SpawnAll | src/tilemap.cc:40-45 | spawning the objects creates one entity per object and keeps trauma and sounds |
| Tiles.SpawnAllKeepsExisting | src/tilemap.cc:40-45 | existing entities are untouched, and new ones have exactly the next identifiers |
| Tiles.SpawnAllCreates | src/tilemap.cc:40-45 | object `k` becomes entity `next + k`, spawned from its type's definition at its position |
| Tiles.MapLayer.constructor | src/tilemap.cc:179-245 | an image layer has no tiles; a tile layer is `width*height` tiles, each the last non-null tile written there, else empty |
| Tiles.MapLayer.Get | src/tilemap.cc:265-270 | the getter reads the vector at the tile's row-major index, which is in range |
| Tiles.Tilemap.InMap | src/tilemap.cc:87-98 | the map's own bounds test; `Lookup` states that outside it the result is the empty tile |
| Tiles.Tilemap.Lookup | src/tilemap.cc:100-108 | outside the map the empty tile; inside, the main layer's tile at `t` |
| Tiles.Tilemap.LookupReadsFileTile | src/tilemap.cc:100-108 | looking up a non-null file tile's coordinate in the main layer gives that tile |
| Tiles.Tilemap.constructor | src/tilemap.cc:11-46 | a failed parse builds nothing and spawns nothing; otherwise the layers, `main_layer`, size and object spawns are as above |
| Tiles.BuildLayers | src/tilemap.cc:19-31 | the layer loop yields one layer per kept file layer, in order, and the last "Main" position |
| Tiles.SpawnObjects | src/tilemap.cc:40-45 | the object loop leaves the registry in the `SpawnAll` state |
| Combat.Damage | src/combat.cc:13-50 | without Health nothing changes; with it, `now` falls by exactly `damage` and nothing else changes; shake of `damage/100` and one blood entity at `position - (0, height/2)` only with Position and Collider |
| Combat.DealDamage | src/combat.cc:13-50 | the registry's state becomes `Damage` of the old state |
| Combat.DeathEntry | src/combat.cc:55-68 | one entity's step of `death`; `DeathEntryEffect` and `DeathEntryOnce` state which fields change and that a second step is a no-op |
| Combat.DeathUpTo | src/combat.cc:52-72 | the store after `death` has visited the identifiers below `n`; `DeathUpToEntries` and `DeathUpToSettled` state that each visited entity got one step and the rest are untouched |
| Combat.DeathPass | src/combat.cc:52-72 | the whole `death` pass; `DeathPassEntries` and `DeathPassIdempotent` state that exactly the dead entities are transitioned and that a second pass changes nothing |
| Combat.DeathEntryEffect | src/combat.cc:55-68 | a living, or dead and already inactive, entity is unchanged; a dying one loses its stun and gets its collider disabled, is made inactive and has `direction.x = 0`, nothing else changing |
| Combat.DeathEntryOnce | src/combat.cc:64 | after the transition the entity is no longer dying, and a second transition changes nothing |
| Combat.DeathUpToEntries | src/combat.cc:52-72 | the entities visited so far have had the transition applied once; the rest are untouched |
| Combat.DeathPassEntries | src/combat.cc:54-55 | `death` leaves every entity that is not dead unchanged and transitions every dead one |
| Combat.DeathProcessesStunned | src/combat.cc:57-68 | a dead, stunned entity is fully processed in the same pass |
| Combat.DeathUpToSettled | src/combat.cc:52-72 | a pass over a store where no transition applies changes nothing |
| Combat.DeathPassIdempotent | src/combat.cc:52-72 | a second `death` pass changes nothing, so each death sound plays once |
| Combat.Death | src/combat.cc:52-72 | the registry's state becomes `DeathPass` of the old state |
| Combat.UpdatedWeapons | src/combat.cc:78 | every weapon of a set is ticked once, in place and in order |
| Combat.WeaponsUpdated | src/combat.cc:74-80 | the store after `weapon_update`; `WeaponsUpdatedEffect` states that every set is ticked once and nothing else changes |
| Combat.WeaponsUpdatedEffect | src/combat.cc:74-80 | every entity with a WeaponSet has each weapon ticked once, nothing else changes, and entities without one are untouched |
| Combat.TickWeapons | src/combat.cc:78 | the inner loop leaves each weapon of the set updated once, in order |
| Combat.WeaponUpdate | src/combat.cc:74-80 | the registry's state becomes `WeaponsUpdated` of the old state |
| Combat.FirstHitFrom | src/combat.cc:94-106 | the first hit target at or after a given identifier, in view order |
| Combat.FirstHit | src/combat.cc:94-106 | the target hit is the first in view order whose enabled collider box contains the point; if none is, no target is hit |
| Combat.BulletStep | src/combat.cc:82-109 | a non-bullet is left as is; the store stays well-formed and no sound is played |
| Combat.BulletsUpTo | src/combat.cc:82-109 | the bullet pass keeps the store well-formed and plays no sound |
| Combat.BulletsPass | src/combat.cc:82-109 | the whole `bullets` pass, one `BulletStep` per identifier alive when it starts, in view order |
| Combat.BulletStopsAtTerrain | src/combat.cc:85-92 | a bullet whose new tile is not empty is destroyed before any target is checked; nothing else changes |
| Combat.BulletMissFliesOn | src/combat.cc:85-108 | a bullet whose new tile is empty and that hits no target moves by its velocity exactly once; no other entity, identifier or trauma changes |
| Combat.BulletLeavingMapFliesOn | src/combat.cc:85-92 | a bullet leaving the map with no target in the way is not destroyed and sits at its advanced position |
| Combat.BulletHitsFirstTarget | src/combat.cc:94-106 | the first enabled overlapping target takes exactly the bullet's damage and nothing else of it changes; the bullet is destroyed; no later target is touched; trauma rises by `damage/100` and one blood spray is created at the next identifier, sprayed along the bullet's velocity |
| Combat.Bullets | src/combat.cc:82-109 | the registry's state becomes `BulletsPass` of the old state |
| Combat.MoveBullet | src/combat.cc:84-106 | one bullet's loop body leaves the registry in the `BulletStep` state |
| Animation.FirstActive | src/animation.cc:11-14 | the first position in set order whose weapon has `active > 0`, or none |
| Animation.GetActiveWeapon | src/animation.cc:8-15 | nothing without a WeaponSet; otherwise the first weapon with `active > 0`, or nothing when none is |
| Animation.ChooseState | src/animation.cc:23-30 | strict priority: DIE; AIR_ATTACK; the weapon's action; WALK; WALL_SLIDE; FALL; IDLE, each under its condition |
| Animation.DeadAlwaysDies | src/animation.cc:23 | with `now <= 0` the state is DIE whatever the weapon, collider and velocity |
| Animation.IdleWeaponsGiveMovementState | src/animation.cc:27-30 | with no active weapon the state is a movement state; WALK exactly on the floor with `x` speed, IDLE exactly on the floor without it |
| Animation.AnimateEntry | src/animation.cc:20-31 | one entity's step of `animate_character`; `AnimatedEffect` states that an entity in the view gets `set_state` with the state `ChooseState` picks, and others are unchanged |
| Animation.Animated | src/animation.cc:17-32 | the store after `animate_character`; `AnimatedEffect` and `AnimatedIdempotent` state what changes and that a second pass changes nothing |
| Animation.AnimatedEffect | src/animation.cc:17-32 | every entity in the view shows its chosen state, the timer restarting only on a change; nothing else changes |
| Animation.AnimatedIdempotent | src/animation.cc:17-32 | animating twice gives the same store as animating once |
| Animation.SetChosenState | src/animation.cc:23-30 | the seven-way chain applies `set_state` with exactly the state `ChooseState` picks |
| Animation.AnimateCharacter | src/animation.cc:17-32 | the registry's state becomes `Animated` of the old state |

## Left out

- Rendering is left out, as graphics and camera calls: `draw`, `draw_tile`, `draw_image`, textures, tint, parallax, offsets, scroll speed and the per-tile drawing rectangles (`rects`).
- Map-file parsing is outside the model. The constructors take an already-parsed status and a list of layer records. A tile layer's data is a list of coordinate/tile entries in the parser's map order, with `None` for a null tile.
- The TOML parsing of definition files and the directory iteration of `load_entities` are I/O. `LoadEntities` takes the list of (path, decoded definition) pairs in iteration order.
- `random_spread` and the death sound's pitch are randomness. The sound log records the sound and its volume only.
- `RayCast::intersect` is delegated to the graphics library's segment test.
- Particle-system configuration beyond count, position and direction is left out, as is the sprite reference. The effect of the shake is not modelled beyond the trauma counter.
- Combat.Damage: does not model 32-bit wrap-around of `health.now - damage`, because integers are unbounded here.
- Util.MoveTowards: floating-point rounding is not modelled. Positions, velocities, `move_towards` and `ease` are over reals, and `floor` is `.Floor`.
- Combat.BulletStep: its contract states only well-formedness, the kept sound log and the non-bullet case. Separate lemmas state its other behaviour: terrain (`BulletStopsAtTerrain`), a miss on an empty tile (`BulletMissFliesOn`), leaving the map (`BulletLeavingMapFliesOn`) and hitting a target (`BulletHitsFirstTarget`).
- Combat.BulletsUpTo: its contract states only well-formedness and the kept sound log. What each step does is stated by the `BulletStep` lemmas.
- EnTT's view iteration order is abstracted as increasing entity identifier. Destruction during iteration is removal from the store.
- WeaponSet in the game is a vector of `Weapon*` (src/components.hh:104). Here it is a sequence of weapon values, so the model does not capture pointer aliasing: if one weapon were reachable both through a set and through some other owner, such as an attack component, an update through the set would not show there. Nothing in the modelled code creates such a set, because the WeaponSet line of `spawn_entity` is commented out.
- `Weapon::update` and the weapon variants are in a header that is not part of this model. The update is a parameter function of `WeaponUpdate`, and a weapon is a record of kind, `active` and `action`.
- `AnimationState` and the other components are values in the store. `set_state` is a function on the value, and the system writes the result back.
- Tiles.Tilemap.constructor: the game indexes `layers[main_layer]` and dereferences the "Objects" layer without checks. The constructor therefore requires both to exist for a parsed file, and requires that every object type names a loaded archetype.
- Entities.SpawnEntity: requires that the name is in the catalog. For an unknown name the game inserts a default TOML value, whose behaviour belongs to the TOML library.
- The defaults in headers that are not part of this model are taken as follows: `empty_tile` is 0 (the value `tiles.resize` fills with), and `main_layer`, `width` and `height` start at 0. `tile_size` is a parameter of the map.
- The globals `registry`, `tilemap`, `entity_types` and `CameraSystem::trauma` are passed explicitly: the registry, the map and the catalog.
- The `Action` enumeration is declared outside this model. The states the code names are constructors; all others are `OtherAction(tag)`.
- working/sprite_sheet.py is an offline image-packing script and is not part of this model.
