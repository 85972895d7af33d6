/**
 * The entity factory of src/entities.cc: the catalog of archetype definitions
 * keyed by file-name stem, and `spawn_entity`, which builds an entity from a
 * definition. Directory iteration and TOML parsing are outside the model: the
 * loader receives the already-parsed files, and a definition records which
 * component sections its file has, each already decoded.
 */
module Entities {
  import opened Wrappers
  import opened Components
  import opened Store

  /** 2^64: `size_t` arithmetic wraps modulo this. */
  const SizeModulus: int := 0x1_0000_0000_0000_0000

  /** `std::string::npos`, the largest `size_t`; the string searches return it for "not found". */
  const NPos: int := SizeModulus - 1

  /** `s.find_last_of(chars)`: the last position holding one of `chars`, or `NPos`. */
  function FindLastOf(s: string, chars: set<char>): (r: int)
    requires |s| < NPos
    ensures r == NPos || (0 <= r < |s| && s[r] in chars)
    ensures r == NPos ==> forall k :: 0 <= k < |s| ==> s[k] !in chars
    ensures r != NPos ==> forall k :: r < k < |s| ==> s[k] !in chars
  {
    if s == [] then NPos
    else if s[|s| - 1] in chars then |s| - 1
    else FindLastOf(s[..|s| - 1], chars)
  }

  /** `s.find_first_of(chars)`: the first position holding one of `chars`, or `NPos`. */
  function FindFirstOf(s: string, chars: set<char>): (r: int)
    requires |s| < NPos
    ensures r == NPos || (0 <= r < |s| && s[r] in chars)
    ensures r == NPos ==> forall k :: 0 <= k < |s| ==> s[k] !in chars
    ensures r != NPos ==> forall k :: 0 <= k < r ==> s[k] !in chars
  {
    if s == [] then NPos
    else if s[0] in chars then 0
    else
      var k := FindFirstOf(s[1..], chars);
      if k == NPos then NPos else k + 1
  }

  /** `s.substr(pos, count)`: at most `count` characters from `pos` on. */
  function Substr(s: string, pos: nat, count: nat): (r: string)
    requires pos <= |s|
  {
    s[pos..if pos + count < |s| then pos + count else |s|]
  }

  /** The characters `load_entities` treats as directory separators. */
  const Separators: set<char> := {'/', '\\'}

  predicate IsSeparator(c: char)
  {
    c in Separators
  }

  /** The last separator-like position is pinned down by the characters after it. */
  lemma LastOfIs(s: string, chars: set<char>, p: int)
    requires |s| < NPos
    requires 0 <= p < |s| && s[p] in chars
    requires forall k :: p < k < |s| ==> s[k] !in chars
    ensures FindLastOf(s, chars) == p
  {
  }

  lemma FirstOfIs(s: string, chars: set<char>, p: int)
    requires |s| < NPos
    requires 0 <= p < |s| && s[p] in chars
    requires forall k :: 0 <= k < p ==> s[k] !in chars
    ensures FindFirstOf(s, chars) == p
  {
  }

  /**
   * The archetype name `load_entities` derives from a file path: start just
   * after the last separator (at 0 when there is none, since `npos + 1` wraps
   * to 0) and take `find_first_of(".") - start` characters, a `size_t`
   * difference that wraps to a huge count when the first `.` lies before the
   * start or there is no `.` at all.
   */
  function Stem(path: string): (name: string)
    requires |path| < NPos
    ensures forall k :: 0 <= k < |name| ==> !IsSeparator(name[k])
  {
    var last := FindLastOf(path, Separators);
    // size_t arithmetic: npos + 1 wraps to 0, and a negative difference wraps past 2^64
    var start := if last == NPos then 0 else last + 1;
    var dot := FindFirstOf(path, {'.'});
    var count := if dot >= start then dot - start else dot - start + SizeModulus;
    var name := Substr(path, start, count);
    assert forall k :: 0 <= k < |name| ==> name[k] == path[start + k];
    name
  }

  /** The stem is the text from just after the last separator up to the first `.` when that lies after it. */
  lemma StemBetween(path: string, n: nat, m: nat)
    requires |path| < NPos
    requires n <= m < |path|
    requires n == 0 ==> FindLastOf(path, Separators) == NPos
    requires n > 0 ==> FindLastOf(path, Separators) == n - 1
    requires FindFirstOf(path, {'.'}) == m
    ensures Stem(path) == path[n..m]
  {
  }

  /**
   * A path made of a directory part without `.` (empty or ending in a
   * separator), a base name without separators or `.`, and an extension that
   * starts with `.` and has no separator: its stem is the base name.
   */
  lemma StemOfFile(dir: string, base: string, ext: string)
    requires |dir| + |base| + |ext| < NPos
    requires dir == [] || IsSeparator(dir[|dir| - 1])
    requires forall k :: 0 <= k < |dir| ==> dir[k] != '.'
    requires forall k :: 0 <= k < |base| ==> !IsSeparator(base[k]) && base[k] != '.'
    requires |ext| > 0 && ext[0] == '.'
    requires forall k :: 0 <= k < |ext| ==> !IsSeparator(ext[k])
    ensures Stem(dir + base + ext) == base
  {
    var path := dir + base + ext;
    var n, m := |dir|, |dir| + |base|;
    forall k | n <= k < |path|
      ensures path[k] !in Separators
    {
      if k < m { assert path[k] == base[k - n]; } else { assert path[k] == ext[k - m]; }
    }
    if dir == [] {
      assert FindLastOf(path, Separators) == NPos;
    } else {
      assert path[n - 1] == dir[n - 1];
      LastOfIs(path, Separators, n - 1);
    }
    forall k | 0 <= k < m
      ensures path[k] !in {'.'}
    {
      if k < n { assert path[k] == dir[k]; } else { assert path[k] == base[k - n]; }
    }
    assert path[m] == ext[0];
    FirstOfIs(path, {'.'}, m);
    StemBetween(path, n, m);
    assert path[n..m] == base;
  }

  /** With a `.` in the directory part the derived name keeps the file's extension. */
  lemma StemKeepsExtensionAfterDottedDirectory()
    ensures Stem("./p.toml") == "p.toml"
  {
    var path := "./p.toml";
    LastOfIs(path, Separators, 1);
    FirstOfIs(path, {'.'}, 0);
  }

  /**
   * The component sections an archetype's file has, each already decoded.
   * `None` means the file has no section of that name.
   */
  datatype Definition = Definition(
    player: Option<Player>,
    enemy: Option<Enemy>,
    gravity: Option<Gravity>,
    position: Option<Position>,
    velocity: Option<Velocity>,
    facing: Option<Facing>,
    collider: Option<Collider>,
    health: Option<Health>,
    debugColor: Option<DebugColor>,
    meleeAttack: Option<MeleeAttack>,
    biteAttack: Option<BiteAttack>,
    gunAttack: Option<GunAttack>,
    weaponSet: Option<WeaponSet>,
    rayCast: Option<RayCast>,
    bullet: Option<Bullet>,
    jump: Option<Jump>,
    animation: Option<AnimationState>)

  /** A file found in the definition directory: its path and its parsed content. */
  datatype DefinitionFile = DefinitionFile(path: string, definition: Definition)

  /** The catalog after storing each file, in order, under its stem. */
  function Loaded(types: map<string, Definition>, files: seq<DefinitionFile>): (r: map<string, Definition>)
    requires forall f :: f in files ==> |f.path| < NPos
    ensures types.Keys <= r.Keys
    ensures forall f :: f in files ==> Stem(f.path) in r
  {
    if files == [] then types
    else
      var last := files[|files| - 1];
      var before := Loaded(types, files[..|files| - 1]);
      assert files == files[..|files| - 1] + [last];
      before[Stem(last.path) := last.definition]
  }

  /** The stems of a list of files grow by the stem of the file appended. */
  lemma StemsAppend(files: seq<DefinitionFile>, last: DefinitionFile)
    requires forall f :: f in files ==> |f.path| < NPos
    requires |last.path| < NPos
    ensures (set f | f in files + [last] :: Stem(f.path)) == (set f | f in files :: Stem(f.path)) + {Stem(last.path)}
  {
    var after := set f | f in files + [last] :: Stem(f.path);
    var before := set f | f in files :: Stem(f.path);
    forall x | x in after
      ensures x in before || x == Stem(last.path)
    {
      var f :| f in files + [last] && Stem(f.path) == x;
      if f != last {
        assert f in files;
      }
    }
    forall x | x in before
      ensures x in after
    {
      var f :| f in files && Stem(f.path) == x;
      assert f in files + [last];
    }
  }

  /** Loading adds exactly the files' stems as names: no other key appears. */
  lemma {:induction false} LoadedKeys(types: map<string, Definition>, files: seq<DefinitionFile>)
    requires forall f :: f in files ==> |f.path| < NPos
    ensures Loaded(types, files).Keys == types.Keys + set f | f in files :: Stem(f.path)
  {
    if files != [] {
      var prefix := files[..|files| - 1];
      var last := files[|files| - 1];
      assert files == prefix + [last];
      LoadedKeys(types, prefix);
      StemsAppend(prefix, last);
      assert Loaded(types, files).Keys == Loaded(types, prefix).Keys + {Stem(last.path)};
    }
  }

  /** Of several files with one stem, the catalog keeps the one read last. */
  lemma {:induction false} LoadedLastWins(types: map<string, Definition>, files: seq<DefinitionFile>, k: nat)
    requires forall f :: f in files ==> |f.path| < NPos
    requires k < |files|
    requires forall j :: k < j < |files| ==> Stem(files[j].path) != Stem(files[k].path)
    ensures Stem(files[k].path) in Loaded(types, files)
    ensures Loaded(types, files)[Stem(files[k].path)] == files[k].definition
  {
    var n := |files| - 1;
    var name := Stem(files[k].path);
    if k < n {
      var prefix := files[..n];
      assert prefix[k] == files[k];
      forall j | k < j < |prefix|
        ensures Stem(prefix[j].path) != name
      {
        assert prefix[j] == files[j];
      }
      LoadedLastWins(types, prefix, k);
      assert Stem(files[n].path) != name;
    }
  }

  /** A name that no file's stem matches keeps whatever the catalog held before. */
  lemma {:induction false} LoadedKeepsOthers(types: map<string, Definition>, files: seq<DefinitionFile>, name: string)
    requires forall f :: f in files ==> |f.path| < NPos
    requires name in types
    requires forall j :: 0 <= j < |files| ==> Stem(files[j].path) != name
    ensures Loaded(types, files)[name] == types[name]
  {
    if files != [] {
      LoadedKeepsOthers(types, files[..|files| - 1], name);
    }
  }

  /** The global `entity_types` map, filled once at start-up. */
  class Catalog {
    var types: map<string, Definition>

    constructor ()
      ensures types == map[]
    {
      types := map[];
    }

    /** `load_entities`: store every file of the definition directory under its stem, in order. */
    method LoadEntities(files: seq<DefinitionFile>)
      requires forall f :: f in files ==> |f.path| < NPos
      modifies this
      ensures types == Loaded(old(types), files)
    {
      var i := 0;
      while i < |files|
        invariant 0 <= i <= |files|
        invariant types == Loaded(old(types), files[..i])
      {
        var name := Stem(files[i].path);
        types := types[name := files[i].definition];
        assert files[..i + 1][..i] == files[..i];
        i := i + 1;
      }
      assert files[..|files|] == files;
    }
  }

  /**
   * `add_component<C>`: the section's component when the definition has that
   * section, otherwise whatever the entity had (nothing, on a new entity).
   */
  function AddComponent<C>(attached: Option<C>, section: Option<C>): (r: Option<C>)
    ensures section.None? ==> r == attached
    ensures section.Some? ==> r == section
  {
    if section.None? then attached else section
  }

  /**
   * The components `spawn_entity` gives a new entity: one `add_component` per
   * section in the source's order (the WeaponSet line is commented out), then
   * Position replaced by the caller's position.
   */
  function Spawned(d: Definition, p: Vec2): Entry
  {
    var attached := Bare.(
      player := AddComponent(Bare.player, d.player),
      enemy := AddComponent(Bare.enemy, d.enemy),
      gravity := AddComponent(Bare.gravity, d.gravity),
      position := AddComponent(Bare.position, d.position),
      velocity := AddComponent(Bare.velocity, d.velocity),
      facing := AddComponent(Bare.facing, d.facing),
      collider := AddComponent(Bare.collider, d.collider),
      health := AddComponent(Bare.health, d.health),
      debugColor := AddComponent(Bare.debugColor, d.debugColor),
      meleeAttack := AddComponent(Bare.meleeAttack, d.meleeAttack),
      biteAttack := AddComponent(Bare.biteAttack, d.biteAttack),
      gunAttack := AddComponent(Bare.gunAttack, d.gunAttack),
      rayCast := AddComponent(Bare.rayCast, d.rayCast),
      bullet := AddComponent(Bare.bullet, d.bullet),
      jump := AddComponent(Bare.jump, d.jump),
      animation := AddComponent(Bare.animation, d.animation));
    attached.(position := Some(Position(p)))
  }

  /** Every section other than Position and WeaponSet is attached exactly when the definition has it. */
  predicate SectionsAttached(d: Definition, c: Entry)
  {
    && c.player == d.player && c.enemy == d.enemy && c.gravity == d.gravity
    && c.velocity == d.velocity && c.facing == d.facing && c.collider == d.collider
    && c.health == d.health && c.debugColor == d.debugColor && c.meleeAttack == d.meleeAttack
    && c.biteAttack == d.biteAttack && c.gunAttack == d.gunAttack && c.rayCast == d.rayCast
    && c.bullet == d.bullet && c.jump == d.jump && c.animation == d.animation
  }

  /**
   * The store after `spawn_entity` with definition `d` at `p`: exactly one new
   * entity, nothing existing touched, Position set to `p` whatever the
   * definition said, no WeaponSet, and every other section attached iff present.
   */
  function Spawn(w: World, d: Definition, p: Vec2): (r: World)
    requires Wf(w)
    ensures Wf(r)
    ensures w.next !in w.entries && r.entries.Keys == w.entries.Keys + {w.next}
    ensures forall e :: e in w.entries ==> r.entries[e] == w.entries[e]
    ensures r.next == w.next + 1
    ensures r.entries[w.next].position == Some(Position(p))
    ensures r.entries[w.next].weaponSet.None?
    ensures SectionsAttached(d, r.entries[w.next])
    ensures r.entries[w.next].character.None? && r.entries[w.next].movement.None?
    ensures !r.entries[w.next].stunned && r.entries[w.next].particles.None?
    ensures r.trauma == w.trauma && r.sounds == w.sounds
  {
    Created(w, Spawned(d, p))
  }

  /** The definition's own Position section never shows: the spawn position always wins. */
  lemma SpawnIgnoresDefinedPosition(d: Definition, p: Vec2, q: Option<Position>)
    ensures Spawned(d.(position := q), p) == Spawned(d, p)
  {
  }

  /**
   * `spawn_entity(name, position, direction)` for a name the catalog holds.
   * The direction argument has no effect.
   */
  method SpawnEntity(reg: Registry, catalog: Catalog, name: string, position: Vec2, direction: int)
    requires reg.Valid()
    requires name in catalog.types
    modifies reg
    ensures reg.Valid()
    ensures reg.State() == Spawn(old(reg.State()), catalog.types[name], position)
  {
    var d := catalog.types[name];
    var e := reg.Create();
    var c := reg.entries[e];
    c := c.(player := AddComponent(c.player, d.player));
    c := c.(enemy := AddComponent(c.enemy, d.enemy));
    c := c.(gravity := AddComponent(c.gravity, d.gravity));
    c := c.(position := AddComponent(c.position, d.position));
    c := c.(velocity := AddComponent(c.velocity, d.velocity));
    c := c.(facing := AddComponent(c.facing, d.facing));
    c := c.(collider := AddComponent(c.collider, d.collider));
    c := c.(health := AddComponent(c.health, d.health));
    c := c.(debugColor := AddComponent(c.debugColor, d.debugColor));
    c := c.(meleeAttack := AddComponent(c.meleeAttack, d.meleeAttack));
    c := c.(biteAttack := AddComponent(c.biteAttack, d.biteAttack));
    c := c.(gunAttack := AddComponent(c.gunAttack, d.gunAttack));
    c := c.(rayCast := AddComponent(c.rayCast, d.rayCast));
    c := c.(bullet := AddComponent(c.bullet, d.bullet));
    c := c.(jump := AddComponent(c.jump, d.jump));
    c := c.(animation := AddComponent(c.animation, d.animation));
    reg.entries := reg.entries[e := c];
    reg.entries := reg.entries[e := reg.entries[e].(position := Some(Position(position)))];
  }
}
