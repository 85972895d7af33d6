/**
 * The tile world of src/tilemap.cc: integer tile coordinates, the row-major
 * layout of a layer's tiles, conversions between world and tile coordinates,
 * bounds-checked lookup, and the two constructors that build the map from an
 * already-parsed map file (the parsing library itself is outside the model).
 * Drawing, textures and the per-tile drawing rectangles are left out.
 */
module Tiles {
  import opened Wrappers
  import opened Components
  import opened Store
  import Util
  import Entities

  /** A tile identifier (the map file's global tile id). */
  type Tile = int

  /**
   * The "no tile" sentinel: the value a resized tile vector is filled with,
   * and what lookups outside the map return.
   */
  const EmptyTile: Tile := 0

  datatype TileCoord = TileCoord(x: int, y: int)

  /** C++ integer `/`: the quotient truncated toward zero. */
  function CDiv(a: int, b: int): int
    requires b != 0
  {
    var q := (if a < 0 then -a else a) / (if b < 0 then -b else b);
    if (a < 0) == (b < 0) then q else -q
  }

  /** C++ integer `%`: the remainder that goes with `CDiv`, with the sign of `a`. */
  function CMod(a: int, b: int): int
    requires b != 0
  {
    a - b * CDiv(a, b)
  }

  /** `tile_index`: row-major position of a tile in a layer `width` tiles wide. */
  function TileIndex(width: int, t: TileCoord): int
  {
    width * t.y + t.x
  }

  /** `tile_coord`: the coordinate of the tile stored at position `i`. */
  function TileCoordAt(width: int, i: int): TileCoord
    requires width != 0
  {
    TileCoord(CMod(i, width), CDiv(i, width))
  }

  /** `tile_in_map`: the coordinate names a tile of a `width` by `height` grid. */
  predicate InBounds(t: TileCoord, width: int, height: int)
  {
    0 <= t.x < width && 0 <= t.y < height
  }

  lemma MulMonotone(a: int, b: int, c: int)
    requires a <= b && c >= 0
    ensures a * c <= b * c
  {
    assert (b - a) * c >= 0;
  }

  /** Every in-bounds tile has a position inside the `width * height` tile vector. */
  lemma IndexInRange(width: int, height: int, t: TileCoord)
    requires InBounds(t, width, height)
    ensures 0 <= TileIndex(width, t) < width * height
  {
    MulMonotone(0, t.y, width);
    MulMonotone(t.y + 1, height, width);
    assert width * t.y + t.x < width * t.y + width == (t.y + 1) * width;
  }

  lemma DivModUnique(i: int, w: int, q: int, r: int)
    requires w > 0 && 0 <= r < w && q >= 0 && i == w * q + r
    ensures i / w == q && i % w == r
  {
    var q', r' := i / w, i % w;
    assert i == w * q' + r';
    if q' < q {
      MulMonotone(q' + 1, q, w);
      assert false;
    } else if q' > q {
      MulMonotone(q + 1, q', w);
      assert false;
    }
  }

  /** Position and coordinate convert back and forth exactly for every in-bounds tile. */
  lemma IndexRoundTrip(width: int, height: int, t: TileCoord)
    requires InBounds(t, width, height)
    ensures TileCoordAt(width, TileIndex(width, t)) == t
  {
    var i := TileIndex(width, t);
    IndexInRange(width, height, t);
    DivModUnique(i, width, t.y, t.x);
  }

  /** Distinct in-bounds tiles occupy distinct positions. */
  lemma IndexInjective(width: int, height: int, a: TileCoord, b: TileCoord)
    requires InBounds(a, width, height) && InBounds(b, width, height)
    requires TileIndex(width, a) == TileIndex(width, b)
    ensures a == b
  {
    IndexRoundTrip(width, height, a);
    IndexRoundTrip(width, height, b);
  }

  /** `world_to_tile`: the tile a world position falls in (floor of position / tile size). */
  function WorldToTile(p: Vec2, tileSize: int): TileCoord
    requires tileSize > 0
  {
    TileCoord((p.x / tileSize as real).Floor, (p.y / tileSize as real).Floor)
  }

  /** `tile_to_world`: the world position of a tile's top-left corner. */
  function TileToWorld(t: TileCoord, tileSize: int): Vec2
  {
    Vec2((t.x * tileSize) as real, (t.y * tileSize) as real)
  }

  lemma FloorOfMultiple(x: int, ts: int)
    requires ts > 0
    ensures (((x * ts) as real) / ts as real).Floor == x
  {
    assert (x * ts) as real == x as real * ts as real;
    assert ((x * ts) as real) / ts as real == x as real;
  }

  /** Going from a tile to the world and back lands on the same tile. */
  lemma WorldToTileOfTileToWorld(t: TileCoord, tileSize: int)
    requires tileSize > 0
    ensures WorldToTile(TileToWorld(t, tileSize), tileSize) == t
  {
    FloorOfMultiple(t.x, tileSize);
    FloorOfMultiple(t.y, tileSize);
  }

  lemma SnapOneAxis(v: real, ts: int)
    requires ts > 0
    ensures ((v / ts as real).Floor * ts) as real <= v < ((v / ts as real).Floor * ts) as real + ts as real
  {
    var s := ts as real;
    var f := (v / s).Floor;
    assert f as real <= v / s < f as real + 1.0;
    Util.MulMonotone(f as real, v / s, s);
    assert f as real * s <= v;
    assert (v / s) * s == v;
    var gap := f as real + 1.0 - v / s;
    assert gap > 0.0;
    assert gap * s > 0.0;
    assert (f as real + 1.0) * s == v + gap * s;
    assert (f * ts) as real == f as real * s;
  }

  /**
   * Going from the world to a tile and back is not a round trip: it snaps the
   * position to the tile's top-left corner, at most one tile size back on each axis.
   */
  lemma TileToWorldSnaps(p: Vec2, tileSize: int)
    requires tileSize > 0
    ensures var q := TileToWorld(WorldToTile(p, tileSize), tileSize);
      q.x <= p.x < q.x + tileSize as real && q.y <= p.y < q.y + tileSize as real
  {
    SnapOneAxis(p.x, tileSize);
    SnapOneAxis(p.y, tileSize);
  }

  // ---------------------------------------------------------------------------
  // Layers as the map file describes them

  datatype LayerType = TileLayer | ImageLayer | ObjectGroup | GroupLayer

  /** One entry of a layer's tile data: a coordinate and its tile, `None` for a null tile. */
  datatype TileEntry = TileEntry(coord: TileCoord, gid: Option<Tile>)

  /** A map object: its type names the archetype to spawn, at its pixel position. */
  datatype MapObject = MapObject(typeName: string, x: int, y: int)

  /**
   * A layer of the parsed map file. `tileData` lists the tile layer's entries in
   * the iteration order of the parser's coordinate-keyed map; `objects` lists an
   * object group's objects in file order.
   */
  datatype FileLayer = FileLayer(
    kind: LayerType,
    name: string,
    width: int,
    height: int,
    tileData: seq<TileEntry>,
    objects: seq<MapObject>)

  datatype ParseStatus = Parsed | ParseFailed

  /** Only tile and image layers become layers of the map. */
  predicate Kept(l: FileLayer)
  {
    l.kind == TileLayer || l.kind == ImageLayer
  }

  /** A kept layer whose name is "Main". */
  predicate IsMainLayer(l: FileLayer)
  {
    Kept(l) && l.name == "Main"
  }

  /**
   * What the parser guarantees of a tile layer: a non-negative size, and every
   * non-null tile at a coordinate inside that size.
   */
  predicate WellFormed(l: FileLayer)
  {
    l.kind == TileLayer ==>
      && l.width >= 0 && l.height >= 0
      && forall k :: 0 <= k < |l.tileData| && l.tileData[k].gid.Some? ==>
           InBounds(l.tileData[k].coord, l.width, l.height)
  }

  /**
   * The tile at position `i` after the layer's tile loop: the last non-null
   * entry written there, or `EmptyTile` when none was.
   */
  function Painted(data: seq<TileEntry>, width: int, i: int): Tile
  {
    if data == [] then EmptyTile
    else
      var last := data[|data| - 1];
      if last.gid.Some? && TileIndex(width, last.coord) == i then last.gid.value
      else Painted(data[..|data| - 1], width, i)
  }

  /**
   * With the distinct in-bounds coordinates of the parser's map, every non-null
   * entry's tile is the one stored at its coordinate's position.
   */
  lemma {:induction false} PaintedReadsBack(data: seq<TileEntry>, width: int, height: int, k: nat)
    requires forall j :: 0 <= j < |data| ==> InBounds(data[j].coord, width, height)
    requires forall i, j :: 0 <= i < j < |data| ==> data[i].coord != data[j].coord
    requires k < |data| && data[k].gid.Some?
    ensures Painted(data, width, TileIndex(width, data[k].coord)) == data[k].gid.value
  {
    var n := |data| - 1;
    if k < n {
      if TileIndex(width, data[n].coord) == TileIndex(width, data[k].coord) {
        IndexInjective(width, height, data[n].coord, data[k].coord);
        assert false;
      }
      PaintedReadsBack(data[..n], width, height, k);
    }
  }

  /** A position that no non-null entry names keeps the empty tile. */
  lemma {:induction false} PaintedBlank(data: seq<TileEntry>, width: int, i: int)
    requires forall j :: 0 <= j < |data| && data[j].gid.Some? ==> TileIndex(width, data[j].coord) != i
    ensures Painted(data, width, i) == EmptyTile
  {
    if data != [] {
      PaintedBlank(data[..|data| - 1], width, i);
    }
  }

  /** The kept layers, in file order. */
  function KeptLayers(ls: seq<FileLayer>): (r: seq<FileLayer>)
    ensures |r| <= |ls|
    ensures forall l :: l in r ==> Kept(l) && l in ls
    ensures forall l :: l in ls && Kept(l) ==> l in r
  {
    if ls == [] then []
    else
      var last := ls[|ls| - 1];
      KeptLayers(ls[..|ls| - 1]) + (if Kept(last) then [last] else [])
  }

  lemma {:induction false} KeptLayersAppend(a: seq<FileLayer>, b: seq<FileLayer>)
    ensures KeptLayers(a + b) == KeptLayers(a) + KeptLayers(b)
  {
    if b != [] {
      var n := |b| - 1;
      assert (a + b)[..|a + b| - 1] == a + b[..n];
      KeptLayersAppend(a, b[..n]);
    } else {
      assert a + b == a;
    }
  }

  /** One more file layer is appended to the kept layers exactly when it is kept. */
  lemma KeptLayersStep(ls: seq<FileLayer>, f: FileLayer)
    ensures KeptLayers(ls + [f]) == KeptLayers(ls) + if Kept(f) then [f] else []
  {
    assert (ls + [f])[..|ls|] == ls;
  }

  lemma {:induction false} KeptLayersAllKept(ls: seq<FileLayer>)
    requires forall j :: 0 <= j < |ls| ==> Kept(ls[j])
    ensures KeptLayers(ls) == ls
  {
    if ls != [] {
      var n := |ls| - 1;
      var init := ls[..n];
      KeptLayersAllKept(init);
      assert Kept(ls[n]);
      calc {
        KeptLayers(ls);
        KeptLayers(init) + [ls[n]];
        init + [ls[n]];
        ls;
      }
    }
  }

  /**
   * `main_layer`: the position, in the unfiltered file-layer list, of the last
   * kept layer named "Main"; 0 when there is none.
   */
  function MainIndex(ls: seq<FileLayer>): (r: nat)
    ensures ls == [] ==> r == 0
    ensures ls != [] ==> r < |ls|
    ensures (exists j :: 0 <= j < |ls| && IsMainLayer(ls[j])) ==> IsMainLayer(ls[r])
    ensures (exists j :: 0 <= j < |ls| && IsMainLayer(ls[j])) ==>
      forall j :: r < j < |ls| ==> !IsMainLayer(ls[j])
    ensures (forall j :: 0 <= j < |ls| ==> !IsMainLayer(ls[j])) ==> r == 0
  {
    if ls == [] then 0
    else if IsMainLayer(ls[|ls| - 1]) then |ls| - 1
    else
      var r := MainIndex(ls[..|ls| - 1]);
      assert forall j :: 0 <= j < |ls| - 1 ==> ls[..|ls| - 1][j] == ls[j];
      r
  }

  /** One more file layer: it becomes the Main position exactly when it is a kept "Main" layer. */
  lemma MainIndexStep(ls: seq<FileLayer>, f: FileLayer)
    ensures MainIndex(ls + [f]) == if IsMainLayer(f) then |ls| else MainIndex(ls)
  {
    assert (ls + [f])[..|ls|] == ls;
  }

  /**
   * When every file layer up to the Main layer is kept, the unfiltered position
   * also indexes the Main layer among the kept layers.
   */
  lemma MainIndexFindsMainWhenNothingDroppedBefore(ls: seq<FileLayer>)
    requires exists j :: 0 <= j < |ls| && IsMainLayer(ls[j])
    requires forall j :: 0 <= j <= MainIndex(ls) ==> Kept(ls[j])
    ensures MainIndex(ls) < |KeptLayers(ls)|
    ensures KeptLayers(ls)[MainIndex(ls)] == ls[MainIndex(ls)]
  {
    var m := MainIndex(ls);
    var a, b := ls[..m + 1], ls[m + 1..];
    assert ls == a + b;
    KeptLayersAppend(a, b);
    KeptLayersAllKept(a);
  }

  /**
   * With an object group first, the unfiltered position of "Main" (1) names the
   * layer after it among the kept layers, so the map takes its size and tiles
   * from "Front".
   */
  lemma MainIndexCanNameAnotherLayer()
    ensures var ls := [FileLayer(ObjectGroup, "Objects", 0, 0, [], []),
                       FileLayer(TileLayer, "Main", 0, 0, [], []),
                       FileLayer(TileLayer, "Front", 0, 0, [], [])];
      MainIndex(ls) == 1 && |KeptLayers(ls)| == 2 && KeptLayers(ls)[MainIndex(ls)].name == "Front"
  {
    var ls := [FileLayer(ObjectGroup, "Objects", 0, 0, [], []),
               FileLayer(TileLayer, "Main", 0, 0, [], []),
               FileLayer(TileLayer, "Front", 0, 0, [], [])];
    assert ls[..2][..1] == [ls[0]];
    assert ls[..2] == [ls[0], ls[1]];
    assert KeptLayers(ls[..2]) == [ls[1]];
    assert KeptLayers(ls) == [ls[1], ls[2]];
  }

  /** `map->getLayer(name)`: the position of the first file layer with that name. */
  function FirstNamed(ls: seq<FileLayer>, name: string): (r: Option<nat>)
    ensures r.Some? ==> r.value < |ls| && ls[r.value].name == name
    ensures r.Some? ==> forall j :: 0 <= j < r.value ==> ls[j].name != name
    ensures r.None? ==> forall j :: 0 <= j < |ls| ==> ls[j].name != name
  {
    if ls == [] then None
    else if ls[0].name == name then Some(0)
    else
      match FirstNamed(ls[1..], name)
      case None => None
      case Some(j) => Some(j + 1)
  }

  // ---------------------------------------------------------------------------
  // Spawning the map's objects

  /** The spawn position of a map object: its integer pixel position as a float vector. */
  function ObjectPosition(o: MapObject): Vec2
  {
    Vec2(o.x as real, o.y as real)
  }

  /**
   * The store after one `spawn_entity` per object, in object order; the lemmas
   * below say what it holds.
   */
  function SpawnAll(w: World, types: map<string, Entities.Definition>, objs: seq<MapObject>): (r: World)
    requires Wf(w)
    requires forall o :: o in objs ==> o.typeName in types
    ensures Wf(r)
    ensures r.next == w.next + |objs| && r.trauma == w.trauma && r.sounds == w.sounds
  {
    if objs == [] then w
    else
      var n := |objs| - 1;
      assert objs[n] in objs;
      Entities.Spawn(SpawnAll(w, types, objs[..n]), types[objs[n].typeName], ObjectPosition(objs[n]))
  }

  /** The spawn loop touches no entity that existed before it and creates only the new ones. */
  lemma {:induction false} SpawnAllKeepsExisting(w: World, types: map<string, Entities.Definition>, objs: seq<MapObject>)
    requires Wf(w)
    requires forall o :: o in objs ==> o.typeName in types
    ensures var r := SpawnAll(w, types, objs);
      && (forall e :: e in w.entries ==> e in r.entries && r.entries[e] == w.entries[e])
      && (forall e :: e in r.entries && e !in w.entries ==> w.next <= e < w.next + |objs|)
  {
    if objs != [] {
      var n := |objs| - 1;
      assert forall o :: o in objs[..n] ==> o in objs;
      SpawnAllKeepsExisting(w, types, objs[..n]);
      var v := SpawnAll(w, types, objs[..n]);
      assert objs[n] in objs;
      var r := Entities.Spawn(v, types[objs[n].typeName], ObjectPosition(objs[n]));
      assert r == SpawnAll(w, types, objs);
      forall e | e in r.entries && e !in w.entries
        ensures w.next <= e < w.next + |objs|
      {
        assert e in v.entries.Keys + {v.next};
      }
    }
  }

  /** Object `k` becomes entity `w.next + k`, with its archetype's components at the object's position. */
  lemma {:induction false} SpawnAllCreates(w: World, types: map<string, Entities.Definition>, objs: seq<MapObject>, k: nat)
    requires Wf(w)
    requires forall o :: o in objs ==> o.typeName in types
    requires k < |objs|
    ensures var r := SpawnAll(w, types, objs);
      && w.next + k in r.entries
      && r.entries[w.next + k] == Entities.Spawned(types[objs[k].typeName], ObjectPosition(objs[k]))
  {
    var n := |objs| - 1;
    assert forall o :: o in objs[..n] ==> o in objs;
    var v := SpawnAll(w, types, objs[..n]);
    if k < n {
      SpawnAllCreates(w, types, objs[..n], k);
      assert objs[..n][k] == objs[k];
    }
  }

  // ---------------------------------------------------------------------------
  // The map in memory

  /** A layer of the map: its kind, its size in tiles and its row-major tile vector. */
  class MapLayer {
    const kind: LayerType
    const width: int
    const height: int
    const tiles: array<Tile>

    ghost predicate Valid()
    {
      width >= 0 && height >= 0 && tiles.Length == width * height
    }

    /**
     * This layer is what the constructor makes of the file layer `f`: an image
     * layer has no tiles; a tile layer has the file's size, and each position
     * holds the last non-null tile written there, `EmptyTile` elsewhere.
     */
    ghost predicate Models(f: FileLayer)
      reads tiles
    {
      && kind == f.kind
      && (f.kind == ImageLayer ==> width == 0 && height == 0)
      && (f.kind == TileLayer ==>
            && width == f.width && height == f.height
            && forall i :: 0 <= i < tiles.Length ==> tiles[i] == Painted(f.tileData, f.width, i))
    }

    /**
     * `MapLayer(filename, layer)` without textures, tint, parallax, offsets and
     * drawing rectangles: the tile vector is sized `width * height`, filled with
     * `EmptyTile`, then every non-null entry is written at its coordinate's position.
     */
    constructor (f: FileLayer)
      requires Kept(f) && WellFormed(f)
      ensures Valid() && Models(f)
      ensures fresh(tiles)
    {
      kind := f.kind;
      if f.kind == ImageLayer {
        width, height := 0, 0;
        tiles := new Tile[0];
      } else {
        width, height := f.width, f.height;
        MulMonotone(0, f.height, f.width);
        var a := new Tile[f.width * f.height](_ => EmptyTile);
        var k := 0;
        while k < |f.tileData|
          invariant 0 <= k <= |f.tileData|
          invariant forall i :: 0 <= i < a.Length ==> a[i] == Painted(f.tileData[..k], f.width, i)
        {
          var entry := f.tileData[k];
          if entry.gid.Some? {
            IndexInRange(f.width, f.height, entry.coord);
            a[TileIndex(f.width, entry.coord)] := entry.gid.value;
          }
          assert f.tileData[..k + 1][..k] == f.tileData[..k];
          k := k + 1;
        }
        assert f.tileData[..k] == f.tileData;
        tiles := a;
      }
    }

    /** The getter: the tile stored for an in-bounds coordinate, read inside the vector. */
    function Get(t: TileCoord): (r: Tile)
      reads tiles
      requires Valid() && InBounds(t, width, height)
      ensures 0 <= TileIndex(width, t) < tiles.Length && r == tiles[TileIndex(width, t)]
    {
      IndexInRange(width, height, t);
      tiles[TileIndex(width, t)]
    }
  }

  /**
   * The map: its tile size, its kept layers, the `main_layer` position, and the
   * size in tiles taken from `layers[main_layer]`.
   */
  class Tilemap {
    const tileSize: int
    const layers: seq<MapLayer>
    const mainLayer: nat
    const width: int
    const height: int

    /** The tile vectors of all layers: what reading tiles depends on. */
    function Arrays(): set<array<Tile>>
    {
      set l | l in layers :: l.tiles
    }

    ghost predicate Valid()
    {
      && tileSize > 0
      && (forall l :: l in layers ==> l.Valid())
      && (layers == [] ==> width == 0 && height == 0)
      && (layers != [] ==>
            mainLayer < |layers| && width == layers[mainLayer].width && height == layers[mainLayer].height)
    }

    /** `tile_in_map`. */
    predicate InMap(t: TileCoord)
    {
      InBounds(t, width, height)
    }

    /**
     * `operator()(t)`: outside the map the empty tile, without reading any layer;
     * inside, the main layer's tile at `t`.
     */
    function Lookup(t: TileCoord): (r: Tile)
      reads Arrays()
      requires Valid()
      ensures !InMap(t) ==> r == EmptyTile
      ensures InMap(t) ==> layers != [] && r == layers[mainLayer].Get(t)
    {
      if !InMap(t) then EmptyTile
      else
        assert layers[mainLayer] in layers;
        layers[mainLayer].Get(t)
    }

    /**
     * When the main layer was built from the tile layer `f`, looking up the
     * coordinate of any of `f`'s non-null entries gives that entry's tile.
     */
    lemma LookupReadsFileTile(f: FileLayer, k: nat)
      requires Valid() && layers != [] && f.kind == TileLayer && layers[mainLayer].Models(f)
      requires forall j :: 0 <= j < |f.tileData| ==> InBounds(f.tileData[j].coord, f.width, f.height)
      requires forall i, j :: 0 <= i < j < |f.tileData| ==> f.tileData[i].coord != f.tileData[j].coord
      requires k < |f.tileData| && f.tileData[k].gid.Some?
      ensures Lookup(f.tileData[k].coord) == f.tileData[k].gid.value
    {
      var t := f.tileData[k].coord;
      assert InMap(t);
      PaintedReadsBack(f.tileData, f.width, f.height, k);
    }

    /**
     * `Tilemap(filename)` over an already-parsed file: on a failed parse nothing
     * is built and nothing spawned. Otherwise the tile and image layers are kept
     * in file order, `main_layer` is the unfiltered position of the last "Main"
     * layer, the size comes from `layers[main_layer]`, and when the "Objects"
     * layer is an object group one entity is spawned per object, in order.
     * The source indexes `layers[main_layer]` and dereferences the "Objects"
     * layer unchecked, so a parsed file must make both valid.
     */
    constructor (status: ParseStatus, fileLayers: seq<FileLayer>, tileSize: int, reg: Registry, catalog: Entities.Catalog)
      requires tileSize > 0 && reg.Valid()
      requires forall l :: l in fileLayers ==> WellFormed(l)
      requires status == Parsed ==> MainIndex(fileLayers) < |KeptLayers(fileLayers)|
      requires status == Parsed ==> FirstNamed(fileLayers, "Objects").Some?
      requires status == Parsed ==>
        var objects := fileLayers[FirstNamed(fileLayers, "Objects").value];
        objects.kind == ObjectGroup ==> forall o :: o in objects.objects ==> o.typeName in catalog.types
      modifies reg
      ensures Valid() && reg.Valid() && this.tileSize == tileSize
      ensures status == ParseFailed ==>
        layers == [] && mainLayer == 0 && width == 0 && height == 0 && reg.State() == old(reg.State())
      ensures status == Parsed ==>
        && |layers| == |KeptLayers(fileLayers)|
        && (forall k :: 0 <= k < |layers| ==> layers[k].Models(KeptLayers(fileLayers)[k]))
        && mainLayer == MainIndex(fileLayers)
      ensures status == Parsed ==>
        var objects := fileLayers[FirstNamed(fileLayers, "Objects").value];
        reg.State() == if objects.kind == ObjectGroup
                       then SpawnAll(old(reg.State()), catalog.types, objects.objects)
                       else old(reg.State())
    {
      this.tileSize := tileSize;
      if status == ParseFailed {
        layers, mainLayer, width, height := [], 0, 0, 0;
      } else {
        var ls, main := BuildLayers(fileLayers);
        layers, mainLayer := ls, main;
        width, height := ls[main].width, ls[main].height;
      }
      new;
      if status == Parsed {
        var objects := fileLayers[FirstNamed(fileLayers, "Objects").value];
        if objects.kind == ObjectGroup {
          SpawnObjects(reg, catalog, objects.objects);
        }
      }
    }
  }

  /** Layer `k` is a valid layer built from file layer `kept[k]`, for every `k`. */
  ghost predicate LayersModel(ls: seq<MapLayer>, kept: seq<FileLayer>)
    reads set l | l in ls :: l.tiles
  {
    |ls| == |kept| && forall k :: 0 <= k < |ls| ==> ls[k].Valid() && ls[k].Models(kept[k])
  }

  lemma LayersModelAppend(ls: seq<MapLayer>, kept: seq<FileLayer>, l: MapLayer, f: FileLayer)
    requires LayersModel(ls, kept) && l.Valid() && l.Models(f)
    ensures LayersModel(ls + [l], kept + [f])
  {
    assert forall k :: 0 <= k < |ls| ==> (ls + [l])[k] == ls[k] && (kept + [f])[k] == kept[k];
  }

  /** What one more file layer does to the kept layers and to the Main position of a prefix. */
  lemma PrefixStep(fileLayers: seq<FileLayer>, i: nat)
    requires i < |fileLayers|
    ensures KeptLayers(fileLayers[..i + 1]) == KeptLayers(fileLayers[..i]) + if Kept(fileLayers[i]) then [fileLayers[i]] else []
    ensures MainIndex(fileLayers[..i + 1]) == if IsMainLayer(fileLayers[i]) then i else MainIndex(fileLayers[..i])
  {
    assert fileLayers[..i + 1] == fileLayers[..i] + [fileLayers[i]];
    MainIndexStep(fileLayers[..i], fileLayers[i]);
    KeptLayersStep(fileLayers[..i], fileLayers[i]);
  }

  /**
   * The layer loop of `Tilemap(filename)`: one new layer per kept file layer,
   * in file order, and the position of the last kept "Main" layer.
   */
  method BuildLayers(fileLayers: seq<FileLayer>) returns (ls: seq<MapLayer>, main: nat)
    requires forall l :: l in fileLayers ==> WellFormed(l)
    ensures |ls| == |KeptLayers(fileLayers)|
    ensures forall k :: 0 <= k < |ls| ==> ls[k].Valid() && ls[k].Models(KeptLayers(fileLayers)[k])
    ensures main == MainIndex(fileLayers)
  {
    ls, main := [], 0;
    ghost var kept: seq<FileLayer> := [];
    var i := 0;
    while i < |fileLayers|
      invariant 0 <= i <= |fileLayers|
      invariant kept == KeptLayers(fileLayers[..i]) && LayersModel(ls, kept)
      invariant main == MainIndex(fileLayers[..i])
    {
      var f := fileLayers[i];
      PrefixStep(fileLayers, i);
      if Kept(f) {
        var l := new MapLayer(f);
        LayersModelAppend(ls, kept, l, f);
        ls, kept := ls + [l], kept + [f];
        if f.name == "Main" {
          main := i;
        }
      }
      i := i + 1;
    }
    assert fileLayers[..i] == fileLayers;
    assert LayersModel(ls, KeptLayers(fileLayers));
  }

  /** The object loop of `Tilemap(filename)`: `spawn_entity` once per object, in order. */
  method SpawnObjects(reg: Registry, catalog: Entities.Catalog, objs: seq<MapObject>)
    requires reg.Valid()
    requires forall o :: o in objs ==> o.typeName in catalog.types
    modifies reg
    ensures reg.Valid()
    ensures reg.State() == SpawnAll(old(reg.State()), catalog.types, objs)
  {
    var k := 0;
    while k < |objs|
      invariant 0 <= k <= |objs|
      invariant reg.Valid()
      invariant reg.State() == SpawnAll(old(reg.State()), catalog.types, objs[..k])
    {
      var o := objs[k];
      assert objs[..k + 1][..k] == objs[..k];
      Entities.SpawnEntity(reg, catalog, o.typeName, ObjectPosition(o), 0);
      k := k + 1;
    }
    assert objs[..k] == objs;
  }
}
