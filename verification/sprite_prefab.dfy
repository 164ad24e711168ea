/** The sprite prefabs of `amethyst_rendy::sprite::prefab` and their two-phase
    protocol: `load_sub_assets` (phase 1) resolves sheets and references
    against the registry, `add_to_entity` (phase 2) writes components.

    External services are parameters: texture loading is an oracle function,
    `Loader::load_from_data` appends to an asset store and returns the new
    position as a fresh handle, and component storages are maps. */
module SpritePrefab {
  import opened Results
  import opened SheetRegistry

  type Entity = nat
  type TextureId = nat

  /** The texture of a sheet definition; only the texture oracle looks inside. */
  datatype TexturePrefab = TexturePrefab(source: string)

  /** A grid or list block of sprite positions, kept as declared (building
      the sprite regions is not part of this model). */
  datatype Sprites = Sprites(layout: string)

  /** The sprite sheet asset handed to the loader. */
  datatype SpriteSheet = SpriteSheet(texture: TextureId, sprites: seq<Sprites>)

  /** The sprite sheet asset storage; a handle is a position in `sheets`. */
  datatype Assets = Assets(sheets: seq<SpriteSheet>)

  /** The texture sub-asset loader: a texture id, or the loader's error. */
  type TextureLoader = TexturePrefab -> Result<TextureId, string>

  datatype Error =
    | TextureFailed(reason: string)
    | SheetNotFound(reference: SheetReference)
    | HandleNotInitialized(sheet: Option<SheetReference>, spriteNumber: nat)
    | EntityNotAlive(entity: Entity)

  // ---------------------------------------------------------------------
  // External services

  /** `Loader::load_from_data`: stores the sheet and returns a handle that
      no earlier sheet had. */
  function LoadFromData(assets: Assets, sheet: SpriteSheet): (r: (SheetHandle, Assets))
    ensures |assets.sheets| <= r.0 < |r.1.sheets| == |assets.sheets| + 1
    ensures r.1.sheets[r.0] == sheet
    ensures r.1.sheets[..|assets.sheets|] == assets.sheets
  {
    (|assets.sheets|, Assets(assets.sheets + [sheet]))
  }

  /** A component storage (`WriteStorage<C>`): the live entities and the
      component attached to each entity that has one. */
  datatype Storage<C> = Storage(live: set<Entity>, components: map<Entity, C>)

  /** `WriteStorage::insert`: fails on an entity that is not alive,
      otherwise overwrites the entity's component. */
  function Insert<C>(s: Storage<C>, e: Entity, c: C): (r: Result<Storage<C>, Error>)
    ensures r.Ok? <==> e in s.live
    ensures r.Err? ==> r.error == EntityNotAlive(e)
    ensures r.Ok? ==> r.value.live == s.live && r.value.components == s.components[e := c]
  {
    if e in s.live then Ok(Storage(s.live, s.components[e := c])) else Err(EntityNotAlive(e))
  }

  // ---------------------------------------------------------------------
  // SpriteSheetPrefab

  /** A sheet prefab: still a definition, or resolved to its registry entry. */
  datatype SheetPrefab =
    | Handle(entry: SheetEntry)
    | Sheet(texture: TexturePrefab, sprites: seq<Sprites>, name: Option<string>)

  /** Result of phase 1 on a sheet: the new prefab value, the asset store,
      and whether anything was loaded. */
  datatype SheetLoaded = SheetLoaded(prefab: SheetPrefab, assets: Assets, loaded: bool)

  /** `SpriteSheetPrefab::load_sub_assets`. */
  function LoadSheet(p: SheetPrefab, assets: Assets, loadTexture: TextureLoader)
    : (r: Result<SheetLoaded, Error>)
    ensures p.Handle? ==> r == Ok(SheetLoaded(p, assets, false))
    ensures p.Sheet? && loadTexture(p.texture).Err? ==>
              r == Err(TextureFailed(loadTexture(p.texture).error))
    ensures p.Sheet? && loadTexture(p.texture).Ok? ==>
              && r.Ok? && r.value.loaded
              && r.value.prefab.Handle?
              && r.value.prefab.entry.name == p.name
              && |r.value.assets.sheets| == |assets.sheets| + 1
              && |assets.sheets| <= r.value.prefab.entry.handle < |r.value.assets.sheets|
              && r.value.assets.sheets[..|assets.sheets|] == assets.sheets
              && r.value.assets.sheets[r.value.prefab.entry.handle]
                 == SpriteSheet(loadTexture(p.texture).value, p.sprites)
  {
    match p
    case Handle(_) => Ok(SheetLoaded(p, assets, false))
    case Sheet(texture, sprites, name) =>
      match loadTexture(texture)
      case Err(reason) => Err(TextureFailed(reason))
      case Ok(tex) =>
        var (h, assets') := LoadFromData(assets, SpriteSheet(tex, sprites));
        Ok(SheetLoaded(Handle(SheetEntry(name, h)), assets', true))
  }

  /** `SpriteSheetPrefab::add_to_entity`: the resolved entry; calling it on
      an unresolved definition is unreachable in the source. */
  function SheetAddToEntity(p: SheetPrefab): (r: SheetEntry)
    requires p.Handle?
    ensures Handle(r) == p
  {
    p.entry
  }

  /** Load followed by add yields the entry that load produced: the
      declared name and a fresh handle under which the loader stored the
      sheet built from the declared texture and sprites. */
  lemma LoadThenAddSheet(p: SheetPrefab, assets: Assets, loadTexture: TextureLoader)
    requires p.Sheet? && loadTexture(p.texture).Ok?
    ensures LoadSheet(p, assets, loadTexture).Ok?
    ensures var l := LoadSheet(p, assets, loadTexture).value;
            var e := SheetAddToEntity(l.prefab);
            && e.name == p.name
            && |assets.sheets| <= e.handle < |l.assets.sheets|
            && l.assets.sheets[e.handle] == SpriteSheet(loadTexture(p.texture).value, p.sprites)
  {
  }

  /** A sheet changes state at most once: loading an already loaded sheet
      reports nothing loaded and changes nothing. */
  lemma LoadSheetOnce(p: SheetPrefab, assets: Assets, loadTexture: TextureLoader)
    requires LoadSheet(p, assets, loadTexture).Ok?
    ensures var l := LoadSheet(p, assets, loadTexture).value;
            LoadSheet(l.prefab, l.assets, loadTexture) == Ok(SheetLoaded(l.prefab, l.assets, false))
  {
  }

  // ---------------------------------------------------------------------
  // SpriteRenderPrefab

  /** The `SpriteRender` component. */
  datatype SpriteRender = SpriteRender(spriteSheet: SheetHandle, spriteNumber: nat)

  /** A render prefab: the declared reference and sprite number, and the
      handle filled in by phase 1. */
  datatype RenderPrefab = RenderPrefab(
    sheet: Option<SheetReference>, spriteNumber: nat, handle: Option<SheetHandle>)

  /** Result of phase 1 on a render prefab: the new prefab value and whether
      anything was loaded. */
  datatype RenderLoaded = RenderLoaded(prefab: RenderPrefab, loaded: bool)

  /** `SpriteRenderPrefab::load_sub_assets`; the source unwraps `sheet`. */
  function LoadRender(p: RenderPrefab, reg: Registry): (r: Result<RenderLoaded, Error>)
    requires p.sheet.Some?
    ensures r.Ok? <==> Get(reg, p.sheet.value).Some?
    ensures r.Ok? ==> r.value == RenderLoaded(p.(handle := Get(reg, p.sheet.value)), false)
    ensures r.Err? ==> r.error == SheetNotFound(p.sheet.value)
  {
    match Get(reg, p.sheet.value)
    case Some(h) => Ok(RenderLoaded(p.(handle := Some(h)), false))
    case None => Err(SheetNotFound(p.sheet.value))
  }

  /** `SpriteRenderPrefab::add_to_entity`. */
  function RenderAddToEntity(p: RenderPrefab, e: Entity, s: Storage<SpriteRender>)
    : (r: Result<Storage<SpriteRender>, Error>)
    ensures p.handle.None? ==> r == Err(HandleNotInitialized(p.sheet, p.spriteNumber))
    ensures p.handle.Some? && e !in s.live ==> r == Err(EntityNotAlive(e))
    ensures p.handle.Some? && e in s.live ==>
              && r.Ok? && r.value.live == s.live
              && e in r.value.components
              && r.value.components[e] == SpriteRender(p.handle.value, p.spriteNumber)
              && r.value.components.Keys == s.components.Keys + {e}
              && forall x :: x in s.components && x != e ==> r.value.components[x] == s.components[x]
  {
    match p.handle
    case None => Err(HandleNotInitialized(p.sheet, p.spriteNumber))
    case Some(h) => Insert(s, e, SpriteRender(h, p.spriteNumber))
  }

  /** Resolving a reference that the registry holds and then attaching
      gives the entity a component with the registry's handle and the
      declared sprite number. */
  lemma LoadThenAddRender(p: RenderPrefab, reg: Registry, e: Entity, s: Storage<SpriteRender>)
    requires p.sheet.Some? && Get(reg, p.sheet.value).Some? && e in s.live
    ensures LoadRender(p, reg).Ok?
    ensures var q := LoadRender(p, reg).value.prefab;
            && RenderAddToEntity(q, e, s).Ok?
            && RenderAddToEntity(q, e, s).value.components[e]
               == SpriteRender(Get(reg, p.sheet.value).value, p.spriteNumber)
  {
  }

  // ---------------------------------------------------------------------
  // SpriteScenePrefab

  /** A `Transform` component; its contents are never inspected here. */
  datatype Transform = Transform(matrix: seq<int>)

  datatype ScenePrefab = ScenePrefab(
    sheet: Option<SheetPrefab>, render: Option<RenderPrefab>, transform: Option<Transform>)

  /** Every present render prefab names a sheet (the source unwraps it). */
  predicate RenderNamesSheet(s: ScenePrefab) {
    s.render.Some? ==> s.render.value.sheet.Some?
  }

  /** Result of phase 1 on a scene: the state after the call and its outcome.
      On an error the state keeps the changes made before the error. */
  datatype SceneLoaded = SceneLoaded(
    scene: ScenePrefab, registry: Registry, assets: Assets, outcome: Result<bool, Error>)

  /** The render half of scene loading, against the (possibly grown) registry. */
  function LoadSceneRender(s: ScenePrefab, reg: Registry, assets: Assets, ret: bool): SceneLoaded
    requires RenderNamesSheet(s)
  {
    match s.render
    case None => SceneLoaded(s, reg, assets, Ok(ret))
    case Some(render) =>
      match LoadRender(render, reg)
      case Err(e) => SceneLoaded(s, reg, assets, Err(e))
      case Ok(l) => SceneLoaded(s.(render := Some(l.prefab)), reg, assets, Ok(ret))
  }

  /** `SpriteScenePrefab::load_sub_assets`: load the sheet, push its entry
      (on every call, also when it was loaded before), then resolve the
      render against the grown registry. */
  function LoadScene(s: ScenePrefab, reg: Registry, assets: Assets, loadTexture: TextureLoader)
    : (r: SceneLoaded)
    requires RenderNamesSheet(s)
    // the transform is never touched in phase 1
    ensures r.scene.transform == s.transform
    // a failing sheet load changes nothing
    ensures s.sheet.Some? && LoadSheet(s.sheet.value, assets, loadTexture).Err? ==>
              r == SceneLoaded(s, reg, assets, Err(LoadSheet(s.sheet.value, assets, loadTexture).error))
    // otherwise the sheet becomes what `LoadSheet` made of it and that
    // entry is appended exactly once
    ensures s.sheet.Some? && LoadSheet(s.sheet.value, assets, loadTexture).Ok? ==>
              var l := LoadSheet(s.sheet.value, assets, loadTexture).value;
              && r.scene.sheet == Some(l.prefab)
              && l.prefab.Handle?
              && r.registry == reg + [SheetAddToEntity(l.prefab)]
              && r.assets == l.assets
    ensures s.sheet.None? ==> r.scene.sheet.None? && r.registry == reg && r.assets == assets
    // the call succeeds exactly when the sheet loads and the render's
    // reference resolves against the registry after the append
    ensures r.outcome.Ok? <==>
              && (s.sheet.Some? ==> LoadSheet(s.sheet.value, assets, loadTexture).Ok?)
              && (s.render.Some? ==> Get(r.registry, s.render.value.sheet.value).Some?)
    // the render is resolved against the registry after the append
    ensures r.outcome.Ok? && s.render.Some? ==>
              && r.scene.render.Some?
              && r.scene.render.value == s.render.value.(handle := Get(r.registry, s.render.value.sheet.value))
              && r.scene.render.value.handle.Some?
    // no render is created, and a render miss passes the lookup's error on
    // with the render left as declared
    ensures s.render.None? ==> r.scene.render.None?
    ensures r.outcome.Err? && !(s.sheet.Some? && LoadSheet(s.sheet.value, assets, loadTexture).Err?) ==>
              && s.render.Some?
              && r.outcome.error == SheetNotFound(s.render.value.sheet.value)
              && r.scene.render == s.render
    ensures r.outcome.Err? && r.outcome.error.SheetNotFound? ==>
              && s.render.Some?
              && Get(r.registry, s.render.value.sheet.value).None?
              && r.scene.render == s.render
    // the result reports whether the sheet was loaded by this call
    ensures r.outcome.Ok? ==> (r.outcome.value <==> s.sheet.Some? && s.sheet.value.Sheet?)
  {
    match s.sheet
    case None => LoadSceneRender(s, reg, assets, false)
    case Some(sheet) =>
      match LoadSheet(sheet, assets, loadTexture)
      case Err(e) => SceneLoaded(s, reg, assets, Err(e))
      case Ok(l) =>
        LoadSceneRender(s.(sheet := Some(l.prefab)), reg + [l.prefab.entry], l.assets, l.loaded)
  }

  /** A scene whose render refers to position `|reg|` resolves it to the
      scene's own sheet. */
  lemma SceneRenderFindsOwnSheetByIndex(
    s: ScenePrefab, reg: Registry, assets: Assets, loadTexture: TextureLoader)
    requires s.sheet.Some? && LoadSheet(s.sheet.value, assets, loadTexture).Ok?
    requires s.render.Some? && s.render.value.sheet == Some(Index(|reg|))
    ensures var r := LoadScene(s, reg, assets, loadTexture);
            && r.outcome.Ok?
            && r.scene.render.value.handle == Some(r.scene.sheet.value.entry.handle)
  {
    var r := LoadScene(s, reg, assets, loadTexture);
    GetAppendedByIndex(reg, r.scene.sheet.value.entry);
  }

  /** A scene whose render refers to its own sheet's name resolves it to
      that sheet, provided no earlier registry entry has the same name. */
  lemma SceneRenderFindsOwnSheetByName(
    s: ScenePrefab, reg: Registry, assets: Assets, loadTexture: TextureLoader, name: string)
    requires s.sheet.Some? && LoadSheet(s.sheet.value, assets, loadTexture).Ok?
    requires s.sheet.value.Sheet? && s.sheet.value.name == Some(name)
    requires forall j :: 0 <= j < |reg| ==> reg[j].name != Some(name)
    requires s.render.Some? && s.render.value.sheet == Some(Name(name))
    ensures var r := LoadScene(s, reg, assets, loadTexture);
            && r.outcome.Ok?
            && r.scene.render.value.handle == Some(r.scene.sheet.value.entry.handle)
  {
    var r := LoadScene(s, reg, assets, loadTexture);
    GetAppendedByName(reg, r.scene.sheet.value.entry, name);
  }

  /** Loading a scene a second time reports nothing new but pushes the
      sheet's entry again: the registry then holds it twice, and positions
      behind it shift. */
  lemma SceneLoadTwicePushesTwice(
    s: ScenePrefab, reg: Registry, assets: Assets, loadTexture: TextureLoader)
    requires RenderNamesSheet(s) && s.sheet.Some?
    requires LoadScene(s, reg, assets, loadTexture).outcome.Ok?
    ensures var r1 := LoadScene(s, reg, assets, loadTexture);
            var r2 := LoadScene(r1.scene, r1.registry, r1.assets, loadTexture);
            && r2.outcome.Ok? && !r2.outcome.value
            && r2.scene.sheet == r1.scene.sheet
            && r2.assets == r1.assets
            && r2.registry == reg + [r1.scene.sheet.value.entry, r1.scene.sheet.value.entry]
  {
    var r1 := LoadScene(s, reg, assets, loadTexture);
    if s.render.Some? {
      GetStableUnderAppend(r1.registry, r1.scene.sheet.value.entry, s.render.value.sheet.value);
    }
  }

  /** The component storages phase 2 writes to. */
  datatype SceneStorages = SceneStorages(
    renders: Storage<SpriteRender>, transforms: Storage<Transform>)

  /** Result of phase 2 on a scene: the storages after the call and its
      outcome. A transform failure keeps the render already inserted. */
  datatype SceneAdded = SceneAdded(storages: SceneStorages, outcome: Result<(), Error>)

  /** The transform half of scene attachment. */
  function AddSceneTransform(s: ScenePrefab, e: Entity, st: SceneStorages): SceneAdded {
    match s.transform
    case None => SceneAdded(st, Ok(()))
    case Some(t) =>
      match Insert(st.transforms, e, t)
      case Err(err) => SceneAdded(st, Err(err))
      case Ok(ts) => SceneAdded(st.(transforms := ts), Ok(()))
  }

  /** `SpriteScenePrefab::add_to_entity`: the render first, then the
      transform; absent parts are skipped and the first error returns. */
  function SceneAddToEntity(s: ScenePrefab, e: Entity, st: SceneStorages): (r: SceneAdded)
    // a render error returns before the transform is touched
    ensures s.render.Some? && RenderAddToEntity(s.render.value, e, st.renders).Err? ==>
              r == SceneAdded(st, Err(RenderAddToEntity(s.render.value, e, st.renders).error))
    // an absent part leaves its storage alone
    ensures s.render.None? ==> r.storages.renders == st.renders
    ensures s.transform.None? ==> r.storages.transforms == st.transforms
    // a present render that succeeds is in place whatever the transform does
    ensures s.render.Some? && RenderAddToEntity(s.render.value, e, st.renders).Ok? ==>
              r.storages.renders == RenderAddToEntity(s.render.value, e, st.renders).value
    // a transform on a live entity is written when the render did not fail
    ensures s.transform.Some? && r.outcome.Ok? ==>
              r.storages.transforms.components == st.transforms.components[e := s.transform.value]
    // the call succeeds exactly when every present part can be written
    ensures r.outcome.Ok? <==>
              && (s.render.Some? ==> RenderAddToEntity(s.render.value, e, st.renders).Ok?)
              && (s.transform.Some? ==> e in st.transforms.live)
    // a transform on a dead entity fails once the render (if any) is in place
    ensures (s.render.Some? ==> RenderAddToEntity(s.render.value, e, st.renders).Ok?) &&
            s.transform.Some? && e !in st.transforms.live ==>
              r.outcome == Err(EntityNotAlive(e))
    // on any error the transforms are untouched; no entity is created or removed
    ensures r.outcome.Err? ==> r.storages.transforms == st.transforms
    ensures r.storages.renders.live == st.renders.live
    ensures r.storages.transforms.live == st.transforms.live
  {
    match s.render
    case None => AddSceneTransform(s, e, st)
    case Some(render) =>
      match RenderAddToEntity(render, e, st.renders)
      case Err(err) => SceneAdded(st, Err(err))
      case Ok(rs) => AddSceneTransform(s, e, st.(renders := rs))
  }

  /** The whole protocol on a scene whose render refers to its own sheet by
      position: after phase 1 and phase 2 the entity's sprite render points
      at the handle under which the loader stored that sheet, built from the
      declared texture and sprites. */
  lemma SceneLoadThenAdd(
    s: ScenePrefab, reg: Registry, assets: Assets, loadTexture: TextureLoader,
    e: Entity, st: SceneStorages)
    requires s.sheet.Some? && s.sheet.value.Sheet? && loadTexture(s.sheet.value.texture).Ok?
    requires s.render.Some? && s.render.value.sheet == Some(Index(|reg|))
    requires e in st.renders.live
    ensures var r := LoadScene(s, reg, assets, loadTexture);
            var a := SceneAddToEntity(r.scene, e, st);
            && r.outcome == Ok(true)
            && e in a.storages.renders.components
            && var h := a.storages.renders.components[e].spriteSheet;
               && a.storages.renders.components[e].spriteNumber == s.render.value.spriteNumber
               && h < |r.assets.sheets|
               && r.assets.sheets[h]
                  == SpriteSheet(loadTexture(s.sheet.value.texture).value, s.sheet.value.sprites)
  {
    SceneRenderFindsOwnSheetByIndex(s, reg, assets, loadTexture);
  }
}
