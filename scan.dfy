/**
 * What a scan does to the audit table, as values: the facts the engine reports
 * for each texture asset, the columns computed from them, and the fold of all
 * scanned assets into the table keyed by asset path.
 */
module Scan {
  import opened Wrappers
  import opened CSharp
  import opened Dimensions
  import opened Records

  /** A sprite sub-asset, by identity. */
  datatype SpriteRef = SpriteRef(id: nat)

  /** A sprite atlas asset, by identity. */
  datatype SpriteAtlas = SpriteAtlas(id: nat)

  /** The importer's texture type; only `Sprite` matters to the audit. */
  datatype TextureImporterType =
    | Default | NormalMap | GUI | Sprite | Cursor | Cookie | Lightmap
    | DirectionalLightmap | Shadowmask | SingleChannel

  /** The loaded `Texture2D`: its name and size. */
  datatype TextureInfo = TextureInfo(name: string, width: Int32, height: Int32)

  /** Per-platform compression settings: whether they override the default, and the format. */
  datatype PlatformSettings = PlatformSettings(overridden: bool, format: string)

  /** The `TextureImporter` of an asset: mipmaps, type, default and "Standalone" settings. */
  datatype ImporterInfo = ImporterInfo(
    mipmapEnabled: bool,
    textureType: TextureImporterType,
    defaultSettings: PlatformSettings,
    standaloneSettings: PlatformSettings)

  /**
   * What the asset database answers for one GUID found by the texture search:
   * the path, the texture and importer (`None` when the engine returns null),
   * the main sprite at the path and the sprites among its sub-assets.
   */
  datatype AssetFacts = AssetFacts(
    guid: string,
    path: string,
    texture: Option<TextureInfo>,
    importer: Option<ImporterInfo>,
    mainSprite: Option<SpriteRef>,
    subSprites: seq<SpriteRef>)

  /**
   * What is fixed for the whole scan: the loaded sprite atlases, the engine's
   * `SpriteAtlas.CanBindTo` relation, and the GUIDs that have an entry in the
   * addressables settings (`None` when there are no settings).
   */
  datatype ScanEnv = ScanEnv(
    atlases: seq<SpriteAtlas>,
    canBindTo: (SpriteAtlas, SpriteRef) -> bool,
    addressables: Option<set<string>>)

  /** An asset takes part in the scan only when both its texture and its importer load. */
  predicate Scannable(a: AssetFacts) {
    a.texture.Some? && a.importer.Some?
  }

  /** The sprites checked against the atlases: the main sprite, if any, then the sprite sub-assets. */
  function SpritesOf(a: AssetFacts): (sprites: seq<SpriteRef>)
    ensures forall s :: s in sprites <==> a.mainSprite == Some(s) || s in a.subSprites
    ensures |sprites| == |a.subSprites| + (if a.mainSprite.Some? then 1 else 0)
  {
    (if a.mainSprite.Some? then [a.mainSprite.value] else []) + a.subSprites
  }

  /** `atlases.Any(atlas => atlas.CanBindTo(sprite))`. */
  function BindsToAny(atlases: seq<SpriteAtlas>, canBindTo: (SpriteAtlas, SpriteRef) -> bool, sprite: SpriteRef): (r: bool)
    ensures r <==> exists atlas :: atlas in atlases && canBindTo(atlas, sprite)
  {
    if atlases == [] then false
    else canBindTo(atlases[0], sprite) || BindsToAny(atlases[1..], canBindTo, sprite)
  }

  /** `sprites.Any(spr => spriteAtlases.Any(atlas => atlas.CanBindTo(spr)))`. */
  function AnyInAtlas(sprites: seq<SpriteRef>, atlases: seq<SpriteAtlas>, canBindTo: (SpriteAtlas, SpriteRef) -> bool): (r: bool)
    ensures r <==> exists sprite, atlas :: sprite in sprites && atlas in atlases && canBindTo(atlas, sprite)
  {
    if sprites == [] then false
    else BindsToAny(atlases, canBindTo, sprites[0]) || AnyInAtlas(sprites[1..], atlases, canBindTo)
  }

  /** The settings whose format is reported: the "Standalone" override when it is marked overridden, else the default. */
  function ChosenSettings(importer: ImporterInfo): PlatformSettings {
    if importer.standaloneSettings.overridden then importer.standaloneSettings else importer.defaultSettings
  }

  /** The asset has an entry in the addressables settings; false when there are no settings. */
  predicate Registered(guid: string, env: ScanEnv) {
    env.addressables.Some? && guid in env.addressables.value
  }

  /** The columns a scan writes for a scannable asset; `AttributesMeaning` states what each one means. */
  function AttributesOf(a: AssetFacts, tex: TextureInfo, importer: ImporterInfo, env: ScanEnv): Attributes {
    Attributes(
      importer.mipmapEnabled,
      PowerOfTwoSides(tex.width, tex.height),
      MultipleOfFour(tex.width, tex.height),
      importer.textureType == Sprite,
      AnyInAtlas(SpritesOf(a), env.atlases, env.canBindTo),
      Registered(a.guid, env),
      Resolution(tex.width, tex.height),
      ChosenSettings(importer).format)
  }

  /** What each column written by a scan says about the asset. */
  lemma AttributesMeaning(a: AssetFacts, tex: TextureInfo, importer: ImporterInfo, env: ScanEnv)
    ensures var attrs := AttributesOf(a, tex, importer, env);
      && attrs.mipmap == importer.mipmapEnabled
      && (attrs.powerOfTwo <==> IsPowerOfTwo(tex.width) && IsPowerOfTwo(tex.height))
      && (attrs.multipleOfFour <==> tex.width % 4 == 0 && tex.height % 4 == 0)
      && (attrs.isSprite <==> importer.textureType == Sprite)
      && (attrs.addressable <==> env.addressables.Some? && a.guid in env.addressables.value)
      && attrs.resolution == Resolution(tex.width, tex.height)
      && (importer.standaloneSettings.overridden ==> attrs.format == importer.standaloneSettings.format)
      && (!importer.standaloneSettings.overridden ==> attrs.format == importer.defaultSettings.format)
  {
  }

  /** The atlas column is set exactly when the main sprite or a sprite sub-asset can be bound to a loaded atlas. */
  lemma InAtlasMeaning(a: AssetFacts, tex: TextureInfo, importer: ImporterInfo, env: ScanEnv)
    ensures AttributesOf(a, tex, importer, env).inAtlas <==>
      exists sprite, atlas :: (a.mainSprite == Some(sprite) || sprite in a.subSprites) && atlas in env.atlases && env.canBindTo(atlas, sprite)
  {
    var sprites := SpritesOf(a);
    if AttributesOf(a, tex, importer, env).inAtlas {
      var sprite, atlas :| sprite in sprites && atlas in env.atlases && env.canBindTo(atlas, sprite);
      assert a.mainSprite == Some(sprite) || sprite in a.subSprites;
    }
  }

  /**
   * One iteration of the scan loop: a scannable asset reuses the row at its
   * path, or creates one named after the texture, and its columns are
   * recomputed; any other asset leaves the table as it is.
   */
  function Upsert(table: map<string, Entry>, a: AssetFacts, env: ScanEnv): (t: map<string, Entry>)
    ensures t.Keys == table.Keys + (if Scannable(a) then {a.path} else {})
    ensures forall p :: p in t && p != a.path ==> t[p] == table[p]
    ensures forall p :: p in table ==> t[p].name == table[p].name && t[p].path == table[p].path
    ensures Scannable(a) ==> t[a.path].attrs == AttributesOf(a, a.texture.value, a.importer.value, env)
    ensures Scannable(a) && a.path !in table ==> t[a.path].name == a.texture.value.name && t[a.path].path == a.path
    ensures !Scannable(a) ==> t == table
  {
    if !Scannable(a) then table
    else
      var tex := a.texture.value;
      var entry := if a.path in table then table[a.path] else Entry(tex.name, a.path, Unset);
      table[a.path := entry.(attrs := AttributesOf(a, tex, a.importer.value, env))]
  }

  /** The table after scanning `assets` in order, starting from `table`. */
  function ScanAll(table: map<string, Entry>, assets: seq<AssetFacts>, env: ScanEnv): map<string, Entry>
    decreases |assets|
  {
    if assets == [] then table
    else Upsert(ScanAll(table, assets[..|assets| - 1], env), assets[|assets| - 1], env)
  }

  /** Scanning one more asset applies `Upsert` for it to the table scanned so far. */
  lemma ScanAllNext(table: map<string, Entry>, assets: seq<AssetFacts>, env: ScanEnv, i: nat)
    requires i < |assets|
    ensures ScanAll(table, assets[..i + 1], env) == Upsert(ScanAll(table, assets[..i], env), assets[i], env)
  {
    assert assets[..i + 1][..i] == assets[..i];
  }

  /** The paths of the scannable assets in `assets`. */
  function ScannedPaths(assets: seq<AssetFacts>): set<string> {
    set a | a in assets && Scannable(a) :: a.path
  }

  /**
   * The paths a scan of `assets` adds to a table whose keys are `known`, in
   * the order in which the scan first reaches them; each is listed once.
   */
  function NewPaths(known: set<string>, assets: seq<AssetFacts>): (paths: seq<string>)
    decreases |assets|
    ensures forall p :: p in paths <==> p !in known && p in ScannedPaths(assets)
    ensures forall i, j :: 0 <= i < j < |paths| ==> paths[i] != paths[j]
  {
    if assets == [] then []
    else
      var earlier := NewPaths(known, assets[..|assets| - 1]);
      var a := assets[|assets| - 1];
      assert assets == assets[..|assets| - 1] + [a];
      if Scannable(a) && a.path !in known && a.path !in earlier then earlier + [a.path] else earlier
  }

  /**
   * The enumeration order after one more asset: when the order so far is the
   * original keys followed by the new paths of the earlier assets, appending
   * the asset's path if it is not listed yet gives the original keys followed
   * by the new paths of one more asset.
   */
  lemma OrderStep(original: seq<string>, known: set<string>, assets: seq<AssetFacts>, i: nat, order: seq<string>)
    requires i < |assets|
    requires forall p :: p in known <==> p in original
    requires order == original + NewPaths(known, assets[..i])
    ensures Scannable(assets[i]) ==>
      order + (if assets[i].path in order then [] else [assets[i].path]) == original + NewPaths(known, assets[..i + 1])
    ensures !Scannable(assets[i]) ==> order == original + NewPaths(known, assets[..i + 1])
  {
    assert assets[..i + 1][..i] == assets[..i];
  }

  /**
   * Rows are only ever added: the table afterwards holds exactly the rows it
   * held before plus one per path of a scannable asset, so skipped assets
   * create nothing and nothing is removed.
   */
  lemma {:induction false} ScanAllKeys(table: map<string, Entry>, assets: seq<AssetFacts>, env: ScanEnv)
    ensures ScanAll(table, assets, env).Keys == table.Keys + ScannedPaths(assets)
  {
    if assets != [] {
      var init, last := assets[..|assets| - 1], assets[|assets| - 1];
      ScanAllKeys(table, init, env);
      assert assets == init + [last];
      assert ScannedPaths(assets) == ScannedPaths(init) + (if Scannable(last) then {last.path} else {});
    }
  }

  /** A row that existed before the scan keeps its name and path. */
  lemma {:induction false} ScanAllKeepsIdentity(table: map<string, Entry>, assets: seq<AssetFacts>, env: ScanEnv, p: string)
    requires p in table
    ensures p in ScanAll(table, assets, env)
    ensures ScanAll(table, assets, env)[p].name == table[p].name
    ensures ScanAll(table, assets, env)[p].path == table[p].path
  {
    if assets != [] {
      ScanAllKeepsIdentity(table, assets[..|assets| - 1], env, p);
    }
  }

  /** A row whose path no scannable asset has is left exactly as it was. */
  lemma {:induction false} ScanAllUntouched(table: map<string, Entry>, assets: seq<AssetFacts>, env: ScanEnv, p: string)
    requires p in table
    requires forall a :: a in assets && Scannable(a) ==> a.path != p
    ensures p in ScanAll(table, assets, env)
    ensures ScanAll(table, assets, env)[p] == table[p]
  {
    if assets != [] {
      var init := assets[..|assets| - 1];
      assert forall a :: a in init ==> a in assets;
      ScanAllUntouched(table, init, env, p);
    }
  }

  /** The columns of a row are those computed from the last scannable asset with its path. */
  lemma {:induction false} ScanAllLatest(table: map<string, Entry>, assets: seq<AssetFacts>, env: ScanEnv, i: nat)
    requires i < |assets| && Scannable(assets[i])
    requires forall j :: i < j < |assets| && Scannable(assets[j]) ==> assets[j].path != assets[i].path
    ensures assets[i].path in ScanAll(table, assets, env)
    ensures ScanAll(table, assets, env)[assets[i].path].attrs
      == AttributesOf(assets[i], assets[i].texture.value, assets[i].importer.value, env)
  {
    var n := |assets|;
    if i < n - 1 {
      var init := assets[..n - 1];
      assert init[i] == assets[i];
      ScanAllLatest(table, init, env, i);
    }
  }

  /** A row created by the scan is named after the first scannable asset with its path. */
  lemma {:induction false} ScanAllFirstName(table: map<string, Entry>, assets: seq<AssetFacts>, env: ScanEnv, i: nat)
    requires i < |assets| && Scannable(assets[i]) && assets[i].path !in table
    requires forall j :: 0 <= j < i && Scannable(assets[j]) ==> assets[j].path != assets[i].path
    ensures assets[i].path in ScanAll(table, assets, env)
    ensures ScanAll(table, assets, env)[assets[i].path].name == assets[i].texture.value.name
    ensures ScanAll(table, assets, env)[assets[i].path].path == assets[i].path
  {
    var n := |assets|;
    var init := assets[..n - 1];
    if i == n - 1 {
      ScanAllKeys(table, init, env);
      assert assets[i].path !in ScannedPaths(init);
    } else {
      assert init[i] == assets[i];
      ScanAllFirstName(table, init, env, i);
    }
  }

  /** Every row is stored under its own path. */
  predicate KeyedByPath(table: map<string, Entry>) {
    forall p :: p in table ==> table[p].path == p
  }

  lemma {:induction false} ScanAllKeyedByPath(table: map<string, Entry>, assets: seq<AssetFacts>, env: ScanEnv)
    requires KeyedByPath(table)
    ensures KeyedByPath(ScanAll(table, assets, env))
  {
    if assets != [] {
      ScanAllKeyedByPath(table, assets[..|assets| - 1], env);
    }
  }

  /** Scanning an unchanged project a second time changes nothing. */
  lemma ScanAllIdempotent(table: map<string, Entry>, assets: seq<AssetFacts>, env: ScanEnv)
    ensures ScanAll(ScanAll(table, assets, env), assets, env) == ScanAll(table, assets, env)
  {
    var once := ScanAll(table, assets, env);
    var twice := ScanAll(once, assets, env);
    ScanAllKeys(table, assets, env);
    ScanAllKeys(once, assets, env);
    forall p | p in once
      ensures twice[p] == once[p]
    {
      ScanAllKeepsIdentity(once, assets, env, p);
      if i :| 0 <= i < |assets| && Scannable(assets[i]) && assets[i].path == p {
        var last := LastIndexOf(assets, p, i);
        ScanAllLatest(table, assets, env, last);
        ScanAllLatest(once, assets, env, last);
      } else {
        ScanAllUntouched(once, assets, env, p);
      }
    }
  }

  /** The index of the last scannable asset with path `p`, given one at index `i`. */
  function LastIndexOf(assets: seq<AssetFacts>, p: string, i: nat): (last: nat)
    requires i < |assets| && Scannable(assets[i]) && assets[i].path == p
    decreases |assets| - i
    ensures i <= last < |assets| && Scannable(assets[last]) && assets[last].path == p
    ensures forall j :: last < j < |assets| && Scannable(assets[j]) ==> assets[j].path != p
  {
    if exists j :: i < j < |assets| && Scannable(assets[j]) && assets[j].path == p then
      var j :| i < j < |assets| && Scannable(assets[j]) && assets[j].path == p;
      LastIndexOf(assets, p, j)
    else i
  }
}
