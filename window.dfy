/**
 * The editor window's state and its scan: a dictionary from asset path to a
 * mutable per-texture record, filled in place by `ScanTextures`, and the
 * grouped table drawn from it.
 */
module Window {
  import opened Wrappers
  import opened CSharp
  import opened Dimensions
  import opened Records
  import opened Scan
  import opened View

  /** The record kept for one texture; a scan overwrites its columns in place. */
  class TextureData {
    var name: string
    var path: string
    var mipmap: bool
    var powerOfTwo: bool
    var multipleOfFour: bool
    var isSprite: bool
    var inAtlas: bool
    var addressable: bool
    var resolution: Resolution
    var format: string

    /** `new TextureData { path = path, name = name }`: every other column starts out unset. */
    constructor (path: string, name: string)
      ensures Row() == Entry(name, path, Unset)
    {
      this.name := name;
      this.path := path;
      mipmap, powerOfTwo, multipleOfFour, isSprite, inAtlas, addressable := false, false, false, false, false, false;
      resolution := Resolution(0, 0);
      format := "";
    }

    /** The record's current values as a table row. */
    function Row(): Entry
      reads this
    {
      Entry(name, path, Attributes(mipmap, powerOfTwo, multipleOfFour, isSprite, inAtlas, addressable, resolution, format))
    }

    /** Rewrites every column from the asset's texture and importer; the name and path stay as they were. */
    method Refresh(a: AssetFacts, tex: TextureInfo, importer: ImporterInfo, env: ScanEnv)
      modifies this
      ensures Row() == old(Row()).(attrs := AttributesOf(a, tex, importer, env))
    {
      var columns := AttributesOf(a, tex, importer, env);
      mipmap, powerOfTwo, multipleOfFour, isSprite := columns.mipmap, columns.powerOfTwo, columns.multipleOfFour, columns.isSprite;
      inAtlas, addressable, resolution, format := columns.inAtlas, columns.addressable, columns.resolution, columns.format;
    }
  }

  /** The non-null atlases among those the atlas search loaded, in order. */
  function Loaded(found: seq<Option<SpriteAtlas>>): (atlases: seq<SpriteAtlas>)
    ensures |atlases| <= |found|
    ensures forall atlas :: atlas in atlases <==> Some(atlas) in found
  {
    if found == [] then []
    else Loaded(found[..|found| - 1]) + (if found[|found| - 1].Some? then [found[|found| - 1].value] else [])
  }

  /** Writing a key twice leaves only the second value. */
  lemma UpdateOverwrites(t: map<string, Entry>, k: string, first: Entry, second: Entry)
    ensures t[k := first][k := second] == t[k := second]
  {
  }

  /** The audit window: the table of textures keyed by asset path, the loaded atlases, and the view settings. */
  class TextureAuditTool {
    var textureDataDict: map<string, TextureData>
    /** The order in which the dictionary enumerates its keys: the order of insertion, as nothing is ever removed. */
    ghost var enumerationOrder: seq<string>
    var spriteAtlases: seq<SpriteAtlas>
    var sortOption: int
    var searchString: string

    /**
     * Each record is stored under its own path (so no record is shared by two
     * paths), and the enumeration order lists every key exactly once.
     */
    ghost predicate Valid()
      reads this, textureDataDict.Values
    {
      && (forall p :: p in textureDataDict ==> textureDataDict[p].path == p)
      && (forall i, j :: 0 <= i < j < |enumerationOrder| ==> enumerationOrder[i] != enumerationOrder[j])
      && (forall p :: p in textureDataDict <==> p in enumerationOrder)
    }

    /** The table as values: each path with its record's current row. */
    function Table(): map<string, Entry>
      reads this`textureDataDict, textureDataDict.Values
    {
      map p | p in textureDataDict :: textureDataDict[p].Row()
    }

    constructor ()
      ensures Valid()
      ensures Table() == map[] && enumerationOrder == []
      ensures spriteAtlases == [] && sortOption == 0 && searchString == ""
    {
      textureDataDict := map[];
      enumerationOrder := [];
      spriteAtlases := [];
      sortOption := 0;
      searchString := "";
    }

    /** Clears the atlas list and adds every atlas that loaded. */
    method LoadSpriteAtlases(found: seq<Option<SpriteAtlas>>)
      modifies this`spriteAtlases
      ensures spriteAtlases == Loaded(found)
    {
      spriteAtlases := [];
      for i := 0 to |found|
        invariant spriteAtlases == Loaded(found[..i])
      {
        assert found[..i + 1][..i] == found[..i];
        if found[i].Some? {
          spriteAtlases := spriteAtlases + [found[i].value];
        }
      }
      assert found[..|found|] == found;
    }

    /** The record stored at `path`, created with the given name and added to the table when there is none. */
    method RecordAt(path: string, name: string) returns (data: TextureData)
      requires Valid()
      modifies this`textureDataDict, this`enumerationOrder
      ensures Valid()
      ensures path in textureDataDict && data == textureDataDict[path]
      ensures enumerationOrder == old(enumerationOrder) + (if path in old(enumerationOrder) then [] else [path])
      ensures path in old(textureDataDict) ==> textureDataDict == old(textureDataDict)
      ensures path in old(textureDataDict) ==> Table() == old(Table())
      ensures path !in old(textureDataDict) ==> fresh(data) && textureDataDict == old(textureDataDict)[path := data]
      ensures path !in old(textureDataDict) ==> Table() == old(Table())[path := Entry(name, path, Unset)]
      ensures forall p :: p in textureDataDict ==> textureDataDict[p] in old(textureDataDict.Values) || fresh(textureDataDict[p])
    {
      if path in textureDataDict {
        data := textureDataDict[path];
      } else {
        data := new TextureData(path, name);
        textureDataDict := textureDataDict[path := data];
        enumerationOrder := enumerationOrder + [path];
        assert Table().Keys == old(Table())[path := Entry(name, path, Unset)].Keys;
      }
    }

    /** Rewrites the columns of the record at `a.path`; every other record keeps its row. */
    method RefreshAt(a: AssetFacts, env: ScanEnv)
      requires Valid() && Scannable(a) && a.path in textureDataDict
      modifies textureDataDict[a.path]
      ensures Valid()
      ensures Table() == old(Table())[a.path := old(Table())[a.path].(attrs := AttributesOf(a, a.texture.value, a.importer.value, env))]
    {
      ghost var rows := Table();
      var data := textureDataDict[a.path];
      data.Refresh(a, a.texture.value, a.importer.value, env);
      ghost var expected := rows[a.path := rows[a.path].(attrs := AttributesOf(a, a.texture.value, a.importer.value, env))];
      forall p | p in textureDataDict
        ensures Table()[p] == expected[p]
      {
        if p != a.path {
          assert textureDataDict[p] != data;
        }
      }
      assert Table().Keys == expected.Keys;
    }

    /**
     * One pass of the scan loop for an asset whose texture and importer
     * loaded: the record at its path is reused, or created and added, and its
     * columns are rewritten.
     */
    method Visit(a: AssetFacts, env: ScanEnv)
      requires Valid() && Scannable(a)
      modifies this`textureDataDict, this`enumerationOrder, textureDataDict.Values
      ensures Valid()
      ensures Table() == Upsert(old(Table()), a, env)
      ensures enumerationOrder == old(enumerationOrder) + (if a.path in old(enumerationOrder) then [] else [a.path])
      ensures forall p :: p in textureDataDict ==> textureDataDict[p] in old(textureDataDict.Values) || fresh(textureDataDict[p])
    {
      ghost var t0 := Table();
      assert a.path in t0 <==> a.path in textureDataDict;
      var data := RecordAt(a.path, a.texture.value.name);
      ghost var entry := if a.path in t0 then t0[a.path] else Entry(a.texture.value.name, a.path, Unset);
      ghost var refreshed := entry.(attrs := AttributesOf(a, a.texture.value, a.importer.value, env));
      if a.path !in t0 {
        UpdateOverwrites(t0, a.path, entry, refreshed);
      }
      RefreshAt(a, env);
      assert Table() == t0[a.path := refreshed];
    }

    /**
     * The scan loop: for each asset found by the texture search whose texture
     * and importer load, reuses or creates the record at its path and
     * rewrites its columns; assets whose texture or importer is missing are
     * skipped. The table afterwards is the fold `ScanAll` of the assets over
     * the table before, and the paths it adds are enumerated after the old
     * ones, in the order in which they were first reached.
     */
    method ScanAssets(assets: seq<AssetFacts>, env: ScanEnv)
      requires Valid()
      modifies this`textureDataDict, this`enumerationOrder, textureDataDict.Values
      ensures Valid()
      ensures Table() == ScanAll(old(Table()), assets, env)
      ensures enumerationOrder == old(enumerationOrder) + NewPaths(old(Table()).Keys, assets)
    {
      ghost var known := Table().Keys;
      assert forall p :: p in known <==> p in enumerationOrder;
      for i := 0 to |assets|
        invariant Valid()
        invariant forall p :: p in textureDataDict ==> textureDataDict[p] in old(textureDataDict.Values) || fresh(textureDataDict[p])
        invariant Table() == ScanAll(old(Table()), assets[..i], env)
        invariant enumerationOrder == old(enumerationOrder) + NewPaths(known, assets[..i])
      {
        ScanAllNext(old(Table()), assets, env, i);
        OrderStep(old(enumerationOrder), known, assets, i, enumerationOrder);
        var a := assets[i];
        if a.texture.None? {
          continue;
        }
        if a.importer.None? {
          continue;
        }
        Visit(a, env);
      }
      assert assets[..|assets|] == assets;
    }

    /** The scan: loads the sprite atlases, then runs the scan loop over the assets the texture search found. */
    method ScanTextures(
      found: seq<Option<SpriteAtlas>>,
      assets: seq<AssetFacts>,
      canBindTo: (SpriteAtlas, SpriteRef) -> bool,
      addressables: Option<set<string>>)
      requires Valid()
      modifies this`spriteAtlases, this`textureDataDict, this`enumerationOrder, textureDataDict.Values
      ensures Valid()
      ensures spriteAtlases == Loaded(found)
      ensures Table() == ScanAll(old(Table()), assets, ScanEnv(spriteAtlases, canBindTo, addressables))
      ensures enumerationOrder == old(enumerationOrder) + NewPaths(old(Table()).Keys, assets)
    {
      ghost var table := Table();
      ghost var order := enumerationOrder;
      LoadSpriteAtlases(found);
      assert Table() == table && enumerationOrder == order && Valid();
      ScanAssets(assets, ScanEnv(spriteAtlases, canBindTo, addressables));
    }

    /**
     * `textureDataDict.Values`: the records in the order the dictionary
     * enumerates them, as rows. Every record appears, exactly once, as the
     * row stored at its own path.
     */
    ghost function Rows(): (rows: seq<Entry>)
      reads this, textureDataDict.Values
      requires Valid()
      ensures forall p :: p in Table() ==> Table()[p] in rows
      ensures forall e :: e in rows ==> e.path in Table() && Table()[e.path] == e
      ensures forall i, j :: 0 <= i < j < |rows| ==> rows[i].path != rows[j].path
    {
      ValuesInOrder(enumerationOrder, Table())
    }

    /**
     * What the table draws: the rows filtered by the search string, sorted by
     * the chosen option, in two groups. Each matching record is drawn once,
     * in the group of its kind, so the two group sizes shown in the headers
     * add up to the number of matching records.
     */
    ghost function DrawnGroups(): (g: Groups)
      reads this, textureDataDict.Values
      requires Valid()
      ensures forall e :: multiset(g.sprites)[e] == if e in Rows() && SearchMatches(e.name, searchString) && e.attrs.isSprite then 1 else 0
      ensures forall e :: multiset(g.textures)[e] == if e in Rows() && SearchMatches(e.name, searchString) && !e.attrs.isSprite then 1 else 0
      ensures |g.sprites| + |g.textures| == |FilterBySearch(Rows(), searchString)|
      ensures 0 <= sortOption <= 5 ==> SortedBy(sortOption, g.sprites) && SortedBy(sortOption, g.textures)
      ensures IsSubsequence(g.sprites, SortRows(sortOption, FilterBySearch(Rows(), searchString)))
      ensures IsSubsequence(g.textures, SortRows(sortOption, FilterBySearch(Rows(), searchString)))
    {
      var rows := Rows();
      DistinctOnce(rows);
      var g := GroupedTable(rows, searchString, sortOption);
      assert |multiset(g.sprites) + multiset(g.textures)| == |multiset(FilterBySearch(rows, searchString))|;
      g
    }
  }
}
