# Texture Audit Tool — a Dafny model

The Texture Audit Tool is a Unity editor window. It scans every `Texture2D`
asset under `Assets`, records per texture a handful of diagnostic columns in a
dictionary keyed by asset path, and draws them as a table. The columns are:

- mipmaps enabled;
- power-of-two and multiple-of-four sides;
- sprite type;
- sprite-atlas membership;
- addressables registration;
- resolution;
- compression format;
- file size and estimated memory (left out of the model, see "Left out").

The table can be filtered by a case-insensitive name search, sorted by one of
six options, and is split into a sprites group and a textures group.

This project models the window's logic in Dafny and proves what it does:

- `csharp.dfy` (`CSharp`): the C# integer semantics the tool depends on:
  - 32-bit `int` and 64-bit `long` wrap-around;
  - `/` and `%` truncating toward zero;
  - bitwise `&` on two's-complement patterns.
- `dimensions.dfy` (`Dimensions`): the dimension checks:
  - the bit-trick `IsPowerOfTwo`, exactly characterised: it also accepts 0 and `int.MinValue`;
  - the multiple-of-four test;
  - the uncompressed footprint `(long)w * h * 4`.
- `paths.dfy` (`Paths`): `TruncatePath`. A `Substring` with a negative
  argument throws, so this becomes an error result.
- `text.dfy` (`Text`): `IndexOf` with `OrdinalIgnoreCase`, and the order names
  are sorted in.
- `records.dfy` (`Records`): the values of one table row.
- `scan.dfy` (`Scan`): the scan as values:
  - the columns computed for one asset;
  - the insert-if-absent-then-overwrite step on the table (`Upsert`);
  - the fold of all assets (`ScanAll`);
  - the new paths in the order they are first reached;
  - lemmas about the result: which keys exist, which rows are untouched,
    which asset's columns win, which name a row keeps, and idempotence.
- `view.dfy` (`View`): the table preparation:
  - the search filter;
  - a stable sort per sort option, proved to be a sorted permutation whose
    equal-key rows keep their order;
  - the split into the two groups.
- `window.dfy` (`Window`): the window itself, imperatively:
  - `TextureData` is a class whose columns are overwritten in place;
  - `TextureAuditTool` holds the dictionary and the atlas list.

  `ScanTextures` is proved against `Scan.ScanAll`. The table after the scan is
  the fold of the scanned assets over the table before. Paths the scan adds are
  enumerated after the old ones, in first-seen order. Records stay keyed by
  their own path, and each is listed once.

Engine queries are inputs to the model. Each texture search result is an
`AssetFacts` value. It holds:

- the GUID and path;
- the texture, or `None` when it did not load;
- the importer, or `None` when it did not load;
- the main sprite and the sub-asset sprites.

What is fixed for a scan is a `ScanEnv`:

- the loaded atlases;
- the `SpriteAtlas.CanBindTo` relation, as a function parameter;
- the set of GUIDs the addressables settings hold, or `None` when there are no settings.

## Model

| member | source | states |
|---|---|---|
| CSharp.Div | Editor/TextureAuditTool.cs:233 | `int` division rounds toward zero: the remainder left over is below the divisor and has the sign of the dividend |
| CSharp.Rem | Editor/TextureAuditTool.cs:118 | `int` `%` by a positive divisor is `a - (a / d) * d` with C#'s truncating `/`, so it takes the sign of the dividend and is smaller than the divisor in magnitude |
| CSharp.WrapInt64 | Editor/TextureAuditTool.cs:144 | unchecked `long` arithmetic: the result is in the `long` range, congruent to the exact value modulo 2^64, and equal to it when it fits |
| CSharp.Bits32 | Editor/TextureAuditTool.cs:228 | the 32-bit pattern of an `int` read unsigned: non-negative values are themselves, negative ones gain 2^32 |
| CSharp.BitAnd | Editor/TextureAuditTool.cs:228 | bitwise `&` of two unsigned patterns is no larger than either operand |
| CSharp.BitAndSelf | Editor/TextureAuditTool.cs:228 | `a & a == a` |
| Dimensions.IsPowerOfTwo | Editor/TextureAuditTool.cs:228 | C# `(x & (x - 1)) == 0` on the 32-bit patterns, `x - 1` wrapping for `int.MinValue`; what it accepts is stated by `Dimensions.PowerOfTwoMeaning` |
| Dimensions.LowestBitCleared | Editor/TextureAuditTool.cs:228 | for `n >= 1`, `n & (n - 1) == 0` exactly when `n` is a power of two |
| Dimensions.PowerOfTwoMeaning | Editor/TextureAuditTool.cs:228 | `IsPowerOfTwo(x)` holds exactly for the positive powers of two, 0 and `int.MinValue` (both directions) |
| Dimensions.PowerOfTwoIsMultipleOfFour | Editor/TextureAuditTool.cs:117-118 | a side of at least 4 that passes the power-of-two test also passes the multiple-of-four test |
| Dimensions.PowerOfTwoSides | Editor/TextureAuditTool.cs:117 | the `powerOfTwo` column is true exactly when each side is a positive power of two, 0 or `int.MinValue` |
| Dimensions.MultipleOfFour | Editor/TextureAuditTool.cs:118 | the `multipleOfFour` column is true exactly when both sides are divisible by 4, negative sides included |
| Dimensions.UncompressedBytes | Editor/TextureAuditTool.cs:143-144 | the footprint is a `long` congruent to `width * height * 4` modulo 2^64 (the unchecked wrap-around), and exactly `width * height * 4` whenever that fits a `long` |
| Dimensions.Int32ProductFits | Editor/TextureAuditTool.cs:144 | `(long)width * height` never overflows, whatever the two `int`s are |
| Paths.KeptPart | Editor/TextureAuditTool.cs:233 | `(maxLength - 3) / 2` rounded toward zero: from a limit of 3 on, both parts and the ellipsis fill the limit or fall one short; a limit of 2 keeps nothing; a smaller limit gives a negative count |
| Paths.TruncatePath | Editor/TextureAuditTool.cs:230-235 | a path within the limit is returned unchanged; `Substring` throws exactly when the path is too long and the limit is below 2; otherwise a shortened path has length `2 * ((max - 3) / 2) + 3`, which for limits of 3 or more is `max - 1` or `max` |
| Paths.TruncatedShape | Editor/TextureAuditTool.cs:232-234 | a shortened path is the first `part` characters, `"..."`, then the last `part` characters of the path |
| Paths.PathColumnNeverThrows | Editor/TextureAuditTool.cs:224 | with the column width 50 the call never throws, never exceeds 50 characters, and a long path becomes 23 + 3 + 23 = 49 characters that start with its first 23 |
| Paths.LimitTwoOverflows | Editor/TextureAuditTool.cs:233-234 | with a limit of 2 any longer path becomes `"..."`, one character over the limit |
| Text.FoldedEqual | Editor/TextureAuditTool.cs:157 | two characters compare equal ignoring case exactly when they are equal or are the two cases of one ASCII letter |
| Text.FoldCaseEqual | Editor/TextureAuditTool.cs:157 | two strings compare equal ignoring case exactly when they have the same length and agree character by character ignoring case |
| Text.MatchesAtFolded | Editor/TextureAuditTool.cs:157 | a case-insensitive match at `k` is exactly equality of the folded slice and the folded pattern |
| Text.IndexOfFrom | Editor/TextureAuditTool.cs:157 | the result is the first match at or after `from`, or -1 when there is none from there on |
| Text.IndexOfIgnoreCase | Editor/TextureAuditTool.cs:157 | `IndexOf(.., OrdinalIgnoreCase)` returns the first matching offset, is -1 exactly when no offset matches, and is 0 for the empty pattern |
| Text.NameLeReflexive | Editor/TextureAuditTool.cs:163 | every name sorts no later than itself |
| Text.NameLeTotal | Editor/TextureAuditTool.cs:163 | any two names are comparable |
| Text.NameLeTransitive | Editor/TextureAuditTool.cs:163 | the name order is transitive |
| Text.NameLeAntisymmetric | Editor/TextureAuditTool.cs:163 | names that sort no later than each other are equal |
| Scan.SpritesOf | Editor/TextureAuditTool.cs:122-125 | the sprites checked are exactly the main sprite (if it loaded) and the sub-asset sprites |
| Scan.BindsToAny | Editor/TextureAuditTool.cs:126 | a sprite is bound exactly when some loaded atlas can bind it |
| Scan.AnyInAtlas | Editor/TextureAuditTool.cs:126 | true exactly when some sprite is bound by some atlas |
| Scan.ChosenSettings | Editor/TextureAuditTool.cs:135-137 | the "Standalone" settings when they are overridden, the default settings otherwise; stated for the format column by `Scan.AttributesMeaning` |
| Scan.AttributesOf | Editor/TextureAuditTool.cs:116-138 | the columns written for one scanned asset; each column's meaning is stated by `Scan.AttributesMeaning` and `Scan.InAtlasMeaning` |
| Scan.AttributesMeaning | Editor/TextureAuditTool.cs:116-138 | each column of a scanned row: mipmaps as imported, the two dimension tests on both sides, sprite type, addressable exactly when settings exist and list the GUID, resolution as the texture's size, and the "Standalone" format when it is overridden, the default one otherwise |
| Scan.InAtlasMeaning | Editor/TextureAuditTool.cs:121-126 | the `inAtlas` column is true exactly when the main sprite or a sub-asset sprite can be bound by a loaded atlas |
| Scan.Upsert | Editor/TextureAuditTool.cs:103-138 | one asset: skipped when its texture or importer is missing; otherwise its path is added if absent with the texture's name, an existing row keeps its name and path, its columns are recomputed, and no other row changes |
| Scan.ScanAll | Editor/TextureAuditTool.cs:101-148 | the scan loop as a fold of `Upsert` over the assets in search order; what it leaves is stated by the `Scan.ScanAll…` lemmas below |
| Scan.NewPaths | Editor/TextureAuditTool.cs:110-114 | the paths a scan adds are exactly the scanned paths not already keyed, each listed once |
| Scan.OrderStep | Editor/TextureAuditTool.cs:110-114 | adding one asset's path when it is not yet listed extends the enumeration order exactly as `NewPaths` does |
| Scan.ScanAllNext | Editor/TextureAuditTool.cs:101 | scanning one more asset applies `Upsert` for it to the table scanned so far |
| Scan.ScanAllKeys | Editor/TextureAuditTool.cs:101-114 | after a scan the keys are the old keys plus the paths of the assets whose texture and importer loaded; nothing is removed |
| Scan.ScanAllKeepsIdentity | Editor/TextureAuditTool.cs:110-114 | an existing row survives a scan with its name and path unchanged |
| Scan.ScanAllUntouched | Editor/TextureAuditTool.cs:101-114 | a row whose path no scanned asset has is left exactly as it was (stale rows stay) |
| Scan.ScanAllLatest | Editor/TextureAuditTool.cs:116-138 | a row's columns are those computed from the last scanned asset with its path |
| Scan.ScanAllFirstName | Editor/TextureAuditTool.cs:110-113 | a row created by the scan is named after the first scanned asset with its path |
| Scan.ScanAllKeyedByPath | Editor/TextureAuditTool.cs:112-113 | a scan keeps every row stored under its own path |
| Scan.ScanAllIdempotent | Editor/TextureAuditTool.cs:96-149 | scanning an unchanged project twice gives the same table as scanning it once |
| View.Where | Editor/TextureAuditTool.cs:171-172 | LINQ `Where` keeps each passing element as often as it occurs and drops the others, and keeps their order (a subsequence of the input) |
| View.WhereKeepsAll | Editor/TextureAuditTool.cs:157 | a filter every element passes returns the sequence unchanged |
| View.SearchMatches | Editor/TextureAuditTool.cs:157 | a name is kept exactly when the search is empty or occurs in it ignoring case |
| View.SearchMatchesFolded | Editor/TextureAuditTool.cs:157 | the search test holds exactly when the search is empty or some slice of the name equals it after both are case-folded |
| View.FilterBySearch | Editor/TextureAuditTool.cs:156-158 | the filtered rows are the matching rows, each as often as in the input, in input order; an empty search keeps every row |
| View.RowLeTotal | Editor/TextureAuditTool.cs:163-168 | any two rows are comparable under every sort option |
| View.RowLeTransitive | Editor/TextureAuditTool.cs:163-168 | each option's key order is transitive |
| View.Insert | Editor/TextureAuditTool.cs:163-168 | inserting a row adds exactly that row |
| View.InsertSorted | Editor/TextureAuditTool.cs:163-168 | inserting into a sorted sequence keeps it sorted |
| View.PrependSorted | Editor/TextureAuditTool.cs:163-168 | a row sorting no later than the head of a sorted sequence can go in front of it |
| View.StableSort | Editor/TextureAuditTool.cs:163-168 | the sort result is a permutation of its input, ordered by the option's key |
| View.SortRows | Editor/TextureAuditTool.cs:161-169 | the sort step is a permutation; option 0 orders by name; options 1–5 put rows whose flag is true first and order equal flags by name; any other option keeps the order |
| View.InsertStable | Editor/TextureAuditTool.cs:163-168 | inserting a row keeps the relative order of every group of rows with equal keys |
| View.NotKeptTogether | Editor/TextureAuditTool.cs:163-168 | rows in strict key order never both belong to a group of rows with equal keys |
| View.StableSortStable | Editor/TextureAuditTool.cs:163-168 | `OrderBy`/`ThenBy` are stable: rows with equal keys keep their original relative order |
| View.SplitBySprite | Editor/TextureAuditTool.cs:171-172 | the sprite rows and the texture rows together are a permutation of the rows |
| View.WhereSorted | Editor/TextureAuditTool.cs:171-172 | filtering a sorted sequence leaves it sorted |
| View.Partition | Editor/TextureAuditTool.cs:171-172 | each row lands in the group of its kind (sprite or texture) as often as it occurs, the counts add up, each group keeps the input's order (a subsequence of it), and so each keeps the sort order |
| View.DistinctOnce | Editor/TextureAuditTool.cs:156 | a sequence without repeated rows holds each row exactly once |
| View.GroupCounts | Editor/TextureAuditTool.cs:155-172 | after filtering, sorting and splitting, each row occurs in its kind's group as often as it occurs among the rows, if it matches the search, and otherwise not at all |
| View.GroupedTable | Editor/TextureAuditTool.cs:155-172 | each group holds the matching rows of its kind, each as often as in the input, in the order of the sorted list (so equal-key rows keep their stable order); together they are a permutation of the matching rows, and for options 0–5 each is sorted |
| Window.TextureData.constructor | Editor/TextureAuditTool.cs:112 | a new record has the given path and name and every other column unset |
| Window.TextureData.Refresh | Editor/TextureAuditTool.cs:116-138 | every column is overwritten with the values `AttributesOf` describes; the name and path are kept |
| Window.Loaded | Editor/TextureAuditTool.cs:86-93 | the atlas list holds exactly the atlases that loaded, never more than were found |
| Window.TextureAuditTool.constructor | Editor/TextureAuditTool.cs:15-39 | the window starts with an empty table, no atlases, sort option 0 and an empty search |
| Window.TextureAuditTool.LoadSpriteAtlases | Editor/TextureAuditTool.cs:84-94 | the atlas list is cleared and then holds exactly the atlases that loaded, in search order |
| Window.TextureAuditTool.RecordAt | Editor/TextureAuditTool.cs:110-114 | `TryGetValue` or create: an existing record is returned unchanged; otherwise a fresh record with the texture's name is added under the path and appended to the enumeration order |
| Window.TextureAuditTool.RefreshAt | Editor/TextureAuditTool.cs:116-138 | only the row at the asset's path changes, and only in its columns |
| Window.TextureAuditTool.Visit | Editor/TextureAuditTool.cs:103-138 | one loop pass over a loaded asset changes the table exactly as `Scan.Upsert` does and extends the enumeration order only for a new path |
| Window.TextureAuditTool.ScanAssets | Editor/TextureAuditTool.cs:101-148 | the loop leaves the table equal to `ScanAll` of the assets over the old table, and appends the new paths in first-seen order |
| Window.TextureAuditTool.ScanTextures | Editor/TextureAuditTool.cs:96-149 | the scan reloads the atlases, then leaves the table equal to `ScanAll` under those atlases; the table stays keyed by path, each key listed once in the enumeration order |
| Window.TextureAuditTool.Rows | Editor/TextureAuditTool.cs:156 | `Values` lists every record exactly once, each as the row stored at its own path |
| Window.TextureAuditTool.DrawnGroups | Editor/TextureAuditTool.cs:151-186 | each record whose name matches the search is drawn exactly once, in the sprite or texture group by its kind, and no other record is drawn; each group follows the order of the filtered, sorted list; the group sizes in the two headers add up to the number of matching records; both groups are sorted for options 0–5 |

## Left out

- The GUI is not modelled: `OnGUI`, `DrawTableHeader`, `DrawTableRow`, the
  column toggles, foldouts, scroll positions, the "Clear" button and the menu
  item. These are immediate-mode drawing calls; the model stops at the groups
  the table draws (`DrawnGroups`). `DrawnGroups` is defined for an empty
  table too, where the window draws no table at all.
- Engine calls are inputs, not computations. This covers `AssetDatabase.FindAssets`,
  `GUIDToAssetPath`, `LoadAssetAtPath`, `LoadAllAssetRepresentationsAtPath`,
  `AssetImporter.GetAtPath` and the importer's platform settings. The order of
  the input sequences is the order the searches return.
- `SpriteAtlas.CanBindTo` is an opaque relation parameter, because its packing
  rules live in the engine.
- The addressables settings and `FindAssetEntry` become an optional set of GUIDs.
- The file-size column is left out: it is a file-system read (`FileInfo.Length`),
  and its `"{0:F2} KB"` string is float formatting.
- The memory column's `* 1.3333f` mipmap factor and `"{0:F1} KB"` formatting
  are float arithmetic. Only the integer footprint before the factor is
  modelled (`UncompressedBytes`).
- The resolution column is kept as the two integers rather than the string
  `"{w}×{h}"`. The format column is kept as the format's name.
- `View.SortRows`: names are compared by character code (ordinal). The source's
  `OrderBy(d => d.name)` uses the current culture's comparer.
- `Paths.TruncatePath`: lengths and positions count Unicode characters, while
  C# `Length` and `Substring` count UTF-16 code units. A path holding a
  character outside the Basic Multilingual Plane is one unit longer in C#: it
  can be shortened there while the model shows it whole, and `Substring` can
  split a surrogate pair. The 50-character bound of `PathColumnNeverThrows`
  is in Unicode characters. For a limit within 3 of `int.MinValue`, C#'s
  `maxLength - 3` wraps to a large positive part, while the model's part is
  negative; both throw for any path shorter than about 2^30 characters,
  which is beyond the length a .NET string can have.
- `Text.IndexOfIgnoreCase`: only ASCII letters are case-folded. .NET's
  `OrdinalIgnoreCase` folds all of Unicode.
- `Window.TextureAuditTool.Rows`: .NET does not promise an enumeration order
  for `Dictionary.Values`. The model takes insertion order, a ghost sequence,
  since the tool never removes an entry.
- `Window.TextureAuditTool.ScanAssets`: the loop is proved only for a scan in
  which every file-size read succeeds, as described in the next line.
- `Window.TextureAuditTool.ScanTextures`: the model assumes that the file-size
  read (`new FileInfo(..).Length`, `Editor/TextureAuditTool.cs:140`) succeeds
  for every scanned asset. In C# that read throws when
  the file is missing, when the path names a directory, on an I/O error, or on
  a path that is too long. The exception leaves the scan mid-loop:
  - the assets before the failing one are upserted;
  - the failing asset's record already has its new columns, but not its new
    size and memory;
  - the later assets are not scanned.

  The contract `Table() == ScanAll(old(Table()), assets, env)` describes only
  a scan in which no read fails.
- `Window.TextureAuditTool.ScanTextures`: concurrency and re-entrancy with the
  editor (an asset changing during a scan) are not modelled; the scan is one
  atomic call over fixed inputs.
- A null search string and a null path are not modelled. The window only ever
  assigns strings to them.
