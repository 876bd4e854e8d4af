/**
 * How the table is prepared for display: the rows are filtered by the search
 * string, ordered by the chosen sort option, and split into a sprites group and
 * a textures group.
 */
module View {
  import opened Records
  import opened Text

  /** `r` is `s` with some elements left out: the elements of `r` occur in `s` in the same order. */
  predicate IsSubsequence(r: seq<Entry>, s: seq<Entry>)
    decreases |s|
  {
    r == [] || (s != [] && if r[0] == s[0] then IsSubsequence(r[1..], s[1..]) else IsSubsequence(r, s[1..]))
  }

  /**
   * LINQ `Where`: the elements that pass `keep`, in their original order, each
   * as often as it occurs in `s`.
   */
  function Where(s: seq<Entry>, keep: Entry -> bool): (r: seq<Entry>)
    ensures |r| <= |s|
    ensures forall x :: x in r <==> x in s && keep(x)
    ensures forall x :: multiset(r)[x] == if keep(x) then multiset(s)[x] else 0
    ensures IsSubsequence(r, s)
  {
    if s == [] then []
    else
      var rest := Where(s[1..], keep);
      assert s == [s[0]] + s[1..];
      if keep(s[0]) then
        assert ([s[0]] + rest)[1..] == rest;
        [s[0]] + rest
      else
        rest
  }

  lemma WhereCons(x: Entry, s: seq<Entry>, keep: Entry -> bool)
    ensures Where([x] + s, keep) == (if keep(x) then [x] else []) + Where(s, keep)
  {
    assert ([x] + s)[1..] == s;
  }

  lemma {:induction false} WhereKeepsAll(s: seq<Entry>, keep: Entry -> bool)
    requires forall x :: x in s ==> keep(x)
    ensures Where(s, keep) == s
  {
    if s != [] {
      WhereKeepsAll(s[1..], keep);
    }
  }

  /** The search box's test: an empty search keeps every name, otherwise the name must contain it, ignoring case. */
  function SearchMatches(name: string, search: string): (r: bool)
    ensures r <==> search == [] || exists k :: MatchesAt(name, search, k)
  {
    |search| == 0 || IndexOfIgnoreCase(name, search) >= 0
  }

  /** The same test in terms of folded strings: some slice of the name folds to the folded search. */
  lemma SearchMatchesFolded(name: string, search: string)
    ensures SearchMatches(name, search) <==> search == [] || exists k :: FoldedMatchAt(name, search, k)
  {
    if search != [] {
      if SearchMatches(name, search) {
        var k :| MatchesAt(name, search, k);
        MatchesAtFolded(name, search, k);
        assert FoldedMatchAt(name, search, k);
      }
      if exists k :: FoldedMatchAt(name, search, k) {
        var k :| FoldedMatchAt(name, search, k);
        MatchesAtFolded(name, search, k);
        assert MatchesAt(name, search, k);
      }
    }
  }

  /** The rows whose name matches the search, in enumeration order. */
  function FilterBySearch(rows: seq<Entry>, search: string): (r: seq<Entry>)
    ensures |r| <= |rows|
    ensures forall e :: e in r <==> e in rows && SearchMatches(e.name, search)
    ensures forall e :: multiset(r)[e] == if SearchMatches(e.name, search) then multiset(rows)[e] else 0
    ensures IsSubsequence(r, rows)
    ensures search == [] ==> r == rows
  {
    var keep := (e: Entry) => SearchMatches(e.name, search);
    if search == [] then
      WhereKeepsAll(rows, keep);
      Where(rows, keep)
    else
      Where(rows, keep)
  }

  /** The boolean column sort options 1 to 5 order by. */
  function SortFlag(option: int, e: Entry): bool
    requires 1 <= option <= 5
  {
    if option == 1 then e.attrs.mipmap
    else if option == 2 then e.attrs.powerOfTwo
    else if option == 3 then e.attrs.multipleOfFour
    else if option == 4 then e.attrs.inAtlas
    else e.attrs.addressable
  }

  /**
   * The sort key order of an option: option 0 orders by name; options 1 to 5
   * put rows whose flag is true first (`OrderByDescending`), then order by name
   * (`ThenBy`). `a` sorts no later than `b`.
   */
  predicate RowLe(option: int, a: Entry, b: Entry)
    requires 0 <= option <= 5
  {
    if option == 0 then NameLe(a.name, b.name)
    else
      || (SortFlag(option, a) && !SortFlag(option, b))
      || (SortFlag(option, a) == SortFlag(option, b) && NameLe(a.name, b.name))
  }

  /** Two rows have equal sort keys. */
  predicate SameKey(option: int, a: Entry, b: Entry)
    requires 0 <= option <= 5
  {
    RowLe(option, a, b) && RowLe(option, b, a)
  }

  lemma RowLeTotal(option: int, a: Entry, b: Entry)
    requires 0 <= option <= 5
    ensures RowLe(option, a, b) || RowLe(option, b, a)
  {
    NameLeTotal(a.name, b.name);
  }

  lemma RowLeTransitive(option: int, a: Entry, b: Entry, c: Entry)
    requires 0 <= option <= 5
    requires RowLe(option, a, b) && RowLe(option, b, c)
    ensures RowLe(option, a, c)
  {
    if option == 0 || (SortFlag(option, a) == SortFlag(option, b) == SortFlag(option, c)) {
      NameLeTransitive(a.name, b.name, c.name);
    }
  }

  predicate SortedBy(option: int, s: seq<Entry>)
    requires 0 <= option <= 5
  {
    forall i, j :: 0 <= i < j < |s| ==> RowLe(option, s[i], s[j])
  }

  /** Places `x` before the first row it sorts no later than, so that it precedes the rows with an equal key. */
  function Insert(option: int, x: Entry, s: seq<Entry>): (r: seq<Entry>)
    requires 0 <= option <= 5
    ensures multiset(r) == multiset(s) + multiset{x}
  {
    if s == [] then [x]
    else if RowLe(option, x, s[0]) then [x] + s
    else
      assert s == [s[0]] + s[1..];
      [s[0]] + Insert(option, x, s[1..])
  }

  lemma {:induction false} InsertSorted(option: int, x: Entry, s: seq<Entry>)
    requires 0 <= option <= 5 && SortedBy(option, s)
    ensures SortedBy(option, Insert(option, x, s))
  {
    if s != [] && !RowLe(option, x, s[0]) {
      var rest := Insert(option, x, s[1..]);
      InsertSorted(option, x, s[1..]);
      RowLeTotal(option, x, s[0]);
      forall k | 0 <= k < |rest|
        ensures RowLe(option, s[0], rest[k])
      {
        assert rest[k] in multiset(rest);
        assert rest[k] == x || rest[k] in s[1..];
      }
    } else if s != [] {
      PrependSorted(option, x, s);
    }
  }

  /** A row that sorts no later than the head of a sorted sequence can be put in front of it. */
  lemma PrependSorted(option: int, x: Entry, s: seq<Entry>)
    requires 0 <= option <= 5 && SortedBy(option, s)
    requires s != [] && RowLe(option, x, s[0])
    ensures SortedBy(option, [x] + s)
  {
    var r := [x] + s;
    forall i, j | 0 <= i < j < |r|
      ensures RowLe(option, r[i], r[j])
    {
      if i == 0 && j > 1 {
        RowLeTransitive(option, x, s[0], s[j - 1]);
      }
    }
  }

  /** A stable sort of `s` by the key order of `option`, as LINQ's `OrderBy` performs. */
  function StableSort(option: int, s: seq<Entry>): (r: seq<Entry>)
    requires 0 <= option <= 5
    ensures multiset(r) == multiset(s)
    ensures SortedBy(option, r)
  {
    if s == [] then []
    else
      var rest := StableSort(option, s[1..]);
      InsertSorted(option, s[0], rest);
      assert s == [s[0]] + s[1..];
      Insert(option, s[0], rest)
  }

  /**
   * The sort step: options 0 to 5 reorder the rows, any other option keeps
   * their order. The result is a permutation of the input.
   */
  function SortRows(option: int, rows: seq<Entry>): (r: seq<Entry>)
    ensures multiset(r) == multiset(rows)
    ensures option == 0 ==> forall i, j :: 0 <= i < j < |r| ==> NameLe(r[i].name, r[j].name)
    ensures 1 <= option <= 5 ==> forall i, j :: 0 <= i < j < |r| && SortFlag(option, r[j]) ==> SortFlag(option, r[i])
    ensures 1 <= option <= 5 ==> forall i, j :: 0 <= i < j < |r| && SortFlag(option, r[i]) == SortFlag(option, r[j]) ==> NameLe(r[i].name, r[j].name)
    ensures !(0 <= option <= 5) ==> r == rows
  {
    if 0 <= option <= 5 then StableSort(option, rows) else rows
  }

  /** Inserting a row moves it only past rows with a strictly smaller key, so no row with its key changes relative order. */
  lemma {:induction false} InsertStable(option: int, x: Entry, s: seq<Entry>, keep: Entry -> bool)
    requires 0 <= option <= 5
    requires forall a, b :: keep(a) && keep(b) ==> SameKey(option, a, b)
    ensures Where(Insert(option, x, s), keep) == Where([x] + s, keep)
  {
    if s != [] && !RowLe(option, x, s[0]) {
      InsertStable(option, x, s[1..], keep);
      NotKeptTogether(option, x, s[0], keep);
      InsertPastRow(option, x, s, keep);
    }
  }

  /** Rows in strict key order cannot both belong to a group of rows with equal keys. */
  lemma NotKeptTogether(option: int, x: Entry, y: Entry, keep: Entry -> bool)
    requires 0 <= option <= 5
    requires forall a, b :: keep(a) && keep(b) ==> SameKey(option, a, b)
    requires !RowLe(option, x, y)
    ensures !(keep(x) && keep(y))
  {
  }

  /** One step of `InsertStable`: moving `x` past a row that is not kept together with it. */
  lemma InsertPastRow(option: int, x: Entry, s: seq<Entry>, keep: Entry -> bool)
    requires 0 <= option <= 5 && s != [] && !RowLe(option, x, s[0])
    requires !(keep(x) && keep(s[0]))
    requires Where(Insert(option, x, s[1..]), keep) == Where([x] + s[1..], keep)
    ensures Where(Insert(option, x, s), keep) == Where([x] + s, keep)
  {
    var tail := s[1..];
    var head := s[0];
    assert s == [head] + tail;
    assert Insert(option, x, s) == [head] + Insert(option, x, tail);
    var px := if keep(x) then [x] else [];
    var ph := if keep(head) then [head] else [];
    calc {
      Where(Insert(option, x, s), keep);
      { WhereCons(head, Insert(option, x, tail), keep); }
      ph + Where(Insert(option, x, tail), keep);
      { WhereCons(x, tail, keep); }
      ph + (px + Where(tail, keep));
      { SwapPrefixes(ph, px, Where(tail, keep)); }
      px + (ph + Where(tail, keep));
      { WhereCons(head, tail, keep); }
      px + Where(s, keep);
      { WhereCons(x, s, keep); }
      Where([x] + s, keep);
    }
  }

  lemma SwapPrefixes(a: seq<Entry>, b: seq<Entry>, w: seq<Entry>)
    requires a == [] || b == []
    ensures a + (b + w) == b + (a + w)
  {
    if a == [] {
      assert a + (b + w) == b + w;
    } else {
      assert b + (a + w) == a + w;
    }
  }

  /**
   * The sort is stable: the rows of any group whose sort keys are all equal
   * (rows with the same name, and the same flag for options 1 to 5) keep
   * their original relative order.
   */
  lemma {:induction false} StableSortStable(option: int, s: seq<Entry>, keep: Entry -> bool)
    requires 0 <= option <= 5
    requires forall a, b :: keep(a) && keep(b) ==> SameKey(option, a, b)
    ensures Where(StableSort(option, s), keep) == Where(s, keep)
  {
    if s != [] {
      var rest := StableSort(option, s[1..]);
      InsertStable(option, s[0], rest, keep);
      StableSortStable(option, s[1..], keep);
      WhereCons(s[0], rest, keep);
      WhereCons(s[0], s[1..], keep);
      assert s == [s[0]] + s[1..];
    }
  }

  predicate IsSpriteRow(e: Entry) {
    e.attrs.isSprite
  }

  predicate IsTextureRow(e: Entry) {
    !e.attrs.isSprite
  }

  /** The two groups the table is drawn in, each in sorted order. */
  datatype Groups = Groups(sprites: seq<Entry>, textures: seq<Entry>)

  lemma {:induction false} SplitBySprite(rows: seq<Entry>)
    ensures multiset(Where(rows, IsSpriteRow)) + multiset(Where(rows, IsTextureRow)) == multiset(rows)
  {
    if rows != [] {
      var tail := rows[1..];
      assert rows == [rows[0]] + tail;
      SplitBySprite(tail);
      WhereCons(rows[0], tail, IsSpriteRow);
      WhereCons(rows[0], tail, IsTextureRow);
    }
  }

  lemma {:induction false} WhereSorted(option: int, s: seq<Entry>, keep: Entry -> bool)
    requires 0 <= option <= 5 && SortedBy(option, s)
    ensures SortedBy(option, Where(s, keep))
  {
    if s != [] {
      WhereSorted(option, s[1..], keep);
      var rest := Where(s[1..], keep);
      forall k | 0 <= k < |rest|
        ensures RowLe(option, s[0], rest[k])
      {
        assert rest[k] in s[1..];
      }
    }
  }

  /** The split into sprites and textures: every row lands in exactly one group, and the counts add up. */
  function Partition(rows: seq<Entry>): (g: Groups)
    ensures |g.sprites| + |g.textures| == |rows|
    ensures multiset(g.sprites) + multiset(g.textures) == multiset(rows)
    ensures forall e :: multiset(g.sprites)[e] == if e.attrs.isSprite then multiset(rows)[e] else 0
    ensures forall e :: multiset(g.textures)[e] == if e.attrs.isSprite then 0 else multiset(rows)[e]
    ensures IsSubsequence(g.sprites, rows) && IsSubsequence(g.textures, rows)
    ensures forall e :: e in g.sprites <==> e in rows && e.attrs.isSprite
    ensures forall e :: e in g.textures <==> e in rows && !e.attrs.isSprite
    ensures forall option :: 0 <= option <= 5 && SortedBy(option, rows) ==>
      SortedBy(option, g.sprites) && SortedBy(option, g.textures)
  {
    SplitBySprite(rows);
    assert |multiset(Where(rows, IsSpriteRow))| + |multiset(Where(rows, IsTextureRow))| == |multiset(rows)|;
    forall option | 0 <= option <= 5 && SortedBy(option, rows)
      ensures SortedBy(option, Where(rows, IsSpriteRow)) && SortedBy(option, Where(rows, IsTextureRow))
    {
      WhereSorted(option, rows, IsSpriteRow);
      WhereSorted(option, rows, IsTextureRow);
    }
    Groups(Where(rows, IsSpriteRow), Where(rows, IsTextureRow))
  }

  /** In a sequence without repeated rows every row occurs at most once. */
  lemma {:induction false} DistinctOnce(s: seq<Entry>)
    requires forall i, j :: 0 <= i < j < |s| ==> s[i] != s[j]
    ensures forall x :: multiset(s)[x] == if x in s then 1 else 0
  {
    if s != [] {
      DistinctOnce(s[1..]);
      assert s == [s[0]] + s[1..];
      assert s[0] !in s[1..];
    }
  }

  /**
   * After filtering, sorting and splitting, each row occurs in its kind's
   * group as often as it occurs in `rows` when it matches the search, and
   * not at all otherwise.
   */
  lemma GroupCounts(rows: seq<Entry>, search: string, option: int)
    ensures var g := Partition(SortRows(option, FilterBySearch(rows, search)));
      && (forall e :: multiset(g.sprites)[e] == if SearchMatches(e.name, search) && e.attrs.isSprite then multiset(rows)[e] else 0)
      && (forall e :: multiset(g.textures)[e] == if SearchMatches(e.name, search) && !e.attrs.isSprite then multiset(rows)[e] else 0)
  {
    var filtered := FilterBySearch(rows, search);
    var sorted := SortRows(option, filtered);
    forall e: Entry
      ensures multiset(sorted)[e] == if SearchMatches(e.name, search) then multiset(rows)[e] else 0
    {
      assert multiset(sorted)[e] == multiset(filtered)[e];
    }
  }

  /** A row occurs in a sequence exactly when its count there is positive. */
  lemma CountedMembers(rows: seq<Entry>, search: string, g: Groups)
    requires forall e :: multiset(g.sprites)[e] == if SearchMatches(e.name, search) && e.attrs.isSprite then multiset(rows)[e] else 0
    requires forall e :: multiset(g.textures)[e] == if SearchMatches(e.name, search) && !e.attrs.isSprite then multiset(rows)[e] else 0
    ensures forall e :: e in g.sprites <==> e in rows && SearchMatches(e.name, search) && e.attrs.isSprite
    ensures forall e :: e in g.textures <==> e in rows && SearchMatches(e.name, search) && !e.attrs.isSprite
  {
    forall e: Entry
      ensures (e in g.sprites <==> e in rows && SearchMatches(e.name, search) && e.attrs.isSprite)
      ensures (e in g.textures <==> e in rows && SearchMatches(e.name, search) && !e.attrs.isSprite)
    {
      assert e in g.sprites <==> e in multiset(g.sprites);
      assert e in g.textures <==> e in multiset(g.textures);
      assert e in rows <==> e in multiset(rows);
    }
  }

  /**
   * The whole view: filter, sort and split. Each group holds the matching
   * rows of its kind, each as often as it occurs in `rows`, in the chosen
   * order; together they hold every matching row.
   */
  function GroupedTable(rows: seq<Entry>, search: string, option: int): (g: Groups)
    ensures forall e :: multiset(g.sprites)[e] == if SearchMatches(e.name, search) && e.attrs.isSprite then multiset(rows)[e] else 0
    ensures forall e :: multiset(g.textures)[e] == if SearchMatches(e.name, search) && !e.attrs.isSprite then multiset(rows)[e] else 0
    ensures multiset(g.sprites) + multiset(g.textures) == multiset(FilterBySearch(rows, search))
    ensures search == [] ==> multiset(g.sprites) + multiset(g.textures) == multiset(rows)
    ensures forall e :: e in g.sprites <==> e in rows && SearchMatches(e.name, search) && e.attrs.isSprite
    ensures forall e :: e in g.textures <==> e in rows && SearchMatches(e.name, search) && !e.attrs.isSprite
    ensures 0 <= option <= 5 ==> SortedBy(option, g.sprites) && SortedBy(option, g.textures)
    ensures IsSubsequence(g.sprites, SortRows(option, FilterBySearch(rows, search)))
    ensures IsSubsequence(g.textures, SortRows(option, FilterBySearch(rows, search)))
  {
    var filtered := FilterBySearch(rows, search);
    var sorted := SortRows(option, filtered);
    var g := Partition(sorted);
    GroupCounts(rows, search, option);
    CountedMembers(rows, search, g);
    g
  }
}
