/** Shortening an asset path for the table's path column. */
module Paths {
  import opened Wrappers
  import opened CSharp

  /** The exception `string.Substring` throws for a negative length or start. */
  datatype SubstringError = ArgumentOutOfRange

  const Ellipsis: string := "..."

  /** The width of the path column, in characters, as the table row asks for it. */
  const PathColumnWidth: int := 50

  /**
   * Characters kept on each side of the ellipsis: C# `(maxLength - 3) / 2`,
   * rounded toward zero. From a limit of 3 on, the two parts and the
   * ellipsis fill the limit or fall one character short; a limit of 2 keeps
   * nothing, and a smaller one asks for a negative count.
   */
  function KeptPart(maxLength: int): (part: int)
    ensures maxLength >= 3 ==> 0 <= part && maxLength - 1 <= 2 * part + 3 <= maxLength
    ensures maxLength == 2 ==> part == 0
    ensures maxLength < 2 ==> part < 0
  {
    Div(maxLength - 3, 2)
  }

  /**
   * A path no longer than `maxLength` is shown whole. A longer one keeps
   * `KeptPart(maxLength)` characters at each end around `"..."`; when that
   * count is negative (`maxLength` below 2) `Substring` throws.
   */
  function TruncatePath(path: string, maxLength: Int32): (r: Result<string, SubstringError>)
    ensures |path| <= maxLength ==> r == Ok(path)
    ensures r.Err? <==> |path| > maxLength && maxLength < 2
    ensures r.Ok? && |path| > maxLength ==> |r.value| == 2 * KeptPart(maxLength) + |Ellipsis|
    ensures r.Ok? && maxLength >= 3 ==> maxLength - 1 <= |r.value| <= maxLength || r.value == path
  {
    if |path| <= maxLength then Ok(path)
    else
      var part := KeptPart(maxLength);
      if part < 0 then Err(ArgumentOutOfRange)
      else Ok(path[..part] + Ellipsis + path[|path| - part..])
  }

  /** The shape of a shortened path: its head and tail come from the path, with the ellipsis between them. */
  lemma TruncatedShape(path: string, maxLength: Int32)
    requires |path| > maxLength >= 2
    ensures var part := KeptPart(maxLength);
      && 0 <= part
      && TruncatePath(path, maxLength).Ok?
      && var shown := TruncatePath(path, maxLength).value;
      && shown[..part] == path[..part]
      && shown[part..part + 3] == Ellipsis
      && shown[part + 3..] == path[|path| - part..]
  {
  }

  /** At the call site the limit is 50: the call never throws, and a long path shows 23 characters, `"..."`, 23 characters. */
  lemma PathColumnNeverThrows(path: string)
    ensures TruncatePath(path, PathColumnWidth).Ok?
    ensures |TruncatePath(path, PathColumnWidth).value| <= PathColumnWidth
    ensures |path| > PathColumnWidth ==> |TruncatePath(path, PathColumnWidth).value| == 49
    ensures |path| > PathColumnWidth ==> TruncatePath(path, PathColumnWidth).value[..23] == path[..23]
  {
    assert KeptPart(PathColumnWidth) == 23;
  }

  /** With a limit of 2 the ellipsis alone is returned, one character over the limit. */
  lemma LimitTwoOverflows(path: string)
    requires |path| > 2
    ensures TruncatePath(path, 2) == Ok(Ellipsis)
  {
    assert KeptPart(2) == 0;
    assert path[..0] + Ellipsis + path[|path|..] == Ellipsis;
  }
}
