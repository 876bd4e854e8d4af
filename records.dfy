/** The values shown in one row of the audit table. */
module Records {
  import opened CSharp

  /** The texture's size in pixels, shown as `width×height`. */
  datatype Resolution = Resolution(width: Int32, height: Int32)

  /** The columns a scan recomputes for an asset every time it is seen. */
  datatype Attributes = Attributes(
    mipmap: bool,
    powerOfTwo: bool,
    multipleOfFour: bool,
    isSprite: bool,
    inAtlas: bool,
    addressable: bool,
    resolution: Resolution,
    format: string)

  /** The columns of a record that has been created but not yet filled in. */
  const Unset: Attributes := Attributes(false, false, false, false, false, false, Resolution(0, 0), "")

  /** One row: the name and path fixed when the row was created, and the recomputed columns. */
  datatype Entry = Entry(name: string, path: string, attrs: Attributes)

  /** The rows of `table` in the order in which their keys are enumerated. */
  function ValuesInOrder(order: seq<string>, table: map<string, Entry>): (rows: seq<Entry>)
    requires forall k :: k in order ==> k in table
    ensures |rows| == |order|
    ensures forall i :: 0 <= i < |order| ==> rows[i] == table[order[i]]
    ensures forall k :: k in order ==> table[k] in rows
  {
    var rows := seq(|order|, i requires 0 <= i < |order| => table[order[i]]);
    assert forall k :: k in order ==> exists i :: 0 <= i < |order| && order[i] == k && rows[i] == table[k];
    rows
  }
}
