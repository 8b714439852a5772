/**
 * A struct column: one field column per struct member plus the members'
 * names. Every row-changing operation forwards to all field columns, so the
 * invariant is that all fields hold the same number of rows and that there
 * are as many names as fields.
 *
 * A field column is a value here: its rows and the few behaviours of the
 * field's own column class that the struct column relies on (whether it is
 * nullable, whether it is a large column, what append_default adds and what
 * resize pads with). A field column's debug_item, byte size and checksum
 * are parameters that receive the field column itself, so fields of
 * different column classes may render, size and checksum differently.
 */
module StructColumns {
  import opened Wrappers

  /** A cell value; a struct datum holds one item per field. */
  datatype Datum = DNull | DInt(i: int) | DString(s: string) | DStruct(items: seq<Datum>)

  /** A field column as the struct column sees it. */
  datatype Column = Column(
    rows: seq<Datum>,
    nullable: bool,
    large: bool,
    defaultValue: Datum,
    resizeValue: Datum)

  /** The column with `more` rows added at the end; nothing else changes. */
  function Appended(c: Column, more: seq<Datum>): Column {
    c.(rows := c.rows + more)
  }

  /** `n` copies of `x`. */
  function Repeat(x: Datum, n: nat): (r: seq<Datum>)
    ensures |r| == n
    ensures forall i :: 0 <= i < n ==> r[i] == x
  {
    if n == 0 then [] else Repeat(x, n - 1) + [x]
  }

  /** The column cut to its first `n` rows, or padded to `n` rows with its resize value. */
  function Resized(c: Column, n: nat): (r: Column)
    ensures |r.rows| == n
    ensures forall i :: 0 <= i < n && i < |c.rows| ==> r.rows[i] == c.rows[i]
    ensures forall i :: |c.rows| <= i < n ==> r.rows[i] == c.resizeValue
    ensures r.nullable == c.nullable && r.large == c.large
    ensures r.defaultValue == c.defaultValue && r.resizeValue == c.resizeValue
  {
    if n <= |c.rows| then c.(rows := c.rows[..n])
    else Appended(c, Repeat(c.resizeValue, n - |c.rows|))
  }

  /** Every field has more than `idx` rows. */
  predicate HasRow(fs: seq<Column>, idx: nat) {
    forall k :: 0 <= k < |fs| ==> idx < |fs[k].rows|
  }

  /** Row `idx` across the fields: item i is field i's row `idx`. */
  function RowAt(fs: seq<Column>, idx: nat): (r: seq<Datum>)
    requires HasRow(fs, idx)
    ensures |r| == |fs|
    ensures forall i :: 0 <= i < |fs| ==> r[i] == fs[i].rows[idx]
  {
    if |fs| == 0 then [] else RowAt(fs[..|fs| - 1], idx) + [fs[|fs| - 1].rows[idx]]
  }

  /** Adding one row to every column of a rectangle makes it readable back at the old height, and keeps older rows. */
  lemma RowAtAfterAppend(fs: seq<Column>, fs': seq<Column>, items: seq<Datum>, n: nat)
    requires |fs| == |fs'| == |items|
    requires forall k :: 0 <= k < |fs| ==> |fs[k].rows| == n && fs'[k] == Appended(fs[k], [items[k]])
    ensures HasRow(fs', n) && RowAt(fs', n) == items
    ensures forall j :: 0 <= j < n ==> HasRow(fs', j) && HasRow(fs, j) && RowAt(fs', j) == RowAt(fs, j)
  {
    forall j | 0 <= j < n
      ensures HasRow(fs', j) && HasRow(fs, j) && RowAt(fs', j) == RowAt(fs, j)
    {
      forall k | 0 <= k < |fs|
        ensures j < |fs'[k].rows| && j < |fs[k].rows| && fs'[k].rows[j] == fs[k].rows[j]
      {
        assert fs'[k].rows == fs[k].rows + [items[k]];
      }
      var a, b := RowAt(fs', j), RowAt(fs, j);
      assert forall k :: 0 <= k < |fs| ==> a[k] == b[k];
    }
    forall k | 0 <= k < |fs|
      ensures n < |fs'[k].rows| && fs'[k].rows[n] == items[k]
    {
      assert fs'[k].rows == fs[k].rows + [items[k]];
    }
  }

  /** Appending rows [offset, offset + count) of src to a rectangle of height n puts src's row offset + j at height n + j. */
  lemma RowAtAfterAppendRange(fs: seq<Column>, fs': seq<Column>, src: seq<Column>, offset: nat, count: nat, n: nat)
    requires |fs| == |fs'| == |src|
    requires forall k :: 0 <= k < |fs| ==>
      |fs[k].rows| == n && offset + count <= |src[k].rows| && fs'[k] == Appended(fs[k], src[k].rows[offset..offset + count])
    ensures forall j :: n <= j < n + count ==>
      HasRow(fs', j) && HasRow(src, j - n + offset) && RowAt(fs', j) == RowAt(src, j - n + offset)
  {
    forall j | n <= j < n + count
      ensures HasRow(fs', j) && HasRow(src, j - n + offset) && RowAt(fs', j) == RowAt(src, j - n + offset)
    {
      forall k | 0 <= k < |fs|
        ensures j < |fs'[k].rows| && j - n + offset < |src[k].rows| && fs'[k].rows[j] == src[k].rows[j - n + offset]
      {
        assert fs'[k].rows == fs[k].rows + src[k].rows[offset..offset + count];
      }
      var a, b := RowAt(fs', j), RowAt(src, j - n + offset);
      assert forall k :: 0 <= k < |fs| ==> a[k] == b[k];
    }
  }

  /** Sum of the fields' sizes under a per-field size function. */
  function SumSizes(fs: seq<Column>, size: Column -> nat): nat
    decreases |fs|
  {
    if |fs| == 0 then 0 else SumSizes(fs[..|fs| - 1], size) + size(fs[|fs| - 1])
  }

  /** No field is bigger than the sum over all fields. */
  lemma {:induction false} SumSizesBoundsEach(fs: seq<Column>, size: Column -> nat)
    ensures forall i :: 0 <= i < |fs| ==> size(fs[i]) <= SumSizes(fs, size)
    decreases |fs|
  {
    if |fs| > 0 {
      var init := fs[..|fs| - 1];
      SumSizesBoundsEach(init, size);
      assert forall i :: 0 <= i < |init| ==> init[i] == fs[i];
    }
  }

  /** Parts joined with ", " between consecutive parts. */
  function Join(parts: seq<string>): string
    decreases |parts|
  {
    if |parts| == 0 then ""
    else if |parts| == 1 then parts[0]
    else Join(parts[..|parts| - 1]) + ", " + parts[|parts| - 1]
  }

  /** Joining one more part adds a separator only when parts came before it. */
  lemma JoinSnoc(parts: seq<string>, i: nat)
    requires i < |parts|
    ensures Join(parts[..i + 1]) == Join(parts[..i]) + (if i > 0 then ", " else "") + parts[i]
  {
    assert parts[..i + 1][..i] == parts[..i];
  }

  /** One more entry of debug_item: the entry, then a separator unless it is the last one. */
  lemma ItemTextStep(es: seq<string>, i: nat, s: string, entry: string)
    requires i < |es| && entry == es[i]
    requires s == "{" + Join(es[..i]) + (if 0 < i then ", " else "")
    ensures s + entry + (if i < |es| - 1 then ", " else "")
            == "{" + Join(es[..i + 1]) + (if 0 < i + 1 < |es| then ", " else "")
  {
    JoinSnoc(es, i);
  }

  function TotalLength(parts: seq<string>): nat
    decreases |parts|
  {
    if |parts| == 0 then 0 else TotalLength(parts[..|parts| - 1]) + |parts[|parts| - 1]|
  }

  /** Joining n > 0 parts adds exactly n - 1 separators of two characters. */
  lemma {:induction false} JoinLength(parts: seq<string>)
    requires |parts| > 0
    ensures |Join(parts)| == TotalLength(parts) + 2 * (|parts| - 1)
    decreases |parts|
  {
    if |parts| > 1 {
      var init := parts[..|parts| - 1];
      JoinLength(init);
    }
  }

  /**
   * The rendering of field i at row idx: its name, ": ", and the field
   * column's own debug_item of the row, `render(fs[i], idx)`.
   */
  function Entries(names: seq<string>, fs: seq<Column>, idx: nat, render: (Column, nat) -> string): (r: seq<string>)
    requires |names| >= |fs| && HasRow(fs, idx)
    ensures |r| == |fs|
    ensures forall i :: 0 <= i < |fs| ==> r[i] == names[i] + ": " + render(fs[i], idx)
  {
    if |fs| == 0 then []
    else Entries(names, fs[..|fs| - 1], idx, render) + [names[|fs| - 1] + ": " + render(fs[|fs| - 1], idx)]
  }

  /** debug_item's text: the entries between braces, separated by ", ". */
  function ItemText(names: seq<string>, fs: seq<Column>, idx: nat, render: (Column, nat) -> string): (s: string)
    requires |names| >= |fs| && HasRow(fs, idx)
    ensures |s| >= 2 && s[0] == '{' && s[|s| - 1] == '}'
  {
    "{" + Join(Entries(names, fs, idx, render)) + "}"
  }

  /** The items of the first n rows. */
  function Items(names: seq<string>, fs: seq<Column>, n: nat, render: (Column, nat) -> string): (r: seq<string>)
    requires |names| >= |fs| && forall k :: 0 <= k < |fs| ==> n <= |fs[k].rows|
    ensures |r| == n
    ensures forall j :: 0 <= j < n ==> HasRow(fs, j) && r[j] == ItemText(names, fs, j, render)
  {
    if n == 0 then [] else Items(names, fs, n - 1, render) + [ItemText(names, fs, n - 1, render)]
  }

  /** A two-field row renders as "{a: 1, b: x}". */
  lemma ItemTextExample(render: (Column, nat) -> string)
    requires render(Column([DInt(1)], true, false, DNull, DNull), 0) == "1"
    requires render(Column([DString("x")], true, false, DNull, DNull), 0) == "x"
    ensures ItemText(["a", "b"], [Column([DInt(1)], true, false, DNull, DNull), Column([DString("x")], true, false, DNull, DNull)], 0, render)
            == "{a: 1, b: x}"
  {
    var fs := [Column([DInt(1)], true, false, DNull, DNull), Column([DString("x")], true, false, DNull, DNull)];
    var es := Entries(["a", "b"], fs, 0, render);
    assert es[0] == "a: 1" && es[1] == "b: x";
    assert es[..1] == ["a: 1"];
    assert Join(es) == "a: 1" + ", " + "b: x";
    assert ItemText(["a", "b"], fs, 0, render) == "{" + "a: 1" + ", " + "b: x" + "}";
  }

  /** XOR of the fields' checksums over the row range. */
  function XorFold(fs: seq<Column>, from: nat, to: nat, checksum: (Column, nat, nat) -> bv64): bv64
    decreases |fs|
  {
    if |fs| == 0 then 0 else XorFold(fs[..|fs| - 1], from, to, checksum) ^ checksum(fs[|fs| - 1], from, to)
  }

  /** A single field's checksum survives the fold, so a struct column of one field with a non-zero checksum has a non-zero fold. */
  lemma XorFoldSingle(c: Column, from: nat, to: nat, checksum: (Column, nat, nat) -> bv64)
    ensures XorFold([c], from, to, checksum) == checksum(c, from, to)
  {
    assert [c][..0] == [];
  }

  /** The struct column. */
  class StructColumn {
    var fields: seq<Column>
    var names: seq<string>

    /** At least one field, one name per field, and the same number of rows in every field. */
    ghost predicate Valid()
      reads this
    {
      && |fields| > 0
      && |names| == |fields|
      && forall i :: 0 <= i < |fields| ==> |fields[i].rows| == |fields[0].rows|
    }

    /** A struct column over fields of equal length, one name per field. */
    constructor (fields: seq<Column>, names: seq<string>)
      requires |fields| > 0 && |names| == |fields|
      requires forall i :: 0 <= i < |fields| ==> |fields[i].rows| == |fields[0].rows|
      ensures this.fields == fields && this.names == names
      ensures Valid()
    {
      this.fields := fields;
      this.names := names;
    }

    /** The number of rows: field 0's, and under the invariant every field's. */
    function Size(): (n: nat)
      reads this
      requires |fields| > 0
      ensures n == |fields[0].rows|
      ensures Valid() ==> forall i :: 0 <= i < |fields| ==> |fields[i].rows| == n
      ensures Valid() ==> forall j :: 0 <= j < n ==> HasRow(fields, j)
    {
      |fields[0].rows|
    }

    /** check_or_die's structural demands: a field exists and names and fields pair up. */
    function CheckOrDie(): (ok: bool)
      reads this
      ensures ok <==> |fields| > 0 && |fields| == |names|
      ensures Valid() ==> ok
    {
      |fields| > 0 && |names| > 0 && |fields| == |names|
    }

    /** Row idx as a struct datum with one item per field. */
    method Get(idx: nat) returns (d: Datum)
      requires Valid() && idx < Size()
      ensures d.DStruct? && |d.items| == |fields|
      ensures forall i :: 0 <= i < |fields| ==> d.items[i] == fields[i].rows[idx]
      ensures d == DStruct(RowAt(fields, idx))
    {
      var res := [];
      for i := 0 to |fields|
        invariant |res| == i
        invariant forall k :: 0 <= k < i ==> res[k] == fields[k].rows[idx]
      {
        res := res + [fields[i].rows[idx]];
      }
      d := DStruct(res);
    }

    /** Adds one row: item i of the struct datum goes to field i. */
    method AppendDatum(d: Datum)
      requires Valid()
      requires d.DStruct? && |d.items| == |fields|
      modifies this
      ensures Valid() && names == old(names) && |fields| == |old(fields)|
      ensures forall i :: 0 <= i < |fields| ==> fields[i] == Appended(old(fields)[i], [d.items[i]])
      ensures Size() == old(Size()) + 1
      ensures RowAt(fields, old(Size())) == d.items
      ensures forall j :: 0 <= j < old(Size()) ==> RowAt(fields, j) == RowAt(old(fields), j)
    {
      for col := 0 to |d.items|
        invariant |fields| == |old(fields)| && names == old(names)
        invariant forall i :: 0 <= i < col ==> fields[i] == Appended(old(fields)[i], [d.items[i]])
        invariant forall i :: col <= i < |fields| ==> fields[i] == old(fields)[i]
      {
        fields := fields[col := Appended(fields[col], [d.items[col]])];
      }
      RowAtAfterAppend(old(fields), fields, d.items, old(Size()));
    }

    /** Adds rows [offset, offset + count) of src, field by field; src may be this column. */
    method Append(src: StructColumn, offset: nat, count: nat)
      requires Valid() && src.Valid()
      requires |src.fields| == |fields|
      requires offset + count <= src.Size()
      modifies this
      ensures Valid() && names == old(names) && |fields| == |old(fields)|
      ensures forall i :: 0 <= i < |fields| ==>
        fields[i] == Appended(old(fields)[i], old(src.fields)[i].rows[offset..offset + count])
      ensures Size() == old(Size()) + count
      ensures forall j :: old(Size()) <= j < Size() ==>
        HasRow(old(src.fields), j - old(Size()) + offset) && RowAt(fields, j) == RowAt(old(src.fields), j - old(Size()) + offset)
    {
      // Field i only reads field i of src, so reading src's fields up front gives
      // the same result when src is this column.
      var from := src.fields;
      for i := 0 to |fields|
        invariant |fields| == |old(fields)| && names == old(names)
        invariant forall k :: 0 <= k < i ==>
          fields[k] == Appended(old(fields)[k], from[k].rows[offset..offset + count])
        invariant forall k :: i <= k < |fields| ==> fields[k] == old(fields)[k]
      {
        fields := fields[i := Appended(fields[i], from[i].rows[offset..offset + count])];
      }
      RowAtAfterAppendRange(old(fields), fields, from, offset, count, old(Size()));
    }

    /** Adds count nulls to every field, but only when every field is nullable; otherwise changes nothing. */
    method AppendNulls(count: nat) returns (ok: bool)
      requires Valid()
      modifies this
      ensures Valid() && names == old(names) && |fields| == |old(fields)|
      ensures ok <==> forall i :: 0 <= i < |old(fields)| ==> old(fields)[i].nullable
      ensures ok ==> forall i :: 0 <= i < |fields| ==> fields[i] == Appended(old(fields)[i], Repeat(DNull, count))
      ensures !ok ==> fields == old(fields)
      ensures ok ==> forall j :: old(Size()) <= j < Size() ==> RowAt(fields, j) == Repeat(DNull, |fields|)
    {
      for i := 0 to |fields|
        invariant forall k :: 0 <= k < i ==> fields[k].nullable
      {
        if !fields[i].nullable {
          return false;
        }
      }
      for i := 0 to |fields|
        invariant |fields| == |old(fields)| && names == old(names)
        invariant forall k :: 0 <= k < i ==> fields[k] == Appended(old(fields)[k], Repeat(DNull, count))
        invariant forall k :: i <= k < |fields| ==> fields[k] == old(fields)[k]
      {
        fields := fields[i := Appended(fields[i], Repeat(DNull, count))];
      }
      forall j | old(Size()) <= j < Size()
        ensures RowAt(fields, j) == Repeat(DNull, |fields|)
      {
        var r := RowAt(fields, j);
        assert forall k :: 0 <= k < |fields| ==> r[k] == DNull;
      }
      return true;
    }

    /** Adds count rows to every field, each field's own default value. */
    method AppendDefaults(count: nat)
      requires Valid()
      modifies this
      ensures Valid() && names == old(names) && |fields| == |old(fields)|
      ensures forall i :: 0 <= i < |fields| ==> fields[i] == Appended(old(fields)[i], Repeat(old(fields)[i].defaultValue, count))
      ensures Size() == old(Size()) + count
    {
      for i := 0 to |fields|
        invariant |fields| == |old(fields)| && names == old(names)
        invariant forall k :: 0 <= k < i ==> fields[k] == Appended(old(fields)[k], Repeat(old(fields)[k].defaultValue, count))
        invariant forall k :: i <= k < |fields| ==> fields[k] == old(fields)[k]
      {
        fields := fields[i := Appended(fields[i], Repeat(fields[i].defaultValue, count))];
      }
    }

    /** Adds one row holding each field's default value. */
    method AppendDefault()
      requires Valid()
      modifies this
      ensures Valid() && names == old(names) && |fields| == |old(fields)|
      ensures forall i :: 0 <= i < |fields| ==> fields[i] == Appended(old(fields)[i], [old(fields)[i].defaultValue])
      ensures Size() == old(Size()) + 1
    {
      AppendDefaults(1);
      assert forall x :: Repeat(x, 1) == [x];
    }

    /** Drops the first count rows of every field. */
    method RemoveFirstNValues(count: nat)
      requires Valid() && count <= Size()
      modifies this
      ensures Valid() && names == old(names) && |fields| == |old(fields)|
      ensures forall i :: 0 <= i < |fields| ==> fields[i] == old(fields)[i].(rows := old(fields)[i].rows[count..])
      ensures Size() == old(Size()) - count
      ensures forall j :: 0 <= j < Size() ==> RowAt(fields, j) == RowAt(old(fields), j + count)
    {
      for i := 0 to |fields|
        invariant |fields| == |old(fields)| && names == old(names)
        invariant forall k :: 0 <= k < i ==> fields[k] == old(fields)[k].(rows := old(fields)[k].rows[count..])
        invariant forall k :: i <= k < |fields| ==> fields[k] == old(fields)[k]
      {
        fields := fields[i := fields[i].(rows := fields[i].rows[count..])];
      }
      forall j | 0 <= j < Size()
        ensures RowAt(fields, j) == RowAt(old(fields), j + count)
      {
        var a, b := RowAt(fields, j), RowAt(old(fields), j + count);
        assert forall k :: 0 <= k < |fields| ==> a[k] == b[k];
      }
    }

    /** Cuts or pads every field to n rows. */
    method Resize(n: nat)
      requires Valid()
      modifies this
      ensures Valid() && names == old(names) && |fields| == |old(fields)|
      ensures forall i :: 0 <= i < |fields| ==> fields[i] == Resized(old(fields)[i], n)
      ensures Size() == n
      ensures forall j :: 0 <= j < n && j < old(Size()) ==> RowAt(fields, j) == RowAt(old(fields), j)
    {
      for i := 0 to |fields|
        invariant |fields| == |old(fields)| && names == old(names)
        invariant forall k :: 0 <= k < i ==> fields[k] == Resized(old(fields)[k], n)
        invariant forall k :: i <= k < |fields| ==> fields[k] == old(fields)[k]
      {
        fields := fields[i := Resized(fields[i], n)];
      }
      forall j | 0 <= j < n && j < old(Size())
        ensures RowAt(fields, j) == RowAt(old(fields), j)
      {
        var a, b := RowAt(fields, j), RowAt(old(fields), j);
        assert forall k :: 0 <= k < |fields| ==> a[k] == b[k];
      }
    }

    /** A column with the same fields and names and no rows. */
    method CloneEmpty() returns (c: StructColumn)
      requires Valid()
      ensures fresh(c) && c.Valid()
      ensures c.names == names && |c.fields| == |fields|
      ensures forall i :: 0 <= i < |fields| ==> c.fields[i] == fields[i].(rows := [])
    {
      var fs := [];
      for i := 0 to |fields|
        invariant |fs| == i
        invariant forall k :: 0 <= k < i ==> fs[k] == fields[k].(rows := [])
      {
        fs := fs + [fields[i].(rows := [])];
      }
      c := new StructColumn(fs, names);
    }

    /** Adds count copies of a struct datum, one whole row at a time. */
    method AppendValueMultipleTimes(d: Datum, count: nat)
      requires Valid()
      requires d.DStruct? && |d.items| == |fields|
      modifies this
      ensures Valid() && names == old(names) && |fields| == |old(fields)|
      ensures forall i :: 0 <= i < |fields| ==> fields[i] == Appended(old(fields)[i], Repeat(d.items[i], count))
    {
      for c := 0 to count
        invariant |fields| == |old(fields)| && names == old(names)
        invariant forall k :: 0 <= k < |fields| ==> fields[k] == Appended(old(fields)[k], Repeat(d.items[k], c))
      {
        for i := 0 to |d.items|
          invariant |fields| == |old(fields)| && names == old(names)
          invariant forall k :: 0 <= k < i ==> fields[k] == Appended(old(fields)[k], Repeat(d.items[k], c + 1))
          invariant forall k :: i <= k < |fields| ==> fields[k] == Appended(old(fields)[k], Repeat(d.items[k], c))
        {
          fields := fields[i := Appended(fields[i], [d.items[i]])];
        }
      }
    }

    /** Exchanges the field columns of two struct columns; the names stay where they are. */
    method SwapColumn(rhs: StructColumn)
      requires rhs != this && |rhs.fields| == |fields|
      modifies this, rhs
      ensures fields == old(rhs.fields) && rhs.fields == old(fields)
      ensures names == old(names) && rhs.names == old(rhs.names)
    {
      for i := 0 to |fields|
        invariant |fields| == |rhs.fields| == |old(fields)|
        invariant names == old(names) && rhs.names == old(rhs.names)
        invariant forall k :: 0 <= k < i ==> fields[k] == old(rhs.fields)[k] && rhs.fields[k] == old(fields)[k]
        invariant forall k :: i <= k < |fields| ==> fields[k] == old(fields)[k] && rhs.fields[k] == old(rhs.fields)[k]
      {
        var mine := fields[i];
        fields := fields[i := rhs.fields[i]];
        rhs.fields := rhs.fields[i := mine];
      }
    }

    /** Leaves exactly n rows, each equal to the old row idx. */
    method Assign(n: nat, idx: nat)
      requires Valid() && idx < Size()
      modifies this
      ensures Valid() && names == old(names) && |fields| == |old(fields)|
      ensures forall i :: 0 <= i < |fields| ==> fields[i] == old(fields)[i].(rows := Repeat(old(fields)[i].rows[idx], n))
      ensures Size() == n
      ensures forall j :: 0 <= j < n ==> RowAt(fields, j) == RowAt(old(fields), idx)
    {
      var desc := CloneEmpty();
      var datum := Get(idx);
      desc.AppendValueMultipleTimes(datum, n);
      SwapColumn(desc);
      forall j | 0 <= j < n
        ensures RowAt(fields, j) == RowAt(old(fields), idx)
      {
        var a, b := RowAt(fields, j), RowAt(old(fields), idx);
        assert forall k :: 0 <= k < |fields| ==> a[k] == b[k];
      }
    }

    /** The field at the first position whose name is `name`, or None when no name matches. */
    method FieldColumn(name: string) returns (r: Option<Column>)
      requires Valid()
      ensures r.None? <==> name !in names
      ensures r.Some? ==> exists i :: 0 <= i < |names| && names[i] == name && r.value == fields[i]
                            && forall k :: 0 <= k < i ==> names[k] != name
    {
      for i := 0 to |names|
        invariant forall k :: 0 <= k < i ==> names[k] != name
      {
        if name == names[i] {
          return Some(fields[i]);
        }
      }
      return None;
    }

    /** The fields' byte sizes summed, plus the byte size of the names. */
    method ByteSize(fieldSize: Column -> nat, namesSize: seq<string> -> nat) returns (total: nat)
      ensures total == SumSizes(fields, fieldSize) + namesSize(names)
      ensures total >= namesSize(names)
      ensures forall i :: 0 <= i < |fields| ==> fieldSize(fields[i]) <= total
    {
      total := 0;
      for i := 0 to |fields|
        invariant total == SumSizes(fields[..i], fieldSize)
      {
        assert fields[..i + 1][..i] == fields[..i];
        total := total + fieldSize(fields[i]);
      }
      assert fields[..|fields|] == fields;
      SumSizesBoundsEach(fields, fieldSize);
      total := total + namesSize(names);
    }

    /** Whether some field is a large column. */
    method HasLargeColumn() returns (res: bool)
      ensures res <==> exists i :: 0 <= i < |fields| && fields[i].large
    {
      res := false;
      for i := 0 to |fields|
        invariant res <==> exists k :: 0 <= k < i && fields[k].large
      {
        res := res || fields[i].large;
      }
    }

    /** Renders row idx as "{name0: item0, name1: item1, ...}". */
    method DebugItem(idx: nat, render: (Column, nat) -> string) returns (s: string)
      requires Valid() && idx < Size()
      ensures s == ItemText(names, fields, idx, render)
    {
      ghost var es := Entries(names, fields, idx, render);
      s := "{";
      for i := 0 to |fields|
        invariant s == "{" + Join(es[..i]) + (if 0 < i < |fields| then ", " else "")
      {
        var entry := names[i] + ": " + render(fields[i], idx);
        ItemTextStep(es, i, s, entry);
        s := s + entry;
        if i < |fields| - 1 {
          s := s + ", ";
        }
      }
      assert es[..|fields|] == es;
      s := s + "}";
    }

    /** Renders every row with DebugItem, joined by ", ". */
    method DebugString(render: (Column, nat) -> string) returns (s: string)
      requires Valid()
      ensures s == Join(Items(names, fields, Size(), render))
      ensures Size() > 0 ==> |s| == TotalLength(Items(names, fields, Size(), render)) + 2 * (Size() - 1)
    {
      ghost var items := Items(names, fields, Size(), render);
      s := "";
      for i := 0 to Size()
        invariant s == Join(items[..i])
      {
        JoinSnoc(items, i);
        if i > 0 {
          s := s + ", ";
        }
        var item := DebugItem(i, render);
        assert item == items[i];
        s := s + item;
      }
      assert items[..Size()] == items;
      if Size() > 0 {
        JoinLength(items);
      }
    }

    /** xor_checksum as written: the fields' checksums are computed and discarded, and 0 is returned. */
    method XorChecksum(from: nat, to: nat, checksum: (Column, nat, nat) -> bv64) returns (r: bv64)
      ensures r == 0
    {
      var xorChecksum: bv64 := 0;
      for i := 0 to |fields| {
        var discarded := checksum(fields[i], from, to);
      }
      return xorChecksum;
    }

    /** xor_checksum as evidently intended: the XOR of the fields' checksums. */
    method XorChecksumOfFields(from: nat, to: nat, checksum: (Column, nat, nat) -> bv64) returns (r: bv64)
      ensures r == XorFold(fields, from, to, checksum)
    {
      r := 0;
      for i := 0 to |fields|
        invariant r == XorFold(fields[..i], from, to, checksum)
      {
        assert fields[..i + 1][..i] == fields[..i];
        r := r ^ checksum(fields[i], from, to);
      }
      assert fields[..|fields|] == fields;
    }
  }

  /** The discrepancy: a one-field struct column whose field checksum is 1 has fold 1, where xor_checksum returns 0. */
  lemma XorChecksumDiscardsFields(c: Column, from: nat, to: nat, checksum: (Column, nat, nat) -> bv64)
    requires checksum(c, from, to) == 1
    ensures XorFold([c], from, to, checksum) != 0
  {
    XorFoldSingle(c, from, to, checksum);
  }
}
