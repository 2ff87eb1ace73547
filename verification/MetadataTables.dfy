/** The metadata tables of a .NET assembly (sections II.22 and II.24.2.6 of ECMA-335): row counts, row
    sizes, where each table starts, and the cells in it.

    The width of a column can depend on the heap flags, on the row count of one table or, for a coded
    index, on the row counts of several; the width of a row is the sum over its columns, and a table
    starts where the one before it ends. What is proved is that this arithmetic fits together: the
    regions do not overlap and stay inside the stream, a cell lies in its own row and nowhere else,
    and a narrow column can hold every value it may have to hold. Layout results are about any
    assignment of columns to tables, `Schema` being the standard's. */
module MetadataTables {
  import opened Wrappers

  newtype byte = x: int | 0 <= x < 256

  /** A fixed-width little-endian number. */
  function Le(data: seq<byte>, at: nat, n: nat): nat
    requires at + n <= |data|
    decreases n
  {
    if n == 0 then 0 else data[at] as nat + 256 * Le(data, at + 1, n - 1)
  }

  function Read(data: seq<byte>, at: nat, n: nat): Option<nat> {
    if at + n <= |data| then Some(Le(data, at, n)) else None
  }

  function Pow2(k: nat): (p: nat)
    ensures p > 0
  {
    if k == 0 then 1 else 2 * Pow2(k - 1)
  }

  predicate Bit(v: nat, k: nat) { v / Pow2(k) % 2 == 1 }

  // ---------------------------------------------------------------- coded indexes

  datatype Coded =
    | TypeDefOrRef | HasConstant | HasCustomAttribute | HasFieldMarshal | HasDeclSecurity | MemberRefParent
    | HasSemantics | MethodDefOrRef | MemberForwarded | Implementation | CustomAttributeType | ResolutionScope
    | TypeOrMethodDef

  function TagBits(kind: Coded): (bits: nat)
    ensures bits <= 5
  {
    match kind
    case TypeDefOrRef => 2
    case HasConstant => 2
    case HasCustomAttribute => 5
    case HasFieldMarshal => 1
    case HasDeclSecurity => 2
    case MemberRefParent => 3
    case HasSemantics => 1
    case MethodDefOrRef => 1
    case MemberForwarded => 1
    case Implementation => 2
    case CustomAttributeType => 3
    case ResolutionScope => 2
    case TypeOrMethodDef => 1
  }

  /** The table of each tag; `None` for an unused tag. */
  function Targets(kind: Coded): (tables: seq<Option<nat>>)
    ensures |tables| <= Pow2(TagBits(kind))
  {
    var r :=
      match kind
      case TypeDefOrRef => [Some(0x02), Some(0x01), Some(0x1B)]
      case HasConstant => [Some(0x04), Some(0x08), Some(0x17)]
      case HasCustomAttribute =>
        [Some(0x06), Some(0x04), Some(0x01), Some(0x02), Some(0x08), Some(0x09), Some(0x0A), Some(0x00), Some(0x0E),
         Some(0x17), Some(0x14), Some(0x11), Some(0x1A), Some(0x1B), Some(0x20), Some(0x23), Some(0x26), Some(0x27),
         Some(0x28), Some(0x2A), Some(0x2C), Some(0x2B)]
      case HasFieldMarshal => [Some(0x04), Some(0x08)]
      case HasDeclSecurity => [Some(0x02), Some(0x06), Some(0x20)]
      case MemberRefParent => [Some(0x02), Some(0x01), Some(0x1A), Some(0x06), Some(0x1B)]
      case HasSemantics => [Some(0x14), Some(0x17)]
      case MethodDefOrRef => [Some(0x06), Some(0x0A)]
      case MemberForwarded => [Some(0x04), Some(0x06)]
      case Implementation => [Some(0x26), Some(0x23), Some(0x27)]
      case CustomAttributeType => [None, None, Some(0x06), Some(0x0A), None]
      case ResolutionScope => [Some(0x00), Some(0x1A), Some(0x23), Some(0x01)]
      case TypeOrMethodDef => [Some(0x02), Some(0x06)];
    assert Pow2(1) == 2 && Pow2(2) == 4 && Pow2(3) == 8;
    assert Pow2(5) == 4 * Pow2(3);
    r
  }

  /** The table and one-based row a coded value points at. */
  function Decode(kind: Coded, value: nat): Option<(nat, nat)> {
    var tag := value % Pow2(TagBits(kind));
    if tag >= |Targets(kind)| then None
    else match Targets(kind)[tag]
         case None => None
         case Some(table) => Some((table, value / Pow2(TagBits(kind))))
  }

  /** The value that names row `row` of the table with tag `tag`. */
  function Encode(kind: Coded, tag: nat, row: nat): nat { row * Pow2(TagBits(kind)) + tag }

  lemma {:induction false} MulGap(a: nat, b: nat, p: nat)
    requires a < b
    ensures a * p + p <= b * p
    decreases b
  {
    if a + 1 < b { MulGap(a, b - 1, p); }
    assert b * p == (b - 1) * p + p;
  }

  lemma SameParts(q: nat, r: nat, q': nat, r': nat, p: nat)
    requires r < p && r' < p && q * p + r == q' * p + r'
    ensures q == q' && r == r'
  {
    if q < q' { MulGap(q, q', p); }
    if q' < q { MulGap(q', q, p); }
  }

  lemma DivMod(row: nat, tag: nat, p: nat)
    requires tag < p
    ensures (row * p + tag) % p == tag && (row * p + tag) / p == row
  {
    var v := row * p + tag;
    SameParts(row, tag, v / p, v % p, p);
  }

  ghost predicate Names(kind: Coded, tag: nat, table: nat) {
    tag < |Targets(kind)| && Targets(kind)[tag] == Some(table)
  }

  lemma DecodeOfEncode(kind: Coded, tag: nat, table: nat, row: nat)
    requires Names(kind, tag, table)
    ensures Decode(kind, Encode(kind, tag, row)) == Some((table, row))
  {
    DivMod(row, tag, Pow2(TagBits(kind)));
  }

  lemma EncodeOfDecode(kind: Coded, table: nat, row: nat, value: nat) returns (tag: nat)
    requires Decode(kind, value) == Some((table, row))
    ensures Names(kind, tag, table) && value == Encode(kind, tag, row)
  {
    var p := Pow2(TagBits(kind));
    tag := value % p;
    assert value == (value / p) * p + tag;
  }

  /** Decoding inverts encoding, and decodes nothing else. */
  lemma DecodeInverts(kind: Coded, table: nat, row: nat, value: nat)
    ensures Decode(kind, value) == Some((table, row)) <==>
            exists tag: nat :: Names(kind, tag, table) && value == Encode(kind, tag, row)
  {
    if Decode(kind, value) == Some((table, row)) {
      var tag := EncodeOfDecode(kind, table, row, value);
    }
    if tag: nat :| Names(kind, tag, table) && value == Encode(kind, tag, row) {
      DecodeOfEncode(kind, tag, table, row);
    }
  }

  // ---------------------------------------------------------------- columns

  datatype Col = U8x2 | U16 | U32 | Str | Guid | Blob | Index(table: nat) | CodedIndex(kind: Coded)

  const TABLES: nat := 0x2D

  function Schema(table: nat): seq<Col> {
    match table
    case 0x00 => [U16, Str, Guid, Guid, Guid]
    case 0x01 => [CodedIndex(ResolutionScope), Str, Str]
    case 0x02 => [U32, Str, Str, CodedIndex(TypeDefOrRef), Index(0x04), Index(0x06)]
    case 0x03 => [Index(0x04)]
    case 0x04 => [U16, Str, Blob]
    case 0x05 => [Index(0x06)]
    case 0x06 => [U32, U16, U16, Str, Blob, Index(0x08)]
    case 0x07 => [Index(0x08)]
    case 0x08 => [U16, U16, Str]
    case 0x09 => [Index(0x02), CodedIndex(TypeDefOrRef)]
    case 0x0A => [CodedIndex(MemberRefParent), Str, Blob]
    case 0x0B => [U8x2, CodedIndex(HasConstant), Blob]
    case 0x0C => [CodedIndex(HasCustomAttribute), CodedIndex(CustomAttributeType), Blob]
    case 0x0D => [CodedIndex(HasFieldMarshal), Blob]
    case 0x0E => [U16, CodedIndex(HasDeclSecurity), Blob]
    case 0x0F => [U16, U32, Index(0x02)]
    case 0x10 => [U32, Index(0x04)]
    case 0x11 => [Blob]
    case 0x12 => [Index(0x02), Index(0x14)]
    case 0x13 => [Index(0x14)]
    case 0x14 => [U16, Str, CodedIndex(TypeDefOrRef)]
    case 0x15 => [Index(0x02), Index(0x17)]
    case 0x16 => [Index(0x17)]
    case 0x17 => [U16, Str, Blob]
    case 0x18 => [U16, Index(0x06), CodedIndex(HasSemantics)]
    case 0x19 => [Index(0x02), CodedIndex(MethodDefOrRef), CodedIndex(MethodDefOrRef)]
    case 0x1A => [Str]
    case 0x1B => [Blob]
    case 0x1C => [U16, CodedIndex(MemberForwarded), Str, Index(0x1A)]
    case 0x1D => [U32, Index(0x04)]
    case 0x1E => [U32, U32]
    case 0x1F => [U32]
    case 0x20 => [U32, U16, U16, U16, U16, U32, Blob, Str, Str]
    case 0x21 => [U32]
    case 0x22 => [U32, U32, U32]
    case 0x23 => [U16, U16, U16, U16, U32, Blob, Str, Str, Blob]
    case 0x24 => [U32, Index(0x23)]
    case 0x25 => [U32, U32, U32, Index(0x23)]
    case 0x26 => [U32, Str, Blob]
    case 0x27 => [U32, U32, Str, Str, CodedIndex(Implementation)]
    case 0x28 => [U32, U32, Str, CodedIndex(Implementation)]
    case 0x29 => [Index(0x02), Index(0x02)]
    case 0x2A => [U16, U16, CodedIndex(TypeOrMethodDef), Str]
    case 0x2B => [CodedIndex(MethodDefOrRef), Blob]
    case 0x2C => [Index(0x2A), CodedIndex(TypeDefOrRef)]
    case _ => []
  }

  /** What the sizes depend on: the row counts and the heap flags. */
  datatype Shape = Shape(rows: seq<nat>, wideStrings: bool, wideGuids: bool, wideBlobs: bool)

  function RowsOf(shape: Shape, table: nat): nat { if table < |shape.rows| then shape.rows[table] else 0 }

  function Wide(wide: bool): nat { if wide then 4 else 2 }

  function MostRows(shape: Shape, tables: seq<Option<nat>>): nat {
    if tables == [] then 0
    else
      var rest := MostRows(shape, tables[1..]);
      if tables[0].Some? && RowsOf(shape, tables[0].value) > rest then RowsOf(shape, tables[0].value) else rest
  }

  function ColSize(shape: Shape, col: Col): (n: nat)
    ensures n == 2 || n == 4
  {
    match col
    case U8x2 => 2
    case U16 => 2
    case U32 => 4
    case Str => Wide(shape.wideStrings)
    case Guid => Wide(shape.wideGuids)
    case Blob => Wide(shape.wideBlobs)
    case Index(table) => Wide(RowsOf(shape, table) > 0xFFFF)
    case CodedIndex(kind) => Wide(MostRows(shape, Targets(kind)) >= Pow2(16 - TagBits(kind)))
  }

  function Width(shape: Shape, cols: seq<Col>): nat
    decreases |cols|
  {
    if cols == [] then 0 else Width(shape, cols[..|cols| - 1]) + ColSize(shape, cols[|cols| - 1])
  }

  lemma {:induction false} MostRowsFacts(shape: Shape, tables: seq<Option<nat>>)
    ensures forall i :: 0 <= i < |tables| && tables[i].Some? ==>
            RowsOf(shape, tables[i].value) <= MostRows(shape, tables)
    ensures MostRows(shape, tables) > 0 ==>
              exists i :: 0 <= i < |tables| && tables[i].Some?
                && RowsOf(shape, tables[i].value) == MostRows(shape, tables)
  {
    if tables != [] {
      MostRowsFacts(shape, tables[1..]);
      forall i | 0 <= i < |tables| && tables[i].Some?
        ensures RowsOf(shape, tables[i].value) <= MostRows(shape, tables)
      {
        if i > 0 { assert tables[1..][i - 1] == tables[i]; }
      }
      if MostRows(shape, tables) > 0 {
        if tables[0].Some? && RowsOf(shape, tables[0].value) == MostRows(shape, tables) {
        } else {
          var j :| 0 <= j < |tables| - 1 && tables[1..][j].Some?
            && RowsOf(shape, tables[1..][j].value) == MostRows(shape, tables[1..]);
          assert tables[j + 1] == tables[1..][j];
        }
      }
    }
  }

  lemma Pow2Sum(a: nat, b: nat)
    ensures Pow2(a + b) == Pow2(a) * Pow2(b)
    decreases a
  {
    if a > 0 { Pow2Sum(a - 1, b); }
  }

  lemma Pow2Sixteen()
    ensures Pow2(16) == 0x1_0000
  {
    Pow2Sum(8, 8);
    Pow2Sum(4, 4);
    assert Pow2(4) == 16;
  }

  /** A coded column is narrow exactly when two bytes hold every row of every table it can point at. */
  lemma NarrowHoldsAll(shape: Shape, kind: Coded)
    ensures ColSize(shape, CodedIndex(kind)) == 2 <==>
            forall tag: nat :: tag < |Targets(kind)| && Targets(kind)[tag].Some?
                               ==> RowsOf(shape, Targets(kind)[tag].value) < Pow2(16 - TagBits(kind))
    ensures forall tag: nat, row: nat :: tag < |Targets(kind)| ==>
              (row < Pow2(16 - TagBits(kind)) <==> Encode(kind, tag, row) < 0x1_0000)
  {
    AllBelow(shape, Targets(kind), Pow2(16 - TagBits(kind)));
    forall tag: nat, row: nat | tag < |Targets(kind)|
      ensures row < Pow2(16 - TagBits(kind)) <==> Encode(kind, tag, row) < 0x1_0000
    {
      NarrowFits(kind, tag, row);
    }
  }

  lemma AllBelow(shape: Shape, tables: seq<Option<nat>>, limit: nat)
    requires limit > 0
    ensures MostRows(shape, tables) < limit <==>
            forall tag: nat :: tag < |tables| && tables[tag].Some? ==> RowsOf(shape, tables[tag].value) < limit
  {
    MostRowsFacts(shape, tables);
  }

  lemma NarrowFits(kind: Coded, tag: nat, row: nat)
    requires tag < |Targets(kind)|
    ensures row < Pow2(16 - TagBits(kind)) <==> Encode(kind, tag, row) < 0x1_0000
  {
    Pow2Sixteen();
    Pow2Sum(16 - TagBits(kind), TagBits(kind));
    FitsBelow(row, tag, Pow2(16 - TagBits(kind)), Pow2(TagBits(kind)));
  }

  lemma FitsBelow(row: nat, tag: nat, limit: nat, p: nat)
    requires tag < p
    ensures row < limit <==> row * p + tag < limit * p
  {
    if row < limit { MulGap(row, limit, p); }
    if limit < row { MulGap(limit, row, p); }
  }

  // ---------------------------------------------------------------- the layout

  datatype Tables = Tables(data: seq<byte>, shape: Shape, start: seq<nat>, rowSize: seq<nat>)

  datatype Fault = Truncated | Unsupported

  /** How many of the first `n` tables are present. */
  function Present(valid: nat, n: nat): nat {
    if n == 0 then 0 else Present(valid, n - 1) + (if Bit(valid, n - 1) then 1 else 0)
  }

  function RowCount(data: seq<byte>, valid: nat, table: nat): Option<nat> {
    if Bit(valid, table) then Read(data, 24 + 4 * Present(valid, table), 4) else Some(0)
  }

  /** Where table `n` starts when the first starts at `base`. */
  function StartOf(schema: nat -> seq<Col>, shape: Shape, base: nat, n: nat): nat {
    if n == 0 then base else StartOf(schema, shape, base, n - 1) + RowsOf(shape, n - 1) * Width(shape, schema(n - 1))
  }

  /** Tables follow each other without gap or overlap, and the last one ends inside the data. */
  ghost predicate Laid(schema: nat -> seq<Col>, t: Tables, base: nat) {
    && |t.shape.rows| == TABLES && |t.start| == TABLES && |t.rowSize| == TABLES
    && (forall k {:trigger t.start[k]} :: 0 <= k < TABLES ==> t.start[k] == StartOf(schema, t.shape, base, k))
    && (forall k {:trigger t.rowSize[k]} :: 0 <= k < TABLES ==> t.rowSize[k] == Width(t.shape, schema(k)))
    && StartOf(schema, t.shape, base, TABLES) <= |t.data|
  }

  ghost predicate Counted(data: seq<byte>, valid: nat, rows: seq<nat>) {
    |rows| == TABLES && forall k :: 0 <= k < TABLES ==> RowCount(data, valid, k) == Some(rows[k])
  }

  function HeaderEnd(heap: nat, valid: nat): nat {
    24 + 4 * Present(valid, TABLES) + (if Bit(heap, 6) then 4 else 0)
  }

  function ShapeOf(heap: nat, rows: seq<nat>): Shape { Shape(rows, Bit(heap, 0), Bit(heap, 1), Bit(heap, 2)) }

  method ReadCounts(data: seq<byte>, valid: nat) returns (r: Result<seq<nat>, Fault>, pos: nat)
    ensures r.Ok? ==> Counted(data, valid, r.value) && pos == 24 + 4 * Present(valid, TABLES)
    ensures r.Err? ==> r.error == Truncated && forall rows :: !Counted(data, valid, rows)
  {
    var rows: seq<nat> := [];
    pos := 24;
    for table := 0 to TABLES
      invariant |rows| == table && pos == 24 + 4 * Present(valid, table)
      invariant forall k :: 0 <= k < table ==> RowCount(data, valid, k) == Some(rows[k])
    {
      var n := 0;
      if Bit(valid, table) {
        var count := Read(data, pos, 4);
        if count.None? {
          assert RowCount(data, valid, table) == None;
          return Err(Truncated), pos;
        }
        n := count.value;
        pos := pos + 4;
      }
      rows := rows + [n];
    }
    r := Ok(rows);
  }

  lemma {:induction false} StartGrows(schema: nat -> seq<Col>, shape: Shape, base: nat, i: nat, j: nat)
    requires i <= j
    ensures StartOf(schema, shape, base, i) <= StartOf(schema, shape, base, j)
    decreases j
  {
    if i < j { StartGrows(schema, shape, base, i, j - 1); }
  }

  /** Reads the table directory. It succeeds exactly when the header is whole, no unknown table is
      present, and all rows of all tables fit the data. */
  method Parse(data: seq<byte>, schema: nat -> seq<Col>) returns (r: Result<Tables, Fault>)
    ensures r.Ok? ==> |data| >= 16 && r.value.data == data
                      && Counted(data, Le(data, 8, 8), r.value.shape.rows)
                      && r.value.shape == ShapeOf(data[6] as nat, r.value.shape.rows)
                      && Laid(schema, r.value, HeaderEnd(data[6] as nat, Le(data, 8, 8)))
    ensures r == Err(Unsupported) <==> |data| >= 16 && Le(data, 8, 8) / Pow2(TABLES) != 0
    ensures r == Err(Truncated) ==> |data| < 16 || forall rows ::
              Counted(data, Le(data, 8, 8), rows)
              ==> StartOf(schema, ShapeOf(data[6] as nat, rows), HeaderEnd(data[6] as nat, Le(data, 8, 8)), TABLES)
                  > |data|
  {
    var heapSizes, present := Read(data, 6, 1), Read(data, 8, 8);
    if heapSizes.None? || present.None? {
      return Err(Truncated);
    }
    var heap, valid := heapSizes.value, present.value;
    assert heap == data[6] as nat;
    if valid / Pow2(TABLES) != 0 {
      return Err(Unsupported);
    }
    var counts, pos := ReadCounts(data, valid);
    if counts.Err? {
      return Err(Truncated);
    }
    if Bit(heap, 6) {
      pos := pos + 4;
    }
    r := Place(schema, data, ShapeOf(heap, counts.value), pos);
    if r.Err? {
      forall rows | Counted(data, valid, rows) ensures rows == counts.value {
        CountsUnique(data, valid, rows, counts.value);
      }
    }
  }

  lemma CountsUnique(data: seq<byte>, valid: nat, a: seq<nat>, b: seq<nat>)
    requires Counted(data, valid, a) && Counted(data, valid, b)
    ensures a == b
  {
    forall k | 0 <= k < TABLES ensures a[k] == b[k] {
      assert RowCount(data, valid, k) == Some(a[k]) == Some(b[k]);
    }
  }

  method Place(schema: nat -> seq<Col>, data: seq<byte>, shape: Shape, base: nat) returns (r: Result<Tables, Fault>)
    requires |shape.rows| == TABLES
    ensures r.Ok? ==> r.value.data == data && r.value.shape == shape && Laid(schema, r.value, base)
    ensures r.Err? ==> r.error == Truncated && StartOf(schema, shape, base, TABLES) > |data|
  {
    var start: seq<nat>, rowSize: seq<nat> := [], [];
    var cursor := base;
    for table := 0 to TABLES
      invariant cursor == StartOf(schema, shape, base, table)
      invariant table > 0 ==> cursor <= |data|
      invariant PlacedUpto(schema, shape, base, start, rowSize, table)
    {
      var size := Width(shape, schema(table));
      var bytes := shape.rows[table] * size;
      PlacedNext(schema, shape, base, start, rowSize, table);
      start, rowSize := start + [cursor], rowSize + [size];
      assert bytes == RowsOf(shape, table) * Width(shape, schema(table));
      cursor := cursor + bytes;
      if cursor > |data| {
        StartGrows(schema, shape, base, table + 1, TABLES);
        return Err(Truncated);
      }
    }
    r := Ok(Tables(data, shape, start, rowSize));
  }

  ghost predicate PlacedUpto(schema: nat -> seq<Col>, shape: Shape, base: nat, start: seq<nat>, rowSize: seq<nat>,
                             n: nat)
  {
    && |start| == n && |rowSize| == n
    && (forall k {:trigger start[k]} :: 0 <= k < n ==> start[k] == StartOf(schema, shape, base, k))
    && (forall k {:trigger rowSize[k]} :: 0 <= k < n ==> rowSize[k] == Width(shape, schema(k)))
  }

  lemma PlacedNext(schema: nat -> seq<Col>, shape: Shape, base: nat, start: seq<nat>, rowSize: seq<nat>, n: nat)
    requires PlacedUpto(schema, shape, base, start, rowSize, n)
    ensures PlacedUpto(schema, shape, base, start + [StartOf(schema, shape, base, n)],
                       rowSize + [Width(shape, schema(n))], n + 1)
  {
    var start', rowSize' := start + [StartOf(schema, shape, base, n)], rowSize + [Width(shape, schema(n))];
    forall k | 0 <= k < n + 1
      ensures start'[k] == StartOf(schema, shape, base, k) && rowSize'[k] == Width(shape, schema(k))
    {
      if k < n { assert start'[k] == start[k] && rowSize'[k] == rowSize[k]; }
    }
  }

  // ---------------------------------------------------------------- cells

  /** Where column `col` of row `row` (counted from 1) lies. */
  function CellAt(schema: nat -> seq<Col>, t: Tables, table: nat, row: nat, col: nat): nat
    requires table < |t.start| && table < |t.rowSize| && row > 0 && col <= |schema(table)|
  {
    t.start[table] + (row - 1) * t.rowSize[table] + Width(t.shape, schema(table)[..col])
  }

  /** One cell: none for a row or a column the table does not have. */
  function Cell(schema: nat -> seq<Col>, t: Tables, table: nat, row: nat, col: nat): Option<nat> {
    if row == 0 || row > RowsOf(t.shape, table) || col >= |schema(table)| then None
    else if table >= |t.start| || table >= |t.rowSize| then None
    else
      var size := ColSize(t.shape, schema(table)[col]);
      Read(t.data, CellAt(schema, t, table, row, col), size)
  }

  lemma {:induction false} WidthGrows(shape: Shape, cols: seq<Col>, i: nat)
    requires i < |cols|
    ensures Width(shape, cols[..i]) + ColSize(shape, cols[i]) == Width(shape, cols[..i + 1])
    ensures Width(shape, cols[..i + 1]) <= Width(shape, cols)
    decreases |cols|
  {
    assert cols[..i + 1][..i] == cols[..i];
    if i + 1 < |cols| {
      WidthGrows(shape, cols[..|cols| - 1], i);
      assert cols[..|cols| - 1][..i + 1] == cols[..i + 1];
      assert cols[..|cols| - 1][..i] == cols[..i];
    } else {
      assert cols[..i + 1] == cols;
    }
  }

  lemma RowInside(start: nat, size: nat, rows: nat, row: nat, end: nat)
    requires 1 <= row <= rows && end == start + rows * size
    ensures start + (row - 1) * size + size <= end
  {
    if row < rows { MulGap(row, rows, size); }
    assert row * size == (row - 1) * size + size;
  }

  lemma RowsApart(size: nat, row: nat, row': nat)
    requires 1 <= row < row'
    ensures (row - 1) * size + size <= (row' - 1) * size
  {
    RowInside(0, size, row' - 1, row, (row' - 1) * size);
  }

  /** A cell lies in its own row of its own table, inside the data. */
  lemma CellInside(schema: nat -> seq<Col>, t: Tables, base: nat, table: nat, row: nat, col: nat)
    requires Laid(schema, t, base) && 1 <= row <= RowsOf(t.shape, table) && col < |schema(table)|
    ensures table < TABLES
    ensures t.start[table] + (row - 1) * t.rowSize[table] <= CellAt(schema, t, table, row, col)
    ensures CellAt(schema, t, table, row, col) + ColSize(t.shape, schema(table)[col]) <=
            t.start[table] + (row - 1) * t.rowSize[table] + t.rowSize[table]
    ensures t.start[table] + (row - 1) * t.rowSize[table] + t.rowSize[table] <=
            StartOf(schema, t.shape, base, table + 1) <= |t.data|
  {
    WidthGrows(t.shape, schema(table), col);
    RowInside(t.start[table], t.rowSize[table], RowsOf(t.shape, table), row, StartOf(schema, t.shape, base, table + 1));
    StartGrows(schema, t.shape, base, table + 1, TABLES);
  }

  /** A cell is there exactly for the rows and columns the table has. */
  lemma CellDefined(schema: nat -> seq<Col>, t: Tables, base: nat, table: nat, row: nat, col: nat)
    requires Laid(schema, t, base)
    ensures Cell(schema, t, table, row, col).Some? <==> 1 <= row <= RowsOf(t.shape, table) && col < |schema(table)|
  {
    if 1 <= row <= RowsOf(t.shape, table) && col < |schema(table)| { CellInside(schema, t, base, table, row, col); }
  }

  /** A cell lies between its table's start and the next table's start. */
  lemma CellInTable(schema: nat -> seq<Col>, t: Tables, base: nat, table: nat, row: nat, col: nat)
    requires Laid(schema, t, base) && 1 <= row <= RowsOf(t.shape, table) && col < |schema(table)|
    ensures table < TABLES
    ensures StartOf(schema, t.shape, base, table) <= CellAt(schema, t, table, row, col)
    ensures CellAt(schema, t, table, row, col) + ColSize(t.shape, schema(table)[col]) <=
            StartOf(schema, t.shape, base, table + 1)
  {
    CellInside(schema, t, base, table, row, col);
    Product(row - 1, t.rowSize[table]);
  }

  lemma Product(a: nat, b: nat)
    ensures a * b >= 0
  {
  }

  lemma CellsOfTwoTables(schema: nat -> seq<Col>, t: Tables, base: nat, table: nat, row: nat, col: nat, table': nat,
                         row': nat, col': nat)
    requires Laid(schema, t, base) && table < table'
    requires 1 <= row <= RowsOf(t.shape, table) && col < |schema(table)|
    requires 1 <= row' <= RowsOf(t.shape, table') && col' < |schema(table')|
    ensures table' < TABLES
    ensures CellAt(schema, t, table, row, col) + ColSize(t.shape, schema(table)[col]) <=
            CellAt(schema, t, table', row', col')
  {
    CellInTable(schema, t, base, table, row, col);
    CellInTable(schema, t, base, table', row', col');
    StartGrows(schema, t.shape, base, table + 1, table');
  }

  lemma CellsOfTwoRows(schema: nat -> seq<Col>, t: Tables, base: nat, table: nat, row: nat, col: nat, row': nat,
                       col': nat)
    requires Laid(schema, t, base) && row < row'
    requires 1 <= row && row' <= RowsOf(t.shape, table) && col < |schema(table)| && col' < |schema(table)|
    ensures table < TABLES
    ensures CellAt(schema, t, table, row, col) + ColSize(t.shape, schema(table)[col]) <=
            CellAt(schema, t, table, row', col')
  {
    CellInside(schema, t, base, table, row, col);
    CellInside(schema, t, base, table, row', col');
    RowsApart(t.rowSize[table], row, row');
  }

  lemma CellsOfOneRow(schema: nat -> seq<Col>, t: Tables, base: nat, table: nat, row: nat, col: nat, col': nat)
    requires Laid(schema, t, base) && col < col' < |schema(table)|
    requires 1 <= row <= RowsOf(t.shape, table)
    ensures table < TABLES
    ensures CellAt(schema, t, table, row, col) + ColSize(t.shape, schema(table)[col]) <=
            CellAt(schema, t, table, row, col')
  {
    WidthGrows(t.shape, schema(table), col);
    ColumnsGrow(t.shape, schema(table), col + 1, col');
  }

  /** Two cells never share a byte. */
  lemma CellsApart(schema: nat -> seq<Col>, t: Tables, base: nat, table: nat, row: nat, col: nat, table': nat,
                   row': nat, col': nat)
    requires Laid(schema, t, base)
    requires 1 <= row <= RowsOf(t.shape, table) && col < |schema(table)|
    requires 1 <= row' <= RowsOf(t.shape, table') && col' < |schema(table')|
    requires table < table' || (table == table' && (row < row' || (row == row' && col < col')))
    ensures table < TABLES && table' < TABLES
    ensures CellAt(schema, t, table, row, col) + ColSize(t.shape, schema(table)[col]) <=
            CellAt(schema, t, table', row', col')
  {
    if table < table' {
      CellsOfTwoTables(schema, t, base, table, row, col, table', row', col');
    } else if row < row' {
      CellsOfTwoRows(schema, t, base, table, row, col, row', col');
    } else {
      CellsOfOneRow(schema, t, base, table, row, col, col');
    }
  }

  lemma {:induction false} ColumnsGrow(shape: Shape, cols: seq<Col>, i: nat, j: nat)
    requires i <= j <= |cols|
    ensures Width(shape, cols[..i]) <= Width(shape, cols[..j])
    decreases j
  {
    if i < j {
      ColumnsGrow(shape, cols, i, j - 1);
      WidthGrows(shape, cols, j - 1);
    }
  }

  // ---------------------------------------------------------------- the standard's own columns

  /** Exactly the tables up to the last known one have columns. */
  lemma SchemaKnown(table: nat)
    ensures Schema(table) != [] <==> table < TABLES
  {
  }

  datatype Spot = Spot(table: nat, row: nat, col: nat)

  /** The cells of the known tables. */
  predicate Known(shape: Shape, p: Spot) {
    p.table < TABLES && 1 <= p.row <= RowsOf(shape, p.table) && p.col < |Schema(p.table)|
  }

  predicate Prior(p: Spot, q: Spot) {
    p.table < q.table || (p.table == q.table && (p.row < q.row || (p.row == q.row && p.col < q.col)))
  }

  /** The bytes of `p` end before those of `q` begin. */
  predicate Apart(t: Tables, p: Spot, q: Spot)
    requires |t.start| == |t.rowSize| == TABLES && Known(t.shape, p) && Known(t.shape, q)
  {
    CellAt(Schema, t, p.table, p.row, p.col) + ColSize(t.shape, Schema(p.table)[p.col])
      <= CellAt(Schema, t, q.table, q.row, q.col)
  }

  ghost predicate AllApart(t: Tables)
    requires |t.start| == |t.rowSize| == TABLES
  {
    forall p, q :: Known(t.shape, p) && Known(t.shape, q) && Prior(p, q) ==> Apart(t, p, q)
  }

  ghost predicate AllThere(t: Tables) {
    forall p: Spot :: Cell(Schema, t, p.table, p.row, p.col).Some? <==> Known(t.shape, p)
  }

  /** With the standard's columns exactly the cells of the known tables are there, and no two share a byte. */
  lemma StandardCells(t: Tables, base: nat)
    requires Laid(Schema, t, base)
    ensures AllThere(t) && AllApart(t)
  {
    forall p: Spot ensures Cell(Schema, t, p.table, p.row, p.col).Some? <==> Known(t.shape, p) {
      CellDefined(Schema, t, base, p.table, p.row, p.col);
      SchemaKnown(p.table);
    }
    forall p, q | Known(t.shape, p) && Known(t.shape, q) && Prior(p, q) ensures Apart(t, p, q) {
      CellsApart(Schema, t, base, p.table, p.row, p.col, q.table, q.row, q.col);
    }
  }

  /** And every row of every known table has a first cell: no row that the header counts is empty. */
  lemma RowsHaveCells(t: Tables, table: nat, row: nat)
    requires AllThere(t)
    ensures Cell(Schema, t, table, row, 0).Some? <==> table < TABLES && 1 <= row <= RowsOf(t.shape, table)
  {
    SchemaKnown(table);
    assert Cell(Schema, t, Spot(table, row, 0).table, row, 0).Some? <==> Known(t.shape, Spot(table, row, 0));
  }

  /** The directory with the columns of the standard: what is read has exactly the cells of the known
      tables, a first one in every counted row, and no two share a byte. */
  method ParseTables(data: seq<byte>) returns (r: Result<Tables, Fault>)
    ensures r == Err(Unsupported) <==> |data| >= 16 && Le(data, 8, 8) / Pow2(TABLES) != 0
    ensures r.Ok? ==> r.value.data == data && |r.value.start| == |r.value.rowSize| == TABLES
    ensures r.Ok? ==> AllThere(r.value) && AllApart(r.value)
    ensures r.Ok? ==> forall table: nat, row: nat ::
              Cell(Schema, r.value, table, row, 0).Some? <==> table < TABLES && 1 <= row <= RowsOf(r.value.shape, table)
  {
    r := Parse(data, Schema);
    if r.Ok? {
      StandardCells(r.value, HeaderEnd(data[6] as nat, Le(data, 8, 8)));
      forall table: nat, row: nat
        ensures Cell(Schema, r.value, table, row, 0).Some?
                <==> table < TABLES && 1 <= row <= RowsOf(r.value.shape, table)
      {
        RowsHaveCells(r.value, table, row);
      }
    }
  }
}
