/** The layout of the metadata tables in the words of ECMA-335: which table a coded index points at, how long
    the rows of each table are, and where the directory puts them. */
module MetadataMeaning {
  import opened Wrappers
  import opened MetadataTables

  // ---------------------------------------------------------------- the tables of section II.22

  const MODULE: nat := 0x00
  const TYPE_REF: nat := 0x01
  const TYPE_DEF: nat := 0x02
  const FIELD_PTR: nat := 0x03
  const FIELD: nat := 0x04
  const METHOD_PTR: nat := 0x05
  const METHOD_DEF: nat := 0x06
  const PARAM_PTR: nat := 0x07
  const PARAM: nat := 0x08
  const INTERFACE_IMPL: nat := 0x09
  const MEMBER_REF: nat := 0x0A
  const CONSTANT: nat := 0x0B
  const CUSTOM_ATTRIBUTE: nat := 0x0C
  const FIELD_MARSHAL: nat := 0x0D
  const DECL_SECURITY: nat := 0x0E
  const CLASS_LAYOUT: nat := 0x0F
  const FIELD_LAYOUT: nat := 0x10
  const STAND_ALONE_SIG: nat := 0x11
  const EVENT_MAP: nat := 0x12
  const EVENT_PTR: nat := 0x13
  const EVENT: nat := 0x14
  const PROPERTY_MAP: nat := 0x15
  const PROPERTY_PTR: nat := 0x16
  const PROPERTY: nat := 0x17
  const METHOD_SEMANTICS: nat := 0x18
  const METHOD_IMPL: nat := 0x19
  const MODULE_REF: nat := 0x1A
  const TYPE_SPEC: nat := 0x1B
  const IMPL_MAP: nat := 0x1C
  const FIELD_RVA: nat := 0x1D
  const ENC_LOG: nat := 0x1E
  const ENC_MAP: nat := 0x1F
  const ASSEMBLY: nat := 0x20
  const ASSEMBLY_PROCESSOR: nat := 0x21
  const ASSEMBLY_OS: nat := 0x22
  const ASSEMBLY_REF: nat := 0x23
  const ASSEMBLY_REF_PROCESSOR: nat := 0x24
  const ASSEMBLY_REF_OS: nat := 0x25
  const FILE: nat := 0x26
  const EXPORTED_TYPE: nat := 0x27
  const MANIFEST_RESOURCE: nat := 0x28
  const NESTED_CLASS: nat := 0x29
  const GENERIC_PARAM: nat := 0x2A
  const METHOD_SPEC: nat := 0x2B
  const GENERIC_PARAM_CONSTRAINT: nat := 0x2C

  /** How many tag values a coded index has room for, and the table each tag stands for (section II.24.2.6). */
  datatype Tags = Tags(room: nat, tables: seq<Option<nat>>)

  function TagsOf(kind: Coded): Tags {
    match kind
    case TypeDefOrRef => Tags(4, [Some(TYPE_DEF), Some(TYPE_REF), Some(TYPE_SPEC)])
    case HasConstant => Tags(4, [Some(FIELD), Some(PARAM), Some(PROPERTY)])
    case HasCustomAttribute => Tags(32, [
      Some(METHOD_DEF), Some(FIELD), Some(TYPE_REF), Some(TYPE_DEF), Some(PARAM), Some(INTERFACE_IMPL),
      Some(MEMBER_REF), Some(MODULE), Some(DECL_SECURITY), Some(PROPERTY), Some(EVENT), Some(STAND_ALONE_SIG),
      Some(MODULE_REF), Some(TYPE_SPEC), Some(ASSEMBLY), Some(ASSEMBLY_REF), Some(FILE), Some(EXPORTED_TYPE),
      Some(MANIFEST_RESOURCE), Some(GENERIC_PARAM), Some(GENERIC_PARAM_CONSTRAINT), Some(METHOD_SPEC)])
    case HasFieldMarshal => Tags(2, [Some(FIELD), Some(PARAM)])
    case HasDeclSecurity => Tags(4, [Some(TYPE_DEF), Some(METHOD_DEF), Some(ASSEMBLY)])
    case MemberRefParent => Tags(8, [
      Some(TYPE_DEF), Some(TYPE_REF), Some(MODULE_REF), Some(METHOD_DEF), Some(TYPE_SPEC)])
    case HasSemantics => Tags(2, [Some(EVENT), Some(PROPERTY)])
    case MethodDefOrRef => Tags(2, [Some(METHOD_DEF), Some(MEMBER_REF)])
    case MemberForwarded => Tags(2, [Some(FIELD), Some(METHOD_DEF)])
    case Implementation => Tags(4, [Some(FILE), Some(ASSEMBLY_REF), Some(EXPORTED_TYPE)])
    case CustomAttributeType => Tags(8, [None, None, Some(METHOD_DEF), Some(MEMBER_REF), None])
    case ResolutionScope => Tags(4, [Some(MODULE), Some(MODULE_REF), Some(ASSEMBLY_REF), Some(TYPE_REF)])
    case TypeOrMethodDef => Tags(2, [Some(TYPE_DEF), Some(METHOD_DEF)])
  }

  lemma TagsFit(kind: Coded)
    ensures Pow2(TagBits(kind)) == TagsOf(kind).room && Targets(kind) == TagsOf(kind).tables
    ensures |TagsOf(kind).tables| <= TagsOf(kind).room
    ensures Pow2(16 - TagBits(kind)) == 0x1_0000 / TagsOf(kind).room
  {
    assert Pow2(1) == 2 && Pow2(2) == 4 && Pow2(3) == 8;
    assert Pow2(5) == 4 * Pow2(3);
    Pow2Sixteen();
    Pow2Sum(16 - TagBits(kind), TagBits(kind));
  }

  /** The tag is in the low bits and the row above it; a tag without a table points nowhere. */
  lemma CodedMeaning(kind: Coded, tag: nat, row: nat)
    requires tag < TagsOf(kind).room
    ensures var value, tables := TagsOf(kind).room * row + tag, TagsOf(kind).tables;
            && Encode(kind, tag, row) == value
            && Decode(kind, value) ==
               if tag < |tables| && tables[tag].Some? then Some((tables[tag].value, row)) else None
  {
    TagsFit(kind);
    DivMod(row, tag, TagsOf(kind).room);
  }

  // ---------------------------------------------------------------- the lengths of rows

  function Rows(shape: Shape, table: nat): nat { if table < |shape.rows| then shape.rows[table] else 0 }

  /** A column that points into one table. */
  function Idx(shape: Shape, table: nat): nat { if Rows(shape, table) <= 0xFFFF then 2 else 4 }

  /** A coded column: short when two bytes hold every row of every table it can point at, next to the tag. */
  ghost function Any(shape: Shape, kind: Coded): nat {
    if FitsAll(shape, TagsOf(kind).tables, 0x1_0000 / TagsOf(kind).room) then 2 else 4
  }

  ghost predicate FitsAll(shape: Shape, tables: seq<Option<nat>>, limit: nat) {
    forall t :: Some(t) in tables ==> Rows(shape, t) < limit
  }

  /** What a coded column takes. */
  lemma CodedColumn(shape: Shape, kind: Coded)
    ensures ColSize(shape, CodedIndex(kind)) == Any(shape, kind)
  {
    TagsFit(kind);
    CodedShort(shape, kind, TagsOf(kind).tables, 0x1_0000 / TagsOf(kind).room);
  }

  /** And what the others take. */
  lemma ColumnMeaning(shape: Shape, table: nat)
    ensures ColSize(shape, Index(table)) == Idx(shape, table)
    ensures ColSize(shape, Str) == (if shape.wideStrings then 4 else 2)
    ensures ColSize(shape, Guid) == (if shape.wideGuids then 4 else 2)
    ensures ColSize(shape, Blob) == (if shape.wideBlobs then 4 else 2)
    ensures Fixed(col => ColSize(shape, col))
  {
  }

  lemma CodedShort(shape: Shape, kind: Coded, tables: seq<Option<nat>>, limit: nat)
    requires tables == Targets(kind) && limit == Pow2(16 - TagBits(kind))
    ensures ColSize(shape, CodedIndex(kind)) == 2 <==> FitsAll(shape, tables, limit)
  {
    NarrowHoldsAll(shape, kind);
    AllRows(shape, tables, limit);
  }

  lemma AllRows(shape: Shape, tables: seq<Option<nat>>, limit: nat)
    ensures (forall tag: nat :: tag < |tables| && tables[tag].Some? ==> RowsOf(shape, tables[tag].value) < limit)
            <==> FitsAll(shape, tables, limit)
  {
    forall tag: nat | tag < |tables| && tables[tag].Some? ensures Some(tables[tag].value) in tables {
      assert tables[tag] == Some(tables[tag].value);
    }
  }

  /** What columns of given sizes take together. */
  function Total(size: Col -> nat, cols: seq<Col>): nat {
    if cols == [] then 0 else size(cols[0]) + Total(size, cols[1..])
  }

  /** A row is as long as its columns together. */
  lemma {:induction false} RowMeaning(shape: Shape, cols: seq<Col>)
    ensures Width(shape, cols) == Total(col => ColSize(shape, col), cols)
    decreases |cols|
  {
    if cols != [] {
      RowMeaning(shape, cols[1..]);
      WidthFront(shape, cols);
    }
  }

  lemma {:induction false} WidthFront(shape: Shape, cols: seq<Col>)
    requires cols != []
    ensures Width(shape, cols) == ColSize(shape, cols[0]) + Width(shape, cols[1..])
    decreases |cols|
  {
    var n := |cols| - 1;
    if n > 0 {
      WidthFront(shape, cols[..n]);
      assert cols[1..][..n - 1] == cols[..n][1..];
    } else {
      assert cols[..0] == [] && cols[1..] == [];
    }
  }

  ghost predicate Fixed(size: Col -> nat) { size(U8x2) == 2 && size(U16) == 2 && size(U32) == 4 }

  lemma Up(size: Col -> nat, cols: seq<Col>)
    ensures |cols| == 1 ==> Total(size, cols) == size(cols[0])
    ensures |cols| == 2 ==> Total(size, cols) == size(cols[0]) + size(cols[1])
    ensures |cols| == 3 ==> Total(size, cols) == size(cols[0]) + size(cols[1]) + size(cols[2])
  {
  }

  lemma Up3(size: Col -> nat, cols: seq<Col>)
    requires |cols| == 3
    ensures Total(size, cols) == size(cols[0]) + size(cols[1]) + size(cols[2])
  {
    Up(size, cols[1..]);
  }

  lemma Up4(size: Col -> nat, cols: seq<Col>)
    requires |cols| == 4
    ensures Total(size, cols) == size(cols[0]) + size(cols[1]) + size(cols[2]) + size(cols[3])
  {
    Up(size, cols[1..]);
  }

  lemma Up5(size: Col -> nat, cols: seq<Col>)
    requires |cols| == 5
    ensures Total(size, cols) == size(cols[0]) + size(cols[1]) + size(cols[2]) + size(cols[3]) + size(cols[4])
  {
    Up4(size, cols[1..]);
  }

  lemma Up6(size: Col -> nat, cols: seq<Col>)
    requires |cols| == 6
    ensures Total(size, cols) == size(cols[0]) + size(cols[1]) + size(cols[2]) + size(cols[3]) + size(cols[4])
                                 + size(cols[5])
  {
    Up5(size, cols[1..]);
  }

  lemma Up7(size: Col -> nat, cols: seq<Col>)
    requires |cols| == 7
    ensures Total(size, cols) == size(cols[0]) + size(cols[1]) + size(cols[2]) + size(cols[3]) + size(cols[4])
                                 + size(cols[5]) + size(cols[6])
  {
    Up6(size, cols[1..]);
  }

  lemma Up8(size: Col -> nat, cols: seq<Col>)
    requires |cols| == 8
    ensures Total(size, cols) == size(cols[0]) + size(cols[1]) + size(cols[2]) + size(cols[3]) + size(cols[4])
                                 + size(cols[5]) + size(cols[6]) + size(cols[7])
  {
    Up7(size, cols[1..]);
  }

  lemma Up9(size: Col -> nat, cols: seq<Col>)
    requires |cols| == 9
    ensures Total(size, cols) == size(cols[0]) + size(cols[1]) + size(cols[2]) + size(cols[3]) + size(cols[4])
                                 + size(cols[5]) + size(cols[6]) + size(cols[7]) + size(cols[8])
  {
    Up8(size, cols[1..]);
  }

  lemma TypeRows(size: Col -> nat)
    requires Fixed(size)
    ensures Total(size, Schema(MODULE)) == 2 + size(Str) + 3 * size(Guid)
    ensures Total(size, Schema(TYPE_REF)) == size(CodedIndex(ResolutionScope)) + 2 * size(Str)
    ensures Total(size, Schema(TYPE_DEF)) ==
              4 + 2 * size(Str) + size(CodedIndex(TypeDefOrRef)) + size(Index(FIELD)) + size(Index(METHOD_DEF))
  {
    Up5(size, Schema(MODULE));
    Up3(size, Schema(TYPE_REF));
    Up6(size, Schema(TYPE_DEF));
  }

  lemma MemberRows(size: Col -> nat)
    requires Fixed(size)
    ensures Total(size, Schema(FIELD_PTR)) == size(Index(FIELD))
    ensures Total(size, Schema(FIELD)) == 2 + size(Str) + size(Blob)
    ensures Total(size, Schema(METHOD_PTR)) == size(Index(METHOD_DEF))
    ensures Total(size, Schema(METHOD_DEF)) == 8 + size(Str) + size(Blob) + size(Index(PARAM))
    ensures Total(size, Schema(PARAM_PTR)) == size(Index(PARAM))
    ensures Total(size, Schema(PARAM)) == 4 + size(Str)
  {
    Up(size, Schema(FIELD_PTR));
    Up(size, Schema(FIELD));
    Up(size, Schema(METHOD_PTR));
    Up6(size, Schema(METHOD_DEF));
    Up(size, Schema(PARAM_PTR));
    Up(size, Schema(PARAM));
  }

  lemma ReferenceRows(size: Col -> nat)
    requires Fixed(size)
    ensures Total(size, Schema(INTERFACE_IMPL)) == size(Index(TYPE_DEF)) + size(CodedIndex(TypeDefOrRef))
    ensures Total(size, Schema(MEMBER_REF)) == size(CodedIndex(MemberRefParent)) + size(Str) + size(Blob)
    ensures Total(size, Schema(CONSTANT)) == 2 + size(CodedIndex(HasConstant)) + size(Blob)
    ensures Total(size, Schema(CUSTOM_ATTRIBUTE)) ==
              size(CodedIndex(HasCustomAttribute)) + size(CodedIndex(CustomAttributeType)) + size(Blob)
    ensures Total(size, Schema(FIELD_MARSHAL)) == size(CodedIndex(HasFieldMarshal)) + size(Blob)
    ensures Total(size, Schema(DECL_SECURITY)) == 2 + size(CodedIndex(HasDeclSecurity)) + size(Blob)
  {
    Up(size, Schema(INTERFACE_IMPL));
    Up(size, Schema(MEMBER_REF));
    Up(size, Schema(CONSTANT));
    Up(size, Schema(CUSTOM_ATTRIBUTE));
    Up(size, Schema(FIELD_MARSHAL));
    Up(size, Schema(DECL_SECURITY));
  }

  lemma LayoutRows(size: Col -> nat)
    requires Fixed(size)
    ensures Total(size, Schema(CLASS_LAYOUT)) == 6 + size(Index(TYPE_DEF))
    ensures Total(size, Schema(FIELD_LAYOUT)) == 4 + size(Index(FIELD))
    ensures Total(size, Schema(STAND_ALONE_SIG)) == size(Blob)
    ensures Total(size, Schema(EVENT_MAP)) == size(Index(TYPE_DEF)) + size(Index(EVENT))
    ensures Total(size, Schema(EVENT_PTR)) == size(Index(EVENT))
  {
    Up(size, Schema(CLASS_LAYOUT));
    Up(size, Schema(FIELD_LAYOUT));
    Up(size, Schema(STAND_ALONE_SIG));
    Up(size, Schema(EVENT_MAP));
    Up(size, Schema(EVENT_PTR));
  }

  lemma EventRows(size: Col -> nat)
    requires Fixed(size)
    ensures Total(size, Schema(EVENT)) == 2 + size(Str) + size(CodedIndex(TypeDefOrRef))
    ensures Total(size, Schema(PROPERTY_MAP)) == size(Index(TYPE_DEF)) + size(Index(PROPERTY))
    ensures Total(size, Schema(PROPERTY_PTR)) == size(Index(PROPERTY))
    ensures Total(size, Schema(PROPERTY)) == 2 + size(Str) + size(Blob)
    ensures Total(size, Schema(METHOD_SEMANTICS)) == 2 + size(Index(METHOD_DEF)) + size(CodedIndex(HasSemantics))
    ensures Total(size, Schema(METHOD_IMPL)) == size(Index(TYPE_DEF)) + 2 * size(CodedIndex(MethodDefOrRef))
  {
    Up(size, Schema(EVENT));
    Up(size, Schema(PROPERTY_MAP));
    Up(size, Schema(PROPERTY_PTR));
    Up(size, Schema(PROPERTY));
    Up(size, Schema(METHOD_SEMANTICS));
    Up(size, Schema(METHOD_IMPL));
  }

  lemma MappedRows(size: Col -> nat)
    requires Fixed(size)
    ensures Total(size, Schema(MODULE_REF)) == size(Str)
    ensures Total(size, Schema(TYPE_SPEC)) == size(Blob)
    ensures Total(size, Schema(IMPL_MAP)) ==
              2 + size(CodedIndex(MemberForwarded)) + size(Str) + size(Index(MODULE_REF))
    ensures Total(size, Schema(FIELD_RVA)) == 4 + size(Index(FIELD))
    ensures Total(size, Schema(ENC_LOG)) == 8
    ensures Total(size, Schema(ENC_MAP)) == 4
  {
    Up(size, Schema(MODULE_REF));
    Up(size, Schema(TYPE_SPEC));
    Up4(size, Schema(IMPL_MAP));
    Up(size, Schema(FIELD_RVA));
    Up(size, Schema(ENC_LOG));
    Up(size, Schema(ENC_MAP));
  }

  lemma AssemblyRows(size: Col -> nat)
    requires Fixed(size)
    ensures Total(size, Schema(ASSEMBLY)) == 16 + size(Blob) + 2 * size(Str)
    ensures Total(size, Schema(ASSEMBLY_PROCESSOR)) == 4
    ensures Total(size, Schema(ASSEMBLY_OS)) == 12
  {
    Up9(size, Schema(ASSEMBLY));
    Up(size, Schema(ASSEMBLY_PROCESSOR));
    Up(size, Schema(ASSEMBLY_OS));
  }

  lemma AssemblyRefRows(size: Col -> nat)
    requires Fixed(size)
    ensures Total(size, Schema(ASSEMBLY_REF)) == 12 + 2 * size(Blob) + 2 * size(Str)
    ensures Total(size, Schema(ASSEMBLY_REF_PROCESSOR)) == 4 + size(Index(ASSEMBLY_REF))
    ensures Total(size, Schema(ASSEMBLY_REF_OS)) == 12 + size(Index(ASSEMBLY_REF))
  {
    Up9(size, Schema(ASSEMBLY_REF));
    Up(size, Schema(ASSEMBLY_REF_PROCESSOR));
    Up4(size, Schema(ASSEMBLY_REF_OS));
  }

  lemma FileRows(size: Col -> nat)
    requires Fixed(size)
    ensures Total(size, Schema(FILE)) == 4 + size(Str) + size(Blob)
    ensures Total(size, Schema(EXPORTED_TYPE)) == 8 + 2 * size(Str) + size(CodedIndex(Implementation))
    ensures Total(size, Schema(MANIFEST_RESOURCE)) == 8 + size(Str) + size(CodedIndex(Implementation))
  {
    Up(size, Schema(FILE));
    Up5(size, Schema(EXPORTED_TYPE));
    Up4(size, Schema(MANIFEST_RESOURCE));
  }

  lemma GenericRows(size: Col -> nat)
    requires Fixed(size)
    ensures Total(size, Schema(NESTED_CLASS)) == 2 * size(Index(TYPE_DEF))
    ensures Total(size, Schema(GENERIC_PARAM)) == 4 + size(CodedIndex(TypeOrMethodDef)) + size(Str)
    ensures Total(size, Schema(METHOD_SPEC)) == size(CodedIndex(MethodDefOrRef)) + size(Blob)
    ensures Total(size, Schema(GENERIC_PARAM_CONSTRAINT)) ==
              size(Index(GENERIC_PARAM)) + size(CodedIndex(TypeDefOrRef))
  {
    Up(size, Schema(NESTED_CLASS));
    Up4(size, Schema(GENERIC_PARAM));
    Up(size, Schema(METHOD_SPEC));
    Up(size, Schema(GENERIC_PARAM_CONSTRAINT));
  }

  /** The columns that are read: names, the scope of a reference, the base of a type, who is nested in whom. */
  lemma ReadColumns()
    ensures Schema(TYPE_REF)[0] == CodedIndex(ResolutionScope) && Schema(TYPE_REF)[1] == Schema(TYPE_REF)[2] == Str
    ensures Schema(TYPE_DEF)[1] == Schema(TYPE_DEF)[2] == Str && Schema(TYPE_DEF)[3] == CodedIndex(TypeDefOrRef)
    ensures Schema(MODULE)[1] == Str && Schema(TYPE_SPEC)[0] == Blob
    ensures Schema(ASSEMBLY)[7] == Str && Schema(ASSEMBLY_REF)[6] == Str
    ensures Schema(NESTED_CLASS) == [Index(TYPE_DEF), Index(TYPE_DEF)]
  {
  }

  // ---------------------------------------------------------------- the directory

  /** The tables whose bit is set, below `n`. */
  function PresentTables(valid: nat, n: nat): set<nat> { set k: nat | k < n && valid / Pow2(k) % 2 == 1 }

  lemma {:induction false} PresentMeaning(valid: nat, n: nat)
    ensures Present(valid, n) == |PresentTables(valid, n)|
    decreases n
  {
    if n > 0 {
      PresentMeaning(valid, n - 1);
      assert PresentTables(valid, n) == PresentTables(valid, n - 1) + if Bit(valid, n - 1) then {n - 1} else {};
    }
  }

  lemma FourBytes(data: seq<byte>, at: nat)
    requires at + 4 <= |data|
    ensures Le(data, at, 4) == data[at] as nat + 0x100 * data[at + 1] as nat + 0x1_0000 * data[at + 2] as nat
                               + 0x100_0000 * data[at + 3] as nat
  {
    assert Le(data, at + 4, 0) == 0;
    assert Le(data, at + 3, 1) == data[at + 3] as nat;
    assert Le(data, at + 2, 2) == data[at + 2] as nat + 0x100 * Le(data, at + 3, 1);
    assert Le(data, at + 1, 3) == data[at + 1] as nat + 0x100 * Le(data, at + 2, 2);
  }

  /** Bits 0 to 2 of the heap sizes make the indexes into the three heaps long. */
  lemma HeapMeaning(heap: nat, rows: seq<nat>)
    ensures ShapeOf(heap, rows) == Shape(rows, heap % 2 == 1, heap / 2 % 2 == 1, heap / 4 % 2 == 1)
  {
    assert Pow2(0) == 1 && Pow2(1) == 2 && Pow2(2) == 4;
  }

  /** Behind a header of 24 bytes stand the row counts of the tables that are there, and when bit 6 of the heap
      sizes is set four bytes more. */
  lemma HeaderMeaning(heap: nat, valid: nat)
    ensures HeaderEnd(heap, valid) == 24 + 4 * |PresentTables(valid, 45)| + (if heap / 64 % 2 == 1 then 4 else 0)
  {
    PresentMeaning(valid, 45);
    assert Pow2(3) == 8;
    assert Pow2(6) == 8 * Pow2(3);
  }

  /** Then the rows follow, table after table without a gap. */
  lemma PlaceMeaning(schema: nat -> seq<Col>, t: Tables, base: nat, k: nat)
    requires Laid(schema, t, base) && k < 45
    ensures t.start[0] == base && t.rowSize[k] == Width(t.shape, schema(k))
    ensures t.start[k] + t.shape.rows[k] * t.rowSize[k] ==
            if k < 44 then t.start[k + 1] else StartOf(schema, t.shape, base, 45)
    ensures t.start[k] + t.shape.rows[k] * t.rowSize[k] <= |t.data|
  {
    StartGrows(schema, t.shape, base, k + 1, 45);
    assert StartOf(schema, t.shape, base, k + 1) == t.start[k] + t.shape.rows[k] * t.rowSize[k];
    if k < 44 { assert t.start[k + 1] == StartOf(schema, t.shape, base, k + 1); }
  }

  /** The row count of a table that is there is the number in its four bytes; any other table has no rows. */
  lemma CountMeaning(data: seq<byte>, valid: nat, rows: seq<nat>, k: nat)
    requires Counted(data, valid, rows) && k < 45
    ensures var at := 24 + 4 * |PresentTables(valid, k)|;
            if k in PresentTables(valid, 45) then
              && at + 4 <= |data|
              && rows[k] == data[at] as nat + 0x100 * data[at + 1] as nat + 0x1_0000 * data[at + 2] as nat
                            + 0x100_0000 * data[at + 3] as nat
            else rows[k] == 0
  {
    PresentMeaning(valid, k);
    var at := 24 + 4 * |PresentTables(valid, k)|;
    assert RowCount(data, valid, k) == Some(rows[k]);
    if Bit(valid, k) { FourBytes(data, at); }
  }

  // ---------------------------------------------------------------- cells

  lemma TwoBytes(data: seq<byte>, at: nat)
    requires at + 2 <= |data|
    ensures Le(data, at, 2) == data[at] as nat + 0x100 * data[at + 1] as nat
  {
    assert Le(data, at + 2, 0) == 0;
    assert Le(data, at + 1, 1) == data[at + 1] as nat;
  }

  lemma CellBytes(data: seq<byte>, at: nat, size: nat)
    requires at + size <= |data| && size in {2, 4}
    ensures Le(data, at, size) == data[at] as nat + 0x100 * data[at + 1] as nat
                                  + if size == 2 then 0
                                    else 0x1_0000 * data[at + 2] as nat + 0x100_0000 * data[at + 3] as nat
  {
    if size == 2 { TwoBytes(data, at); } else { FourBytes(data, at); }
  }

  /** A cell stands in its row behind the columns before it, and its two or four bytes are read with the
      low one first. */
  lemma CellMeaning(schema: nat -> seq<Col>, t: Tables, base: nat, table: nat, row: nat, col: nat) returns (at: nat)
    requires Laid(schema, t, base) && 1 <= row <= RowsOf(t.shape, table) && col < |schema(table)|
    ensures table < 45 && at == t.start[table] + (row - 1) * t.rowSize[table]
                                + Total(c => ColSize(t.shape, c), schema(table)[..col])
    ensures at + ColSize(t.shape, schema(table)[col]) <= |t.data|
    ensures ColSize(t.shape, schema(table)[col]) in {2, 4}
    ensures Cell(schema, t, table, row, col) ==
            Some(t.data[at] as nat + 0x100 * t.data[at + 1] as nat
                 + if ColSize(t.shape, schema(table)[col]) == 2 then 0
                   else 0x1_0000 * t.data[at + 2] as nat + 0x100_0000 * t.data[at + 3] as nat)
  {
    CellInside(schema, t, base, table, row, col);
    RowMeaning(t.shape, schema(table)[..col]);
    at := CellAt(schema, t, table, row, col);
    CellBytes(t.data, at, ColSize(t.shape, schema(table)[col]));
  }
}
