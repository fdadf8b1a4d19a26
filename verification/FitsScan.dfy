/**
  * The structural scan of a FITS file: header blocks are read, data are skipped by their size.
  * `parse` stands for the header parser; it sees exactly the header's characters.
  */
module FitsScan {
  import opened Collections

  const BLOCK := 2880
  const CARD := 80

  datatype Limits = Limits(hdus: nat, axes: nat, cards: nat, headerBytes: nat, columns: nat)

  datatype Kind = PrimaryImage | Image | AsciiTable | BinaryTable

  /** A keyword's value; `Other` is anything that is neither an integer nor text. */
  datatype Value = Missing | Integer(value: int) | Text(text: string) | Other

  datatype Precision = NoPrecision | Decimals(digits: nat)

  /** A column format, read by the ASCII or binary table grammar of the header's own kind. */
  datatype Form =
    | NoForm
    | Ascii(element: char, width: nat, precision: Precision)
    | Array(element: char, repeat: nat)
    | Pointer(repeat: nat, wide: bool)

  datatype Dims = NoDims | BadDims | Dims(sizes: seq<nat>)

  /** The keywords of one table column; `repeated` when one of them occurs twice. */
  datatype Field = Field(repeated: bool, form: Form, start: Value, dims: Dims)

  datatype Header = Header(
    keywords: seq<string>,    // in the order of the cards
    repeated: bool,           // some structural keyword occurs twice
    simple: bool,             // SIMPLE is true
    extension: Value,
    special: bool,            // compressed or random groups
    bitpix: Value,
    naxis: Value,
    axes: map<nat, Value>,
    repeatedAxes: set<nat>,
    pcount: Value,
    gcount: Value,
    tfields: Value,
    theap: Value,
    fields: map<nat, Field>,
    extname: Value,
    extver: Value)

  datatype Parsed = Unparsed | Parsed(header: Header)

  datatype Column = Column(offset: nat, width: nat)

  datatype Layout = Layout(kind: Kind, bitpix: int, shape: seq<nat>, dataBytes: nat, columns: seq<Column>, heapOffset: nat, heapBytes: nat)

  datatype Hdu = Hdu(layout: Layout, headerOffset: nat, headerBlocks: nat, paddedBytes: nat) {
    function HeaderBytes(): nat {
      BLOCK * headerBlocks
    }
    function DataOffset(): nat {
      headerOffset + HeaderBytes()
    }
    function End(): nat {
      DataOffset() + paddedBytes
    }
  }

  // Integers.

  /** An integer keyword with a default and a least value; `None` is a refusal. */
  datatype Number = None | Some(value: int)

  function IntegerOr(v: Value, default: Number, least: int): Number {
    if v.Integer? then (if v.value >= least then Some(v.value) else None)
    else if v.Missing? && default.Some? && default.value >= least then default
    else None
  }

  /** The value if it is an integer and large enough; the default stands in for a missing one. */
  lemma IntegerOrMeans(v: Value, default: Number, least: int, x: int)
    ensures IntegerOr(v, default, least) == Some(x) <==> x >= least && (v == Integer(x) || (v.Missing? && default == Some(x)))
  {
  }

  function Padded(n: nat): nat {
    (n + (BLOCK - 1)) / BLOCK * BLOCK
  }

  // Columns.

  predicate Tabular(kind: Kind) {
    kind.AsciiTable? || kind.BinaryTable?
  }

  function ElementSize(element: char): nat {
    match element
    case 'L' | 'B' | 'A' => 1
    case 'I' => 2
    case 'J' | 'E' => 4
    case 'K' | 'D' | 'C' => 8
    case 'M' => 16
    case _ => 0
  }

  function FormWidth(form: Form): nat {
    match form
    case NoForm => 0
    case Ascii(_, width, _) => width
    case Array(element, repeat) => if element == 'X' then (repeat + 7) / 8 else repeat * ElementSize(element)
    case Pointer(repeat, wide) => repeat * if wide then 16 else 8
  }

  /** The field widths of table 18 of the FITS Standard 4.0, in bits, rounded up to bytes for bit fields; descriptors are two words. */
  lemma FormWidths(repeat: nat)
    ensures forall c :: c in "LBA" ==> FormWidth(Array(c, repeat)) * 8 == repeat * 8
    ensures FormWidth(Array('I', repeat)) * 8 == repeat * 16
    ensures forall c :: c in "JE" ==> FormWidth(Array(c, repeat)) * 8 == repeat * 32
    ensures forall c :: c in "KDC" ==> FormWidth(Array(c, repeat)) * 8 == repeat * 64
    ensures FormWidth(Array('M', repeat)) * 8 == repeat * 128
    ensures repeat <= FormWidth(Array('X', repeat)) * 8 < repeat + 8
    ensures FormWidth(Pointer(repeat, false)) * 8 == repeat * 64 && FormWidth(Pointer(repeat, true)) * 8 == repeat * 128
  {
  }

  function FormRepeat(form: Form): nat {
    match form
    case NoForm => 0
    case Ascii(element, width, _) => if element == 'A' then width else 1
    case Array(_, repeat) => repeat
    case Pointer(repeat, _) => repeat
  }

  predicate FormOk(kind: Kind, form: Form) {
    match form
    case NoForm => false
    case Ascii(element, width, precision) =>
      && kind.AsciiTable? && width >= 1
      && (element in "FED" ==> precision.Decimals?) && (element in "AI" ==> precision.NoPrecision?)
      && (precision.Decimals? ==> precision.digits < width)
    case Array(_, _) => kind.BinaryTable?
    case Pointer(repeat, _) => kind.BinaryTable? && repeat <= 1
  }

  predicate DimsOk(f: Field, limits: Limits) {
    match f.dims
    case NoDims => true
    case BadDims => false
    case Dims(sizes) => (f.form.Pointer? || Product(sizes) == FormRepeat(f.form)) && |sizes| <= limits.axes
  }

  predicate FieldOk(kind: Kind, f: Field, limits: Limits) {
    && !f.repeated && FormOk(kind, f.form) && DimsOk(f, limits)
    && (kind.AsciiTable? ==> IntegerOr(f.start, None, 1).Some?)
  }

  function FieldAt(header: Header, k: nat): Field {
    if k in header.fields then header.fields[k] else Field(false, NoForm, Missing, NoDims)
  }

  /** Total width of the first `k` columns. */
  function WidthBefore(header: Header, k: nat): nat {
    if k == 0 then 0 else WidthBefore(header, k - 1) + FormWidth(FieldAt(header, k).form)
  }

  /** The column of field `k`: at its declared position, or right after the one before. */
  function ColumnOf(header: Header, kind: Kind, k: nat): Column
    requires k > 0
  {
    var f := FieldAt(header, k);
    var start := IntegerOr(f.start, None, 1);
    Column(if kind.BinaryTable? then WidthBefore(header, k - 1) else if start.Some? then start.value - 1 else 0, FormWidth(f.form))
  }

  predicate Apart(a: Column, b: Column) {
    a.offset + a.width <= b.offset || b.offset + b.width <= a.offset
  }

  function ColumnsOf(header: Header, kind: Kind, count: nat): seq<Column> {
    seq(count, k requires 0 <= k < count => ColumnOf(header, kind, k + 1))
  }

  predicate Within(columns: seq<Column>, row: nat) {
    forall k :: 0 <= k < |columns| ==> columns[k].offset + columns[k].width <= row
  }

  predicate Disjoint(columns: seq<Column>) {
    forall j, k :: 0 <= j < k < |columns| ==> Apart(columns[j], columns[k])
  }

  /** What the standard asks of a table's columns. */
  predicate ColumnsOk(header: Header, kind: Kind, row: nat, limits: Limits) {
    && IntegerOr(header.tfields, None, 0).Some? && header.tfields.value <= limits.columns
    && (forall k :: 0 < k <= header.tfields.value ==> FieldOk(kind, FieldAt(header, k), limits))
    && if kind.BinaryTable? then WidthBefore(header, header.tfields.value) == row
       else Within(ColumnsOf(header, kind, header.tfields.value), row) && Disjoint(ColumnsOf(header, kind, header.tfields.value))
  }

  datatype Checked = Refused | Columns(columns: seq<Column>)

  lemma {:induction false} WidthGrows(header: Header, j: nat, k: nat)
    requires j <= k
    ensures WidthBefore(header, j) <= WidthBefore(header, k)
    decreases k
  {
    if j < k {
      WidthGrows(header, j, k - 1);
    }
  }

  method CheckColumns(header: Header, kind: Kind, row: nat, limits: Limits) returns (r: Checked)
    requires Tabular(kind)
    ensures r.Columns? <==> ColumnsOk(header, kind, row, limits)
    ensures r.Columns? ==> r.columns == ColumnsOf(header, kind, header.tfields.value)
  {
    var number := IntegerOr(header.tfields, None, 0);
    if number.None? || number.value > limits.columns {
      return Refused;
    }
    var count: nat := number.value;
    var columns: seq<Column>, offset := [], 0;
    for n := 0 to count
      invariant columns == ColumnsOf(header, kind, n)
      invariant forall k :: 0 < k <= n ==> FieldOk(kind, FieldAt(header, k), limits)
      invariant kind.BinaryTable? ==> offset == WidthBefore(header, n) && offset <= row
      invariant kind.AsciiTable? ==> Within(columns, row) && Disjoint(columns)
    {
      var field := FieldAt(header, n + 1);
      if field.repeated || !FormOk(kind, field.form) {
        return Refused;
      }
      var width := FormWidth(field.form);
      if kind.AsciiTable? {
        var start := IntegerOr(field.start, None, 1);
        if start.None? {
          return Refused;
        }
        offset := start.value - 1;
        if j :| 0 <= j < |columns| && !Apart(columns[j], Column(offset, width)) {
          ghost var all := ColumnsOf(header, kind, count);
          assert !Apart(all[j], all[n]);
          return Refused;
        }
      }
      if offset + width > row {
        if kind.BinaryTable? {
          WidthGrows(header, n + 1, count);
        } else {
          ghost var all := ColumnsOf(header, kind, count);
          assert all[n] == Column(offset, width);
        }
        return Refused;
      }
      if !DimsOk(field, limits) {
        return Refused;
      }
      columns := columns + [Column(offset, width)];
      if kind.BinaryTable? {
        offset := offset + width;
      }
    }
    if kind.BinaryTable? && offset != row {
      return Refused;
    }
    r := Columns(columns);
  }

  /** The formats of sections 7.2.1 and 7.3.1 of the FITS Standard 4.0: decimals for real columns only, at most one descriptor. */
  lemma FormOkMeans(kind: Kind, form: Form)
    ensures FormOk(kind, form) <==>
            match form
            case NoForm => false
            case Ascii(e, width, NoPrecision) => kind == AsciiTable && width > 0 && e != 'F' && e != 'E' && e != 'D'
            case Ascii(e, width, Decimals(digits)) => kind == AsciiTable && digits < width && e != 'A' && e != 'I'
            case Array(_, _) => kind == BinaryTable
            case Pointer(repeat, _) => kind == BinaryTable && (repeat == 0 || repeat == 1)
  {
  }

  /** How many elements TDIM has to account for. */
  lemma DimsOkMeans(f: Field, limits: Limits)
    ensures DimsOk(f, limits) <==>
            match f.dims
            case NoDims => true
            case BadDims => false
            case Dims(sizes) =>
              && |sizes| <= limits.axes
              && match f.form
                 case Array(_, repeat) => Product(sizes) == repeat
                 case Ascii('A', width, _) => Product(sizes) == width
                 case Ascii(_, _, _) => Product(sizes) == 1
                 case NoForm => Product(sizes) == 0
                 case Pointer(_, _) => true
  {
  }

  predicate HasByte(c: Column, x: nat) {
    c.offset <= x < c.offset + c.width
  }

  /** Columns of some width are apart exactly when they share no byte. */
  lemma ApartMeans(a: Column, b: Column)
    requires a.width > 0 && b.width > 0
    ensures Apart(a, b) <==> forall x: nat :: !(HasByte(a, x) && HasByte(b, x))
  {
    var x := if a.offset <= b.offset then b.offset else a.offset;
    assert !Apart(a, b) ==> HasByte(a, x) && HasByte(b, x);
  }

  /** A column of an ASCII table stands where its field says, counted from one, and is as wide as its format says. */
  lemma AsciiColumnAt(header: Header, k: nat, limits: Limits)
    requires k > 0 && FieldOk(AsciiTable, FieldAt(header, k), limits)
    ensures k in header.fields && header.fields[k].form.Ascii?
    ensures var c := ColumnOf(header, AsciiTable, k); header.fields[k].start == Integer(c.offset + 1) && c.width == header.fields[k].form.width
  {
  }

  /** How many columns hold a byte of the row. */
  function Holders(columns: seq<Column>, x: nat): nat {
    if columns == [] then 0
    else (if columns[0].offset <= x < columns[0].offset + columns[0].width then 1 else 0) + Holders(columns[1..], x)
  }

  lemma {:induction false} HoldersAppend(columns: seq<Column>, c: Column, x: nat)
    ensures Holders(columns + [c], x) == Holders(columns, x) + if c.offset <= x < c.offset + c.width then 1 else 0
  {
    if columns != [] {
      assert (columns + [c])[1..] == columns[1..] + [c];
      HoldersAppend(columns[1..], c, x);
    }
  }

  /** Binary table columns, in order, hold each byte up to their total width exactly once. */
  lemma {:induction false} BinaryColumnsTile(header: Header, count: nat, x: nat)
    ensures Holders(ColumnsOf(header, BinaryTable, count), x) == if x < WidthBefore(header, count) then 1 else 0
  {
    if count > 0 {
      BinaryColumnsTile(header, count - 1, x);
      var columns := ColumnsOf(header, BinaryTable, count);
      assert columns == ColumnsOf(header, BinaryTable, count - 1) + [ColumnOf(header, BinaryTable, count)];
      HoldersAppend(ColumnsOf(header, BinaryTable, count - 1), ColumnOf(header, BinaryTable, count), x);
    }
  }

  lemma {:induction false} BinaryColumnEnds(header: Header, count: nat, k: nat)
    requires k < count
    ensures ColumnOf(header, BinaryTable, k + 1).offset + ColumnOf(header, BinaryTable, k + 1).width == WidthBefore(header, k + 1) <= WidthBefore(header, count)
  {
    WidthGrows(header, k + 1, count);
  }

  /** Accepted columns never overlap or leave the row, and those of a binary table tile it. */
  lemma AcceptedColumns(header: Header, kind: Kind, row: nat, limits: Limits)
    requires Tabular(kind) && ColumnsOk(header, kind, row, limits)
    ensures
      var columns := ColumnsOf(header, kind, header.tfields.value);
      && Within(columns, row) && Disjoint(columns)
      && (kind.BinaryTable? ==> forall x: nat :: Holders(columns, x) == if x < row then 1 else 0)
  {
    var count := header.tfields.value;
    var columns := ColumnsOf(header, kind, count);
    if kind.BinaryTable? {
      forall k: nat | k < count ensures columns[k].offset + columns[k].width <= row {
        BinaryColumnEnds(header, count, k);
      }
      forall j: nat, k: nat | j < k < count ensures Apart(columns[j], columns[k]) {
        BinaryColumnEnds(header, k, j);
      }
      forall x: nat ensures Holders(columns, x) == if x < row then 1 else 0 {
        BinaryColumnsTile(header, count, x);
      }
    }
  }

  // One header.

  predicate Starts(header: Header) {
    |header.keywords| >= 3 && header.keywords[1] == "BITPIX" && header.keywords[2] == "NAXIS"
  }

  /** The first header is the primary one, all others are of a known extension. */
  predicate KindOk(header: Header, index: nat) {
    && Starts(header)
    && if index == 0 then header.keywords[0] == "SIMPLE" && header.simple
       else header.keywords[0] == "XTENSION" && header.extension in {Text("IMAGE"), Text("TABLE"), Text("BINTABLE")}
  }

  function KindOf(header: Header, index: nat): Kind {
    if index == 0 then PrimaryImage
    else if header.extension == Text("IMAGE") then Image
    else if header.extension == Text("TABLE") then AsciiTable
    else BinaryTable
  }

  predicate BitpixOk(v: Value) {
    v.Integer? && v.value in {8, 16, 32, 64, -32, -64}
  }

  function AxisOf(header: Header, k: nat): Number {
    if k in header.axes && k !in header.repeatedAxes then IntegerOr(header.axes[k], None, 0) else None
  }

  predicate ShapeOk(header: Header, limits: Limits) {
    && IntegerOr(header.naxis, None, 0).Some? && header.naxis.value <= limits.axes
    && forall k :: 0 < k <= header.naxis.value ==> AxisOf(header, k).Some?
  }

  function ShapeOf(header: Header, axes: nat): seq<nat> {
    seq(axes, k requires 0 <= k < axes => if AxisOf(header, k + 1).Some? && AxisOf(header, k + 1).value >= 0 then AxisOf(header, k + 1).value else 0)
  }

  function Pcount(header: Header, index: nat): Number {
    IntegerOr(header.pcount, if index == 0 then Some(0) else None, 0)
  }

  function Gcount(header: Header, index: nat): Number {
    IntegerOr(header.gcount, if index == 0 then Some(1) else None, 1)
  }

  function Absolute(n: int): nat {
    if n < 0 then -n else n
  }

  /** The layout of an image without and of a table with parameters. */
  function ImageLayout(kind: Kind, bitpix: int, shape: seq<nat>): Layout {
    Layout(kind, bitpix, shape, (if shape == [] then 0 else Product(shape)) * (Absolute(bitpix) / 8), [], 0, 0)
  }

  predicate TableOk(header: Header, kind: Kind, bitpix: int, shape: seq<nat>, pcount: nat, gcount: nat, limits: Limits) {
    && bitpix == 8 && |shape| == 2 && gcount == 1 && (kind.AsciiTable? ==> pcount == 0)
    && var rows := shape[0] * shape[1];
    var heap := IntegerOr(header.theap, Some(rows), rows);
    heap.Some? && heap.value <= rows + pcount && ColumnsOk(header, kind, shape[0], limits)
  }

  function TableLayout(header: Header, kind: Kind, shape: seq<nat>, pcount: nat, heap: nat): Layout
    requires |shape| == 2 && shape[0] * shape[1] <= heap <= shape[0] * shape[1] + pcount
  {
    var total := shape[0] * shape[1] + pcount;
    var count := if header.tfields.Integer? && header.tfields.value >= 0 then header.tfields.value else 0;
    Layout(kind, 8, shape, total, ColumnsOf(header, kind, count), heap, total - heap)
  }

  predicate NameOk(header: Header) {
    (header.extname.Missing? || header.extname.Text?) && IntegerOr(header.extver, Some(1), 1).Some?
  }

  /** What a header must satisfy for its HDU to be described. */
  predicate Acceptable(header: Header, index: nat, limits: Limits) {
    && !header.repeated && !header.special && KindOk(header, index)
    && BitpixOk(header.bitpix) && ShapeOk(header, limits)
    && Pcount(header, index).Some? && Gcount(header, index).Some?
    && (var kind, shape := KindOf(header, index), ShapeOf(header, header.naxis.value);
        var pcount, gcount := Pcount(header, index).value, Gcount(header, index).value;
        if Tabular(kind) then TableOk(header, kind, header.bitpix.value, shape, pcount, gcount, limits) else pcount == 0 && gcount == 1)
    && NameOk(header)
  }

  function LayoutOf(header: Header, index: nat, limits: Limits): Layout
    requires Acceptable(header, index, limits)
  {
    var kind, shape := KindOf(header, index), ShapeOf(header, header.naxis.value);
    if Tabular(kind) then
      var rows := shape[0] * shape[1];
      TableLayout(header, kind, shape, Pcount(header, index).value, IntegerOr(header.theap, Some(rows), rows).value)
    else ImageLayout(kind, header.bitpix.value, shape)
  }

  /** The keyword is an integer of at least `least`, or missing where that is allowed. */
  predicate AtLeast(v: Value, least: int, optional: bool) {
    (v.Integer? && v.value >= least) || (v.Missing? && optional)
  }

  /** What is asked of any header, keyword by keyword. */
  predicate StructureOk(header: Header, index: nat, limits: Limits) {
    && !header.repeated && !header.special
    && |header.keywords| >= 3 && header.keywords[..3] == [if index == 0 then "SIMPLE" else "XTENSION", "BITPIX", "NAXIS"]
    && (if index == 0 then header.simple else header.extension in {Text("IMAGE"), Text("TABLE"), Text("BINTABLE")})
    && header.bitpix in {Integer(8), Integer(16), Integer(32), Integer(64), Integer(-32), Integer(-64)}
    && AtLeast(header.naxis, 0, false) && header.naxis.value <= limits.axes
    && (forall n: nat :: 0 < n <= header.naxis.value ==> n in header.axes && n !in header.repeatedAxes && AtLeast(header.axes[n], 0, false))
    && AtLeast(header.pcount, 0, index == 0) && AtLeast(header.gcount, 1, index == 0)
    && !header.extname.Integer? && !header.extname.Other? && AtLeast(header.extver, 1, true)
  }

  /** What is asked of a table in addition. */
  predicate TableHeaderOk(header: Header, kind: Kind, limits: Limits)
    requires header.pcount.Integer? && header.pcount.value >= 0
  {
    && header.bitpix == Integer(8) && header.naxis == Integer(2) && header.gcount == Integer(1) && (kind == AsciiTable ==> header.pcount == Integer(0))
    && 1 in header.axes && 2 in header.axes && AtLeast(header.axes[1], 0, false) && AtLeast(header.axes[2], 0, false)
    && var rows := header.axes[1].value * header.axes[2].value;
    && (header.theap.Missing? || (header.theap.Integer? && rows <= header.theap.value <= rows + header.pcount.value))
    && ColumnsOk(header, kind, header.axes[1].value, limits)
  }

  lemma ShapeOkMeans(header: Header, limits: Limits)
    ensures ShapeOk(header, limits) <==>
            && AtLeast(header.naxis, 0, false) && header.naxis.value <= limits.axes
            && forall n: nat :: 0 < n <= header.naxis.value ==> n in header.axes && n !in header.repeatedAxes && AtLeast(header.axes[n], 0, false)
  {
    forall n: nat ensures AxisOf(header, n).Some? <==> n in header.axes && n !in header.repeatedAxes && AtLeast(header.axes[n], 0, false) {
    }
    if ShapeOk(header, limits) {
      forall n: nat | 0 < n <= header.naxis.value ensures n in header.axes && n !in header.repeatedAxes && AtLeast(header.axes[n], 0, false) {
        assert AxisOf(header, n).Some?;
      }
    }
  }

  lemma TableOkMeans(header: Header, index: nat, kind: Kind, limits: Limits)
    requires StructureOk(header, index, limits) && index > 0
    ensures TableHeaderOk(header, kind, limits) <==>
            var shape := ShapeOf(header, header.naxis.value);
            TableOk(header, kind, header.bitpix.value, shape, header.pcount.value, header.gcount.value, limits)
  {
    ShapeOkMeans(header, limits);
    var shape := ShapeOf(header, header.naxis.value);
    if |shape| == 2 {
      assert AxisOf(header, 1).Some? && AxisOf(header, 2).Some?;
      assert shape[0] == header.axes[1].value && shape[1] == header.axes[2].value;
    }
  }

  /** A header is accepted exactly when its keywords have these values. */
  lemma AcceptableMeans(header: Header, index: nat, limits: Limits)
    ensures Acceptable(header, index, limits) <==>
            && StructureOk(header, index, limits)
            && if index > 0 && header.extension == Text("TABLE") then TableHeaderOk(header, AsciiTable, limits)
               else if index > 0 && header.extension == Text("BINTABLE") then TableHeaderOk(header, BinaryTable, limits)
               else header.pcount in {Missing, Integer(0)} && header.gcount in {Missing, Integer(1)}
  {
    assert |"IMAGE"| != |"BINTABLE"| && "IMAGE"[0] != "TABLE"[0] && "TABLE"[0] != "BINTABLE"[0];
    ShapeOkMeans(header, limits);
    assert StructureOk(header, index, limits) <==>
           && !header.repeated && !header.special && KindOk(header, index) && BitpixOk(header.bitpix) && ShapeOk(header, limits)
           && Pcount(header, index).Some? && Gcount(header, index).Some? && NameOk(header);
    if StructureOk(header, index, limits) && index > 0 {
      TableOkMeans(header, index, KindOf(header, index), limits);
    }
  }

  /** An accepted header is the primary one exactly at the start, else of the kind it names, with a pixel type of table 8. */
  lemma AcceptedKind(header: Header, index: nat, limits: Limits)
    requires Acceptable(header, index, limits)
    ensures
      var h := LayoutOf(header, index, limits);
      && (h.kind.PrimaryImage? <==> index == 0)
      && (h.kind.Image? <==> index > 0 && header.extension == Text("IMAGE"))
      && (h.kind.AsciiTable? <==> index > 0 && header.extension == Text("TABLE"))
      && (h.kind.BinaryTable? <==> index > 0 && header.extension == Text("BINTABLE"))
      && header.bitpix == Integer(h.bitpix) && h.bitpix in {8, 16, 32, 64, -32, -64} && (Tabular(h.kind) ==> h.bitpix == 8)
      && header.naxis == Integer(|h.shape|) && forall n :: 0 < n <= |h.shape| ==> n in header.axes && header.axes[n] == Integer(h.shape[n - 1])
  {
    assert |"IMAGE"| != |"BINTABLE"| && "IMAGE"[0] != "TABLE"[0] && "TABLE"[0] != "BINTABLE"[0];
    var shape := LayoutOf(header, index, limits).shape;
    forall n | 0 < n <= |shape| ensures n in header.axes && header.axes[n] == Integer(shape[n - 1]) {
      assert AxisOf(header, n).Some?;
    }
  }

  /** The data size is that of section 4.4.1.2 of the FITS Standard 4.0, in bits. */
  lemma DataSize(header: Header, index: nat, limits: Limits)
    requires Acceptable(header, index, limits)
    ensures
      var h := LayoutOf(header, index, limits);
      h.dataBytes * 8 ==
      if h.shape == [] then 0
      else Absolute(h.bitpix) * (Gcount(header, index).value * (Pcount(header, index).value + Product(h.shape)))
  {
    var h := LayoutOf(header, index, limits);
    if Tabular(KindOf(header, index)) {
      assert h.shape == [h.shape[0], h.shape[1]];
      assert Product(h.shape) == h.shape[0] * Product([h.shape[1]]);
      assert Product([h.shape[1]]) == h.shape[1] * Product([]);
    } else {
      BitsInBytes(Absolute(h.bitpix), if h.shape == [] then 0 else Product(h.shape));
    }
  }

  lemma BitsInBytes(bits: nat, n: nat)
    requires bits in {8, 16, 32, 64}
    ensures n * (bits / 8) * 8 == bits * n
  {
  }

  datatype Described = Rejected | Described(layout: Layout)

  method ReadShape(header: Header, limits: Limits) returns (ok: bool, shape: seq<nat>)
    ensures ok <==> ShapeOk(header, limits)
    ensures ok ==> shape == ShapeOf(header, header.naxis.value)
  {
    ok, shape := false, [];
    var axes := IntegerOr(header.naxis, None, 0);
    if axes.None? || axes.value > limits.axes {
      return;
    }
    var count: nat := axes.value;
    for n := 0 to count
      invariant !ok && shape == ShapeOf(header, n) && forall k :: 0 < k <= n ==> AxisOf(header, k).Some?
    {
      var axis := AxisOf(header, n + 1);
      if axis.None? {
        return;
      }
      shape := shape + [axis.value];
    }
    ok := true;
  }

  method DescribeHeader(header: Header, index: nat, limits: Limits) returns (r: Described)
    ensures r.Described? <==> Acceptable(header, index, limits)
    ensures r.Described? ==> r.layout == LayoutOf(header, index, limits)
  {
    if header.repeated || !KindOk(header, index) || header.special || !BitpixOk(header.bitpix) {
      return Rejected;
    }
    var kind := KindOf(header, index);
    var ok, shape := ReadShape(header, limits);
    var pcount, gcount := Pcount(header, index), Gcount(header, index);
    if !ok || pcount.None? || gcount.None? {
      return Rejected;
    }
    var layout;
    if Tabular(kind) {
      if header.bitpix.value != 8 || |shape| != 2 || gcount.value != 1 || (kind.AsciiTable? && pcount.value != 0) {
        return Rejected;
      }
      var rows := shape[0] * shape[1];
      var heap := IntegerOr(header.theap, Some(rows), rows);
      if heap.None? || heap.value > rows + pcount.value {
        return Rejected;
      }
      var columns := CheckColumns(header, kind, shape[0], limits);
      if columns.Refused? {
        return Rejected;
      }
      layout := Layout(kind, 8, shape, rows + pcount.value, columns.columns, heap.value, rows + pcount.value - heap.value);
    } else {
      if pcount.value != 0 || gcount.value != 1 {
        return Rejected;
      }
      layout := ImageLayout(kind, header.bitpix.value, shape);
    }
    r := if NameOk(header) then Described(layout) else Rejected;
  }

  // The header blocks of a file.

  type Parser = string -> Parsed

  predicate IsEndCard(card: string) {
    |card| >= 8 && card[..8] == "END     "
  }

  predicate Blank(s: string) {
    forall k :: 0 <= k < |s| ==> s[k] in " \t\n\r\U{0B}\U{0C}"
  }

  function CardAt(block: string, k: nat): string
    requires |block| == BLOCK && k < 36
  {
    block[CARD * k..CARD * (k + 1)]
  }

  /** The first END card from card `k` on; 36 when there is none. */
  function EndFrom(block: string, k: nat): (n: nat)
    requires |block| == BLOCK && k <= 36
    ensures k <= n <= 36
    decreases 36 - k
  {
    if k == 36 || IsEndCard(CardAt(block, k)) then k else EndFrom(block, k + 1)
  }

  /** Nothing but blanks after the word END, on its card and in the rest of its block. */
  predicate EndsBlank(block: string, k: nat)
    requires |block| == BLOCK && k < 36
  {
    |CardAt(block, k)| >= 8 && Blank(CardAt(block, k)[8..]) && Blank(block[CARD * (k + 1)..])
  }

  predicate HasBlocks(content: string, start: nat, n: nat) {
    start + BLOCK * n <= |content|
  }

  function BlockAt(content: string, start: nat, i: nat): (block: string)
    requires HasBlocks(content, start, i + 1)
    ensures |block| == BLOCK
  {
    content[start + BLOCK * i..start + BLOCK * (i + 1)]
  }

  /** A whole block without an END card. */
  predicate GoesPast(content: string, start: nat, i: nat) {
    HasBlocks(content, start, i + 1) && EndFrom(BlockAt(content, start, i), 0) == 36
  }

  /** A whole block with an END card and nothing but padding after it. */
  predicate Closes(content: string, start: nat, i: nat) {
    && HasBlocks(content, start, i + 1)
    && var block := BlockAt(content, start, i);
    EndFrom(block, 0) < 36 && EndsBlank(block, EndFrom(block, 0))
  }

  /** The `n` blocks from `start` are a header: only the last one has an END card. */
  predicate IsHeader(content: string, start: nat, n: nat) {
    n >= 1 && Closes(content, start, n - 1) && forall i: nat :: i < n - 1 ==> GoesPast(content, start, i)
  }

  /** The word END, filled up to eight characters, at this place of the file. */
  ghost predicate EndAt(content: string, x: nat) {
    x + 8 <= |content| && content[x..x + 8] == "END     "
  }

  lemma {:induction false} EndFromMeans(block: string, k: nat)
    requires |block| == BLOCK && k <= 36
    ensures
      var n := EndFrom(block, k);
      (n < 36 ==> IsEndCard(CardAt(block, n))) && forall j: nat :: k <= j < n ==> !IsEndCard(CardAt(block, j))
    decreases 36 - k
  {
    if k < 36 && !IsEndCard(CardAt(block, k)) {
      EndFromMeans(block, k + 1);
    }
  }

  lemma SubSlice(s: string, a: nat, b: nat, x: nat, n: nat)
    requires a + x + n <= b <= |s|
    ensures s[a..b][x..x + n] == s[a + x..a + x + n]
  {
    var t := s[a..b];
    var u, v := t[x..x + n], s[a + x..a + x + n];
    forall k | 0 <= k < n ensures u[k] == v[k] {
      assert t[x + k] == s[a + x + k];
    }
  }

  /** Card `j` of block `i` starts with END. */
  ghost predicate EndCard(content: string, start: nat, i: nat, j: nat) {
    EndAt(content, start + BLOCK * i + CARD * j)
  }

  lemma EndInBlock(content: string, start: nat, i: nat, j: nat)
    requires HasBlocks(content, start, i + 1) && j < 36
    ensures IsEndCard(CardAt(BlockAt(content, start, i), j)) <==> EndCard(content, start, i, j)
  {
    SubSlice(content, start + BLOCK * i, start + BLOCK * (i + 1), CARD * j, CARD);
    SubSlice(content, start + BLOCK * i + CARD * j, start + BLOCK * i + CARD * (j + 1), 0, 8);
    assert CardAt(BlockAt(content, start, i), j)[..8] == CardAt(BlockAt(content, start, i), j)[0..0 + 8];
  }

  /** The first card of block `i` that does. */
  ghost predicate FirstEnd(content: string, start: nat, i: nat, n: nat) {
    n < 36 && EndCard(content, start, i, n) && forall j: nat :: j < n ==> !EndCard(content, start, i, j)
  }

  lemma EndFromFirst(content: string, start: nat, i: nat, n: nat)
    requires HasBlocks(content, start, i + 1)
    ensures FirstEnd(content, start, i, n) <==> n < 36 && n == EndFrom(BlockAt(content, start, i), 0)
  {
    var block := BlockAt(content, start, i);
    EndFromMeans(block, 0);
    forall j: nat | j < 36 ensures IsEndCard(CardAt(block, j)) <==> EndCard(content, start, i, j) {
      EndInBlock(content, start, i, j);
    }
    var first: nat := EndFrom(block, 0);
    assert first < 36 ==> EndCard(content, start, i, first);
    assert forall j: nat :: j < first ==> !EndCard(content, start, i, j);
  }

  predicate Space(c: char) {
    c == ' ' || c == '\t' || c == '\n' || c == '\r' || c == '\U{0B}' || c == '\U{0C}'
  }

  lemma BlankMeans(content: string, a: nat, b: nat)
    requires a <= b <= |content|
    ensures Blank(content[a..b]) <==> forall x :: a <= x < b ==> Space(content[x])
  {
    if Blank(content[a..b]) {
      forall x | a <= x < b ensures Space(content[x]) {
        assert content[a..b][x - a] == content[x];
      }
    }
  }

  lemma EndsBlankMeans(content: string, start: nat, i: nat, n: nat)
    requires HasBlocks(content, start, i + 1) && n < 36
    ensures EndsBlank(BlockAt(content, start, i), n) <==>
            forall x :: start + BLOCK * i + CARD * n + 8 <= x < start + BLOCK * (i + 1) ==> Space(content[x])
  {
    var block, at := BlockAt(content, start, i), start + BLOCK * i;
    var x, y := at + CARD * n + 8, at + CARD * (n + 1);
    SubSlice(content, at, at + BLOCK, CARD * n, CARD);
    SubSlice(content, at + CARD * n, at + CARD * (n + 1), 8, CARD - 8);
    SubSlice(content, at, at + BLOCK, CARD * (n + 1), BLOCK - CARD * (n + 1));
    assert CardAt(block, n)[8..] == content[x..y];
    assert block[CARD * (n + 1)..] == content[y..at + BLOCK];
    BlankMeans(content, x, y);
    BlankMeans(content, y, at + BLOCK);
  }

  lemma PassesIffNoEnd(content: string, start: nat, i: nat)
    requires HasBlocks(content, start, i + 1)
    ensures GoesPast(content, start, i) <==> forall k: nat :: !FirstEnd(content, start, i, k)
  {
    forall k: nat ensures FirstEnd(content, start, i, k) <==> k < 36 && k == EndFrom(BlockAt(content, start, i), 0) {
      EndFromFirst(content, start, i, k);
    }
    var first: nat := EndFrom(BlockAt(content, start, i), 0);
    assert first < 36 ==> FirstEnd(content, start, i, first);
  }

  /** The first END card of block `i` is its card `k`, and nothing but white space follows it in the block. */
  ghost predicate EndsAt(content: string, start: nat, i: nat, k: nat) {
    && FirstEnd(content, start, i, k)
    && start + BLOCK * (i + 1) <= |content|
    && forall x :: start + BLOCK * i + CARD * k + 8 <= x < start + BLOCK * (i + 1) ==> Space(content[x])
  }

  lemma ClosesMeans(content: string, start: nat, i: nat)
    requires HasBlocks(content, start, i + 1)
    ensures Closes(content, start, i) <==> exists k: nat :: EndsAt(content, start, i, k)
  {
    var first: nat := EndFrom(BlockAt(content, start, i), 0);
    forall k: nat ensures FirstEnd(content, start, i, k) <==> k < 36 && k == first {
      EndFromFirst(content, start, i, k);
    }
    if first < 36 {
      EndsBlankMeans(content, start, i, first);
      assert Closes(content, start, i) <==> EndsAt(content, start, i, first);
    }
  }

  lemma PassesMeans(content: string, start: nat, n: nat)
    requires HasBlocks(content, start, n)
    ensures (forall i: nat :: i < n ==> GoesPast(content, start, i)) <==>
            forall i: nat, k: nat :: i < n ==> !FirstEnd(content, start, i, k)
  {
    if forall i: nat :: i < n ==> GoesPast(content, start, i) {
      forall i: nat, k: nat | i < n ensures !FirstEnd(content, start, i, k) {
        PassesIffNoEnd(content, start, i);
      }
    } else {
      var i: nat :| i < n && !GoesPast(content, start, i);
      PassesIffNoEnd(content, start, i);
    }
  }

  /**
    * `n + 1` blocks are a header exactly when the first END card of the file from there on is in the last of them,
    * and only white space follows it there.
    */
  lemma HeaderMeans(content: string, start: nat, n: nat)
    ensures IsHeader(content, start, n + 1) <==>
            && start + BLOCK * (n + 1) <= |content|
            && (forall i: nat, k: nat :: i < n ==> !FirstEnd(content, start, i, k))
            && exists k: nat :: EndsAt(content, start, n, k)
  {
    if HasBlocks(content, start, n + 1) {
      ClosesMeans(content, start, n);
      PassesMeans(content, start, n);
    }
    assert (n + 1) - 1 == n;
  }

  lemma HeaderGoesPast(content: string, start: nat, m: nat, n: nat)
    requires IsHeader(content, start, m) && forall i: nat :: i < n ==> GoesPast(content, start, i)
    ensures m > n
  {
    var last: nat := m - 1;
    assert !GoesPast(content, start, last);
  }

  lemma HeaderUnique(content: string, start: nat, m: nat, n: nat)
    requires IsHeader(content, start, m) && IsHeader(content, start, n)
    ensures m == n
  {
    HeaderGoesPast(content, start, m, n - 1);
    HeaderGoesPast(content, start, n, m - 1);
  }

  /** A header can only end at the first END card, and does when that is properly padded. */
  lemma EndsHere(content: string, start: nat, n: nat)
    requires HasBlocks(content, start, n + 1) && EndFrom(BlockAt(content, start, n), 0) < 36
    requires forall i: nat :: i < n ==> GoesPast(content, start, i)
    ensures forall m: nat :: IsHeader(content, start, m) <==> m == n + 1 && Closes(content, start, n)
  {
    forall m: nat | IsHeader(content, start, m) ensures m == n + 1 && Closes(content, start, n) {
      HeaderGoesPast(content, start, m, n);
      assert m > n + 1 ==> GoesPast(content, start, n);
    }
  }

  datatype HeaderEnd = NoHeader | After(blocks: nat)

  /** Find the END card in one block. */
  method FindEnd(block: string) returns (k: nat)
    requires |block| == BLOCK
    ensures k == EndFrom(block, 0)
  {
    k := 0;
    while k < 36 && !IsEndCard(CardAt(block, k))
      invariant k <= 36 && EndFrom(block, k) == EndFrom(block, 0)
    {
      k := k + 1;
    }
  }

  predicate HeaderAllowed(limits: Limits, total: nat, n: nat) {
    36 * n <= limits.cards && total + BLOCK * n <= limits.headerBytes
  }

  /** Read blocks until one has an END card, within the limits on cards and on all header bytes. */
  method ReadHeader(content: string, start: nat, total: nat, limits: Limits) returns (r: HeaderEnd)
    requires start <= |content|
    ensures r.After? ==> IsHeader(content, start, r.blocks) && HeaderAllowed(limits, total, r.blocks)
    ensures forall n: nat :: IsHeader(content, start, n) && HeaderAllowed(limits, total, n) ==> r == After(n)
  {
    var n := 0;
    while true
      invariant HasBlocks(content, start, n)
      invariant forall i: nat :: i < n ==> GoesPast(content, start, i)
      decreases |content| - BLOCK * n
    {
      forall m: nat | IsHeader(content, start, m) ensures m > n {
        HeaderGoesPast(content, start, m, n);
      }
      if !HeaderAllowed(limits, total, n + 1) || !HasBlocks(content, start, n + 1) {
        return NoHeader;
      }
      var block := BlockAt(content, start, n);
      var k := FindEnd(block);
      if k < 36 {
        EndsHere(content, start, n);
        return if EndsBlank(block, k) then After(n + 1) else NoHeader;
      }
      n := n + 1;
    }
  }

  // One HDU, and the whole file.

  function DescribeText(parse: Parser, limits: Limits, text: string, index: nat): Described {
    var p := parse(text);
    if p.Parsed? && Acceptable(p.header, index, limits) then Described(LayoutOf(p.header, index, limits)) else Rejected
  }

  /** What the text of a header is found to describe. */
  type Describer = (string, nat) -> Described

  ghost predicate IsDescriber(describe: Describer, parse: Parser, limits: Limits) {
    forall text, index {:trigger DescribeText(parse, limits, text, index)} :: describe(text, index) == DescribeText(parse, limits, text, index)
  }

  /** The HDU of this index that the file holds at its header offset. */
  predicate HduAt(content: string, describe: Describer, limits: Limits, index: nat, h: Hdu) {
    && IsHeader(content, h.headerOffset, h.headerBlocks) && 36 * h.headerBlocks <= limits.cards
    && h.End() <= |content| && h.paddedBytes == Padded(h.layout.dataBytes)
    && describe(content[h.headerOffset..h.DataOffset()], index) == Described(h.layout)
  }

  /** Which HDU stands where. */
  type Placement = (nat, Hdu) -> bool

  ghost predicate IsPlacement(at: Placement, content: string, describe: Describer, limits: Limits) {
    forall k, h {:trigger HduAt(content, describe, limits, k, h)} :: at(k, h) <==> HduAt(content, describe, limits, k, h)
  }

  lemma HduUnique(content: string, describe: Describer, limits: Limits, index: nat, g: Hdu, h: Hdu)
    requires HduAt(content, describe, limits, index, g) && HduAt(content, describe, limits, index, h) && g.headerOffset == h.headerOffset
    ensures g == h
  {
    HeaderUnique(content, g.headerOffset, g.headerBlocks, h.headerBlocks);
  }

  method Describe(parse: Parser, limits: Limits, text: string, index: nat, ghost describe: Describer) returns (r: Described)
    requires IsDescriber(describe, parse, limits)
    ensures r == describe(text, index)
  {
    var p := parse(text);
    r := Rejected;
    if p.Parsed? {
      r := DescribeHeader(p.header, index, limits);
    }
    assert r == DescribeText(parse, limits, text, index);
  }

  datatype OneHdu = NoHdu | Found(hdu: Hdu)

  method ReadHdu(content: string, parse: Parser, limits: Limits, index: nat, start: nat, total: nat, ghost describe: Describer) returns (r: OneHdu)
    requires start <= |content| && IsDescriber(describe, parse, limits)
    ensures r.Found? ==>
              && HduAt(content, describe, limits, index, r.hdu) && r.hdu.headerOffset == start && r.hdu.HeaderBytes() > 0
              && r.hdu.End() <= |content| && total + r.hdu.HeaderBytes() <= limits.headerBytes
    ensures forall h :: HduAt(content, describe, limits, index, h) && h.headerOffset == start && total + h.HeaderBytes() <= limits.headerBytes ==> r == Found(h)
  {
    var end := ReadHeader(content, start, total, limits);
    if end.NoHeader? {
      return NoHdu;
    }
    forall h | HduAt(content, describe, limits, index, h) && h.headerOffset == start ensures h.headerBlocks == end.blocks {
      HeaderUnique(content, start, h.headerBlocks, end.blocks);
    }
    var described := Describe(parse, limits, content[start..start + BLOCK * end.blocks], index, describe);
    if described.Rejected? {
      return NoHdu;
    }
    var hdu := Hdu(described.layout, start, end.blocks, Padded(described.layout.dataBytes));
    r := if hdu.End() > |content| then NoHdu else Found(hdu);
  }

  function EndOf(hdus: seq<Hdu>): nat {
    if hdus == [] then 0 else hdus[|hdus| - 1].End()
  }

  function HeaderTotal(hdus: seq<Hdu>): nat {
    if hdus == [] then 0 else HeaderTotal(hdus[..|hdus| - 1]) + hdus[|hdus| - 1].HeaderBytes()
  }

  /** Where HDU `k` has to start: where the one before ends. */
  function StartOf(hdus: seq<Hdu>, k: nat): nat
    requires k <= |hdus|
  {
    if k == 0 then 0 else hdus[k - 1].End()
  }

  ghost predicate Stands(at: Placement, hdus: seq<Hdu>, k: nat)
    requires k < |hdus|
  {
    at(k, hdus[k]) && hdus[k].headerBlocks > 0 && hdus[k].headerOffset == StartOf(hdus, k)
  }

  ghost predicate Chained(at: Placement, hdus: seq<Hdu>) {
    forall k: nat :: k < |hdus| ==> Stands(at, hdus, k)
  }

  /** Whole-file compression, told by the first bytes. */
  predicate Compressed(content: string) {
    "\U{1F}\U{8B}" <= content || "BZh" <= content || "\U{FD}7zXZ" <= content || "PK" <= content
  }

  /** The first bytes of gzip, bzip2, xz and zip files. */
  lemma CompressedMeans(content: string)
    ensures Compressed(content) <==>
            || (|content| >= 2 && content[0] as int == 0x1F && content[1] as int == 0x8B)
            || (|content| >= 3 && content[0] == 'B' && content[1] == 'Z' && content[2] == 'h')
            || (|content| >= 5 && content[0] as int == 0xFD && content[1] == '7' && content[2] == 'z' && content[3] == 'X' && content[4] == 'Z')
            || (|content| >= 2 && content[0] == 'P' && content[1] == 'K')
  {
  }

  /** The HDUs are the whole file, and within the limits. */
  ghost predicate Covers(at: Placement, size: nat, limits: Limits, hdus: seq<Hdu>) {
    && Chained(at, hdus) && EndOf(hdus) == size
    && |hdus| <= limits.hdus && HeaderTotal(hdus) <= limits.headerBytes
  }

  datatype Scan = Failed | Completed(hdus: seq<Hdu>)

  lemma {:induction false} TotalGrows(hdus: seq<Hdu>, k: nat)
    requires k <= |hdus|
    ensures HeaderTotal(hdus[..k]) <= HeaderTotal(hdus)
  {
    if k < |hdus| {
      TotalGrows(hdus[..|hdus| - 1], k);
      assert hdus[..|hdus| - 1][..k] == hdus[..k];
    } else {
      assert hdus[..k] == hdus;
    }
  }

  /** A cover of the file goes on with an HDU at the end of any part of it. */
  lemma GoesOn(at: Placement, size: nat, limits: Limits, hdus: seq<Hdu>, part: seq<Hdu>)
    requires Covers(at, size, limits, hdus) && part <= hdus && EndOf(part) < size
    ensures |part| < |hdus| && at(|part|, hdus[|part|]) && hdus[|part|].headerOffset == EndOf(part)
    ensures HeaderTotal(part) + hdus[|part|].HeaderBytes() <= limits.headerBytes
  {
    var k := |part|;
    assert k == |hdus| ==> part == hdus;
    assert Stands(at, hdus, k);
    TotalGrows(hdus, k + 1);
    assert hdus[..k + 1][..k] == part;
  }

  lemma {:induction false} StartsGrow(at: Placement, hdus: seq<Hdu>, j: nat, k: nat)
    requires Chained(at, hdus) && j <= k <= |hdus|
    ensures StartOf(hdus, j) <= StartOf(hdus, k) && (j < k ==> StartOf(hdus, j) < StartOf(hdus, k))
    decreases k
  {
    if j < k {
      StartsGrow(at, hdus, j, k - 1);
      assert Stands(at, hdus, k - 1);
    }
  }

  lemma EndsThere(at: Placement, size: nat, limits: Limits, hdus: seq<Hdu>, part: seq<Hdu>)
    requires Covers(at, size, limits, hdus) && part <= hdus && EndOf(part) == size
    ensures part == hdus
  {
    StartsGrow(at, hdus, |part|, |hdus|);
  }

  lemma ChainSnoc(at: Placement, hdus: seq<Hdu>, h: Hdu)
    requires Chained(at, hdus) && at(|hdus|, h) && h.headerBlocks > 0 && h.headerOffset == EndOf(hdus)
    ensures Chained(at, hdus + [h]) && EndOf(hdus + [h]) == h.End() && HeaderTotal(hdus + [h]) == HeaderTotal(hdus) + h.HeaderBytes()
  {
    var longer := hdus + [h];
    assert longer[..|longer| - 1] == hdus;
    forall k: nat | k < |longer| ensures Stands(at, longer, k) {
      if k < |hdus| {
        assert Stands(at, hdus, k);
      }
    }
  }

  /** The loop over HDUs: it completes exactly when some sequence of them covers the file, with that one. */
  method ScanHdus(content: string, parse: Parser, limits: Limits, ghost describe: Describer, ghost at: Placement) returns (r: Scan)
    requires IsDescriber(describe, parse, limits) && IsPlacement(at, content, describe, limits)
    ensures r.Completed? ==> Covers(at, |content|, limits, r.hdus)
    ensures forall hdus: seq<Hdu> :: Covers(at, |content|, limits, hdus) ==> r == Completed(hdus)
  {
    var inventory: seq<Hdu>, position, total := [], 0, 0;
    while position < |content|
      invariant Chained(at, inventory) && position == EndOf(inventory) <= |content|
      invariant total == HeaderTotal(inventory) <= limits.headerBytes && |inventory| <= limits.hdus
      invariant forall hdus: seq<Hdu> :: Covers(at, |content|, limits, hdus) ==> inventory <= hdus
      decreases |content| - position
    {
      forall hdus: seq<Hdu> | Covers(at, |content|, limits, hdus)
        ensures |inventory| < |hdus| && at(|inventory|, hdus[|inventory|]) && hdus[|inventory|].headerOffset == position
        ensures total + hdus[|inventory|].HeaderBytes() <= limits.headerBytes
      {
        GoesOn(at, |content|, limits, hdus, inventory);
      }
      if |inventory| >= limits.hdus {
        return Failed;
      }
      var one := NextHdu(content, parse, limits, |inventory|, position, total, describe, at);
      if one.NoHdu? {
        return Failed;
      }
      ChainSnoc(at, inventory, one.hdu);
      forall hdus: seq<Hdu> | Covers(at, |content|, limits, hdus) ensures inventory + [one.hdu] <= hdus {
        assert hdus[|inventory|] == one.hdu;
      }
      inventory, position, total := inventory + [one.hdu], one.hdu.End(), total + one.hdu.HeaderBytes();
    }
    forall hdus: seq<Hdu> | Covers(at, |content|, limits, hdus) ensures inventory == hdus {
      EndsThere(at, |content|, limits, hdus, inventory);
    }
    r := Completed(inventory);
  }

  /** `ReadHdu` in terms of the placement. */
  method NextHdu(content: string, parse: Parser, limits: Limits, index: nat, start: nat, total: nat, ghost describe: Describer, ghost at: Placement)
    returns (r: OneHdu)
    requires start <= |content| && IsDescriber(describe, parse, limits) && IsPlacement(at, content, describe, limits)
    ensures r.Found? ==>
              && at(index, r.hdu) && r.hdu.headerOffset == start && r.hdu.HeaderBytes() > 0
              && r.hdu.End() <= |content| && total + r.hdu.HeaderBytes() <= limits.headerBytes
    ensures forall h :: at(index, h) && h.headerOffset == start && total + h.HeaderBytes() <= limits.headerBytes ==> r == Found(h)
  {
    r := ReadHdu(content, parse, limits, index, start, total, describe);
    forall h | at(index, h) && h.headerOffset == start && total + h.HeaderBytes() <= limits.headerBytes ensures r == Found(h) {
      assert HduAt(content, describe, limits, index, h);
    }
  }

  function DescriberOf(parse: Parser, limits: Limits): Describer {
    (text: string, index: nat) => DescribeText(parse, limits, text, index)
  }

  /** The HDUs a file of this content holds, by index. */
  function PlacedIn(content: string, parse: Parser, limits: Limits): Placement {
    (k: nat, h: Hdu) => HduAt(content, DescriberOf(parse, limits), limits, k, h)
  }

  /** Scan a file: it completes exactly when it is a sequence of acceptable HDUs, and then with that sequence. */
  method ScanFile(content: string, parse: Parser, limits: Limits) returns (r: Scan)
    ensures r.Completed? ==> !Compressed(content) && Covers(PlacedIn(content, parse, limits), |content|, limits, r.hdus)
    ensures r.Failed? ==> Compressed(content) || forall hdus :: !Covers(PlacedIn(content, parse, limits), |content|, limits, hdus)
  {
    if Compressed(content) {
      return Failed;
    }
    r := ScanHdus(content, parse, limits, DescriberOf(parse, limits), PlacedIn(content, parse, limits));
  }

  // What a completed scan says of the file.

  /** Where two inventories of one file agree, the next HDU is the same as well. */
  lemma NextAgrees(content: string, parse: Parser, limits: Limits, a: seq<Hdu>, b: seq<Hdu>, part: seq<Hdu>)
    requires Covers(PlacedIn(content, parse, limits), |content|, limits, a) && Covers(PlacedIn(content, parse, limits), |content|, limits, b)
    requires part <= a && part <= b && EndOf(part) < |content|
    ensures |part| < |a| && |part| < |b| && a[|part|] == b[|part|]
  {
    var at := PlacedIn(content, parse, limits);
    GoesOn(at, |content|, limits, a, part);
    GoesOn(at, |content|, limits, b, part);
    HduUnique(content, DescriberOf(parse, limits), limits, |part|, a[|part|], b[|part|]);
  }

  /** Two inventories of one file agree as far as the one goes. */
  lemma {:induction false} CoversAgree(content: string, parse: Parser, limits: Limits, a: seq<Hdu>, b: seq<Hdu>, k: nat)
    requires Covers(PlacedIn(content, parse, limits), |content|, limits, a) && Covers(PlacedIn(content, parse, limits), |content|, limits, b)
    requires k <= |a|
    ensures a[..k] <= b
    decreases k
  {
    if k > 0 {
      var part := a[..k - 1];
      CoversAgree(content, parse, limits, a, b, k - 1);
      StartsGrow(PlacedIn(content, parse, limits), a, k - 1, |a|);
      assert EndOf(part) == StartOf(a, k - 1) && StartOf(a, |a|) == |content|;
      NextAgrees(content, parse, limits, a, b, part);
      assert a[..k] == part + [a[k - 1]];
    }
  }

  /** A file has at most one inventory, so that every completed scan of it finds the same HDUs. */
  lemma InventoryUnique(content: string, parse: Parser, limits: Limits, a: seq<Hdu>, b: seq<Hdu>)
    requires Covers(PlacedIn(content, parse, limits), |content|, limits, a) && Covers(PlacedIn(content, parse, limits), |content|, limits, b)
    ensures a == b
  {
    CoversAgree(content, parse, limits, a, b, |a|);
    assert a[..|a|] == a;
    EndsThere(PlacedIn(content, parse, limits), |content|, limits, b, a);
  }

  /** How many HDUs a byte of the file belongs to. */
  function Owners(hdus: seq<Hdu>, x: nat): nat {
    if hdus == [] then 0
    else
      var last := hdus[|hdus| - 1];
      Owners(hdus[..|hdus| - 1], x) + if last.headerOffset <= x < last.End() then 1 else 0
  }

  lemma ChainFront(at: Placement, hdus: seq<Hdu>)
    requires Chained(at, hdus) && hdus != []
    ensures Chained(at, hdus[..|hdus| - 1]) && EndOf(hdus[..|hdus| - 1]) == hdus[|hdus| - 1].headerOffset
  {
    var front := hdus[..|hdus| - 1];
    forall k: nat | k < |front| ensures Stands(at, front, k) {
      assert Stands(at, hdus, k);
    }
    assert Stands(at, hdus, |front|);
  }

  lemma {:induction false} OwnersOfChain(at: Placement, hdus: seq<Hdu>, x: nat)
    requires Chained(at, hdus)
    ensures Owners(hdus, x) == if x < EndOf(hdus) then 1 else 0
  {
    if hdus != [] {
      ChainFront(at, hdus);
      OwnersOfChain(at, hdus[..|hdus| - 1], x);
    }
  }

  lemma {:induction false} BlockAligned(at: Placement, hdus: seq<Hdu>, k: nat)
    requires Chained(at, hdus) && (forall j :: 0 <= j < |hdus| ==> hdus[j].paddedBytes % BLOCK == 0) && k <= |hdus|
    ensures StartOf(hdus, k) % BLOCK == 0
  {
    if k > 0 {
      BlockAligned(at, hdus, k - 1);
      assert Stands(at, hdus, k - 1);
      SumAligned(hdus[k - 1].headerOffset, hdus[k - 1].headerBlocks, hdus[k - 1].paddedBytes);
    }
  }

  lemma SumAligned(a: nat, blocks: nat, b: nat)
    requires a % BLOCK == 0 && b % BLOCK == 0
    ensures (a + BLOCK * blocks + b) % BLOCK == 0
  {
  }

  lemma PaddedUp(n: nat)
    ensures Padded(n) % BLOCK == 0 && n <= Padded(n) < n + BLOCK
  {
  }

  /**
    * The HDUs of a completed scan tile the file from its first byte to its last in blocks of 2880
    * bytes: every byte is in exactly one, each starts on a block, and its data are padded to the
    * next block and no further.
    */
  lemma CompletedTiles(content: string, parse: Parser, limits: Limits, hdus: seq<Hdu>)
    requires Covers(PlacedIn(content, parse, limits), |content|, limits, hdus)
    ensures |content| % BLOCK == 0
    ensures forall x: nat :: Owners(hdus, x) == if x < |content| then 1 else 0
    ensures forall k: nat :: k < |hdus| ==>
                               && hdus[k].headerOffset % BLOCK == 0 && hdus[k].headerBlocks > 0
                               && hdus[k].paddedBytes % BLOCK == 0 && hdus[k].layout.dataBytes <= hdus[k].paddedBytes < hdus[k].layout.dataBytes + BLOCK
  {
    var at := PlacedIn(content, parse, limits);
    forall k: nat | k < |hdus|
      ensures hdus[k].headerBlocks > 0 && hdus[k].headerOffset == StartOf(hdus, k)
      ensures hdus[k].paddedBytes % BLOCK == 0 && hdus[k].layout.dataBytes <= hdus[k].paddedBytes < hdus[k].layout.dataBytes + BLOCK
    {
      assert Stands(at, hdus, k);
      PaddedUp(hdus[k].layout.dataBytes);
    }
    forall k: nat | k <= |hdus| ensures StartOf(hdus, k) % BLOCK == 0 {
      BlockAligned(at, hdus, k);
    }
    assert StartOf(hdus, |hdus|) == |content|;
    forall x: nat ensures Owners(hdus, x) == if x < |content| then 1 else 0 {
      OwnersOfChain(at, hdus, x);
    }
  }

  /** Every HDU of a completed scan has the layout of the acceptable header that the file holds there. */
  lemma CompletedLayouts(content: string, parse: Parser, limits: Limits, hdus: seq<Hdu>, k: nat)
    requires Covers(PlacedIn(content, parse, limits), |content|, limits, hdus) && k < |hdus|
    ensures hdus[k].End() <= |content| && IsHeader(content, hdus[k].headerOffset, hdus[k].headerBlocks)
    ensures DescribeText(parse, limits, content[hdus[k].headerOffset..hdus[k].DataOffset()], k) == Described(hdus[k].layout)
  {
    assert Stands(PlacedIn(content, parse, limits), hdus, k);
  }
}
