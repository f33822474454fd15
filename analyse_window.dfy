/** The register details dialog: every register window decoded as eleven types
    under the four word/byte order combinations, the column widths, the bit
    matrix and the dialog size. The four decoders are cursors (see Payload):
    a successful decode of the table is followed by reset(), a failed one is
    not, and the bit matrix never resets. */
module AnalyseWindows {
  import opened PyFormat
  import opened Payload

  datatype Style = HexStyle(digits: nat) | UnsignedStyle | SignedStyle | FloatStyle

  /** A row of the table: its name, the field width in bytes and how it is shown. */
  datatype RowType = RowType(name: string, width: nat, style: Style)

  const RowTypes: seq<RowType> := [
    RowType("HEX16", 2, HexStyle(4)), RowType("UINT16", 2, UnsignedStyle), RowType("INT16", 2, SignedStyle),
    RowType("HEX32", 4, HexStyle(8)), RowType("UINT32", 4, UnsignedStyle), RowType("INT32", 4, SignedStyle),
    RowType("HEX64", 8, HexStyle(16)), RowType("UINT64", 8, UnsignedStyle), RowType("INT64", 8, SignedStyle),
    RowType("Float32", 4, FloatStyle), RowType("Float64", 8, FloatStyle)]

  const ColumnLabels: seq<string> := ["Word/Byte", "Big/Big", "Big/Little", "Little/Big", "Little/Little"]

  /** (word order, byte order) of the decoders behind columns 1 to 4. */
  const Orders: seq<(Endian, Endian)> := [(Big, Big), (Big, Little), (Little, Big), (Little, Little)]

  const InitialPaddings: seq<int> := [9, 0, 0, 0, 0]

  /** Field widths of the bit matrix attempts: UINT64, UINT32, UINT16. */
  const BitWidths: seq<nat> := [8, 4, 2]

  predicate WellFormed(t: RowType)
  {
    IsWidth(t.width) && (t.style.HexStyle? ==> t.style.digits == 2 * t.width)
  }

  lemma RowTypesWellFormed()
    ensures |RowTypes| == 11
    ensures forall r :: 0 <= r < 11 ==> WellFormed(RowTypes[r])
  {
  }

  // ---------------------------------------------------------------------------
  // One column: the decoder's pointer through the rows
  // ---------------------------------------------------------------------------

  predicate AllWidths(types: seq<RowType>)
  {
    forall i :: 0 <= i < |types| ==> IsWidth(types[i].width)
  }

  /** The pointer after one row: back to 0 after a successful decode (reset),
      left advanced by the width after a failed one. */
  function Step(payload: seq<Byte>, o: (Endian, Endian), p: nat, t: RowType): nat
    requires IsWidth(t.width)
  {
    if FieldAt(payload, p, t.width, o.0, o.1).Some? then 0 else p + t.width
  }

  /** The pointer of decoder o after the rows `types`, starting from 0. */
  function ColumnEnd(payload: seq<Byte>, o: (Endian, Endian), types: seq<RowType>): nat
    requires AllWidths(types)
    decreases |types|
  {
    if types == [] then 0
    else Step(payload, o, ColumnEnd(payload, o, types[..|types| - 1]), types[|types| - 1])
  }

  /** The value decoder o reads for table row r, None for an exception. */
  function CellValue(payload: seq<Byte>, o: (Endian, Endian), r: nat): Option<nat>
    requires r < |RowTypes|
  {
    RowTypesWellFormed();
    FieldAt(payload, ColumnEnd(payload, o, RowTypes[..r]), RowTypes[r].width, o.0, o.1)
  }

  /** The decoder's pointer is back at 0 exactly when every row so far fitted in
      the payload; otherwise it is past the end of the payload. */
  lemma {:induction false} ColumnEndFacts(payload: seq<Byte>, o: (Endian, Endian), types: seq<RowType>)
    requires AllWidths(types)
    ensures ColumnEnd(payload, o, types) == 0 <==> forall j :: 0 <= j < |types| ==> types[j].width <= |payload|
    ensures ColumnEnd(payload, o, types) != 0 ==> ColumnEnd(payload, o, types) > |payload|
    decreases |types|
  {
    if types != [] {
      var init := types[..|types| - 1];
      assert AllWidths(init);
      ColumnEndFacts(payload, o, init);
      forall j | 0 <= j < |init| ensures init[j] == types[j] {
      }
    }
  }

  /** A decode fails exactly when this or an earlier row of the column did not
      fit: after the first failure every later cell of the column is N/A, even
      one whose width the payload could hold. A decode that succeeds reads the
      start of the payload. */
  lemma CellValueFacts(payload: seq<Byte>, o: (Endian, Endian), r: nat)
    requires r < |RowTypes|
    ensures CellValue(payload, o, r).None? <==> exists j :: 0 <= j <= r && |payload| < RowTypes[j].width
    ensures CellValue(payload, o, r).Some? ==> CellValue(payload, o, r) == FieldAt(payload, 0, RowTypes[r].width, o.0, o.1)
  {
    RowTypesWellFormed();
    var init := RowTypes[..r];
    assert AllWidths(init);
    ColumnEndFacts(payload, o, init);
    forall j | 0 <= j < r ensures init[j] == RowTypes[j] {
    }
  }

  /** With four or more registers every cell is decoded from register 0. */
  lemma FullPayloadValues(registers: seq<Word>, c: nat, r: nat)
    requires |registers| >= 4 && c < 4 && r < 11
    ensures CellValue(RegistersToBytes(registers), Orders[c], r)
         == Some(BigEndianValue(Arrange(registers[..RowTypes[r].width / 2], Orders[c].0, Orders[c].1)))
  {
    RowTypesWellFormed();
    var payload := RegistersToBytes(registers);
    var o := Orders[c];
    var w := RowTypes[r].width;
    var m := w / 2;
    assert 2 * m == w && m <= 4;
    assert forall j :: 0 <= j < 11 ==> RowTypes[j].width <= 8;
    CellValueFacts(payload, o, r);
    assert CellValue(payload, o, r) == FieldAt(payload, 0, w, o.0, o.1);
    FieldOfRegisters(registers, 0, m, o.0, o.1);
    assert registers[0..m] == registers[..m];
  }

  /** With two or three registers the 16- and 32-bit rows decode, and HEX64 and
      every row after it, Float32 included, are N/A. With one register only the
      16-bit rows decode; with none, nothing does. */
  lemma ShortPayloadValues(registers: seq<Word>, c: nat, r: nat)
    requires |registers| < 4 && c < 4 && r < 11
    ensures CellValue(RegistersToBytes(registers), Orders[c], r).Some? <==>
      (r < 6 && |registers| >= 2) || (r < 3 && |registers| == 1)
  {
    var payload := RegistersToBytes(registers);
    CellValueFacts(payload, Orders[c], r);
    if r >= 6 {
      assert |payload| < RowTypes[6].width;
    } else if r >= 3 && |registers| < 2 {
      assert |payload| < RowTypes[3].width;
    } else if |registers| == 0 {
      assert |payload| < RowTypes[0].width;
    } else {
      assert forall j :: 0 <= j <= r ==> RowTypes[j].width <= |payload|;
    }
  }

  // ---------------------------------------------------------------------------
  // The text of the table
  // ---------------------------------------------------------------------------

  /** The text of one cell: "N/A" for an exception, hex zero-padded to the
      field's digits and grouped by four, str() of the integer, or the text of
      the float (`floatText(width, bits)`, which this model does not define). */
  function CellText(t: RowType, v: Option<nat>, floatText: (nat, nat) -> string): string
  {
    match v
    case None => "N/A"
    case Some(u) =>
      match t.style
      case HexStyle(d) => Grouped(PaddedDigits(u, 16, d))
      case UnsignedStyle => Dec(u)
      case SignedStyle => Dec(Signed(u, t.width / 2))
      case FloatStyle => floatText(t.width, u)
  }

  /** Table row r: the type name and the four decoders' cells. */
  function TableRow(payload: seq<Byte>, r: nat, floatText: (nat, nat) -> string): (row: seq<string>)
    requires r < |RowTypes|
    ensures |row| == 5
  {
    [RowTypes[r].name] + seq(4, c requires 0 <= c < 4 => CellText(RowTypes[r], CellValue(payload, Orders[c], r), floatText))
  }

  /** text_rows: the label row, then one row per type. */
  function TextRows(payload: seq<Byte>, floatText: (nat, nat) -> string): (rows: seq<seq<string>>)
    ensures |rows| == 12 && forall r :: 0 <= r < 12 ==> |rows[r]| == 5
  {
    [ColumnLabels] + seq(11, r requires 0 <= r < 11 => TableRow(payload, r, floatText))
  }

  /** The table is a 5-column grid: the labels, then the eleven types in order. */
  lemma TableShape(payload: seq<Byte>, floatText: (nat, nat) -> string)
    ensures TextRows(payload, floatText)[0] == ["Word/Byte", "Big/Big", "Big/Little", "Little/Big", "Little/Little"]
    ensures forall r :: 0 <= r < 12 ==> |TextRows(payload, floatText)[r]| == 5
    ensures forall r :: 0 <= r < 11 ==> TextRows(payload, floatText)[r + 1][0] == RowTypes[r].name
  {
  }

  /** Each cell is computed by its own decoder: the cell in column c + 1 depends
      only on that decoder's order, and is N/A just for a failed decode. */
  lemma CellsIndependent(payload: seq<Byte>, floatText: (nat, nat) -> string, r: nat, c: nat)
    requires r < 11 && c < 4
    ensures TextRows(payload, floatText)[r + 1][c + 1] == CellText(RowTypes[r], CellValue(payload, Orders[c], r), floatText)
    ensures CellValue(payload, Orders[c], r).None? ==> TextRows(payload, floatText)[r + 1][c + 1] == "N/A"
  {
    var row := TableRow(payload, r, floatText);
    assert TextRows(payload, floatText)[r + 1] == row;
    assert row[c + 1] == CellText(RowTypes[r], CellValue(payload, Orders[c], r), floatText);
  }

  lemma HexPow(k: nat)
    ensures Pow(16, 4 * k) == Pow(WordBase, k)
  {
    assert Pow(16, 2) == 256;
    PowAdd(16, 2, 2);
    PowMul(16, 4, k);
  }

  /** A HEX cell of a decoded field is the field's exact digit count (4, 8 or
      16) of upper-case hex digits with a space after every fourth: the spaces
      removed, the digits read back as the value. */
  lemma HexCell(t: RowType, u: nat, floatText: (nat, nat) -> string)
    requires WellFormed(t) && t.style.HexStyle? && u < Pow(WordBase, t.width / 2)
    ensures var cell := CellText(t, Some(u), floatText);
      var digits := Ungrouped(cell);
      |cell| == |digits| + (|digits| - 1) / 4 && |digits| == t.style.digits &&
      (forall k :: 0 <= k < |digits| ==> IsDigitIn(digits[k], 16)) &&
      ValueOf(digits, 16) == u
  {
    var d := t.style.digits;
    HexPow(t.width / 2);
    assert 4 * (t.width / 2) == d;
    PaddedDigitsExact(u, 16, d);
    var digits := PaddedDigits(u, 16, d);
    GroupedLength(digits);
    UngroupGrouped(digits);
  }

  // ---------------------------------------------------------------------------
  // Column widths and dialog size
  // ---------------------------------------------------------------------------

  /** The padding after the cells: the largest of the start value and every length. */
  function MaxLen(init: int, cells: seq<string>): (m: int)
    ensures m >= init && forall i :: 0 <= i < |cells| ==> m >= |cells[i]|
    ensures m == init || exists i :: 0 <= i < |cells| && m == |cells[i]|
    decreases |cells|
  {
    if cells == [] then init
    else
      var m0 := MaxLen(init, cells[..|cells| - 1]);
      assert forall i :: 0 <= i < |cells| - 1 ==> cells[..|cells| - 1][i] == cells[i];
      Max(m0, |cells[|cells| - 1]|)
  }

  /** One row widening the paddings, as the two ifs of the table loop do. */
  function Widened(paddings: seq<int>, row: seq<string>): (p: seq<int>)
    requires |paddings| == 5 && |row| == 5
    ensures |p| == 5
  {
    seq(5, c requires 0 <= c < 5 => Max(paddings[c], |row[c]|))
  }

  /** column_paddings after the given typed rows (the label row is not measured). */
  function PaddingsAfter(rows: seq<seq<string>>): (p: seq<int>)
    requires forall r :: 0 <= r < |rows| ==> |rows[r]| == 5
    ensures |p| == 5
    decreases |rows|
  {
    if rows == [] then InitialPaddings
    else Widened(PaddingsAfter(rows[..|rows| - 1]), rows[|rows| - 1])
  }

  /** Column c's padding is the largest length in column c of the typed rows,
      and at least its start value (9 for the name column, 0 otherwise). */
  lemma {:induction false} PaddingsAreMaxima(rows: seq<seq<string>>, c: nat)
    requires forall r :: 0 <= r < |rows| ==> |rows[r]| == 5
    requires c < 5
    ensures PaddingsAfter(rows)[c] == MaxLen(InitialPaddings[c], seq(|rows|, r requires 0 <= r < |rows| => rows[r][c]))
    decreases |rows|
  {
    if rows != [] {
      var init := rows[..|rows| - 1];
      PaddingsAreMaxima(init, c);
      var col := seq(|rows|, r requires 0 <= r < |rows| => rows[r][c]);
      assert col[..|rows| - 1] == seq(|init|, r requires 0 <= r < |init| => init[r][c]);
    }
  }

  function Sum(xs: seq<int>): int
  {
    if xs == [] then 0 else Sum(xs[..|xs| - 1]) + xs[|xs| - 1]
  }

  /** The dialog width: the paddings plus 8, but never more than the screen width minus 2. */
  function DialogWidth(paddings: seq<int>, screenCols: int): (w: int)
    ensures w <= screenCols - 2 && w <= Sum(paddings) + 8
    ensures w == Sum(paddings) + 8 || w == screenCols - 2
  {
    if Sum(paddings) + 8 > screenCols - 2 then screenCols - 2 else Sum(paddings) + 8
  }

  /** The dialog height: 23 on a screen of more than 22 lines, else two less than the screen. */
  function DialogHeight(screenRows: int): (h: int)
    ensures h <= 23
    ensures screenRows > 22 ==> h == 23
    ensures screenRows <= 22 ==> h == screenRows - 2
  {
    if 22 < screenRows then 23 else screenRows - 2
  }

  // ---------------------------------------------------------------------------
  // The bit matrix
  // ---------------------------------------------------------------------------

  /** The label of bit i: the number right-aligned to 3, then a space. */
  function BitLabel(i: int): string
  {
    RightAlign(Dec(i), 3) + " "
  }

  function BitLabels(): (cols: seq<string>)
    ensures |cols| == 16
  {
    seq(16, k requires 0 <= k < 16 => BitLabel(60 - 4 * k))
  }

  /** The header line of the bit matrix. */
  function BitHeader(): string
  {
    RightAlign(Join(BitLabels(), " "), 15 + 64 + 15) + " "
  }

  lemma {:induction false} JoinLength(parts: seq<string>, n: nat)
    requires parts != [] && forall i :: 0 <= i < |parts| ==> |parts[i]| == n
    ensures |Join(parts, " ")| == |parts| * (n + 1) - 1
    decreases |parts|
  {
    if |parts| > 1 {
      JoinLength(parts[1..], n);
    }
  }

  lemma BitLabelLength(i: nat)
    requires i < 100
    ensures |BitLabel(i)| == 4
  {
    SmallDec(i);
  }

  lemma SmallDec(n: nat)
    requires n < 100
    ensures |Dec(n)| <= 2
  {
    if n >= 10 {
      var qd := DivMod(n, 10);
      assert Digits(n, 10) == Digits(qd.0, 10) + [DigitChar(qd.1)];
    }
  }

  lemma BitLabelWidths()
    ensures forall k :: 0 <= k < 16 ==> |BitLabels()[k]| == 4
  {
    forall k | 0 <= k < 16 ensures |BitLabels()[k]| == 4 {
      BitLabelAt(k);
    }
  }

  lemma BitLabelAt(k: nat)
    requires k < 16
    ensures |BitLabels()[k]| == 4
  {
    BitLabelLength(60 - 4 * k);
  }

  /** The first and the last label. */
  lemma BitLabelEnds()
    ensures BitLabels()[0] == " 60 " && BitLabels()[15] == "  0 "
  {
    assert Digits(60, 10) == "60" by {
      assert DivMod(60, 10) == (6, 0);
      assert Digits(6, 10) == "6";
    }
    assert Digits(0, 10) == "0";
  }

  /** The bit matrix header: the 16 labels 60, 56, ..., 0, each in four
      characters, joined by spaces and right-aligned to 94, plus a space. */
  lemma BitHeaderShape()
    ensures forall k :: 0 <= k < 16 ==> |BitLabels()[k]| == 4
    ensures |BitHeader()| == 95
    ensures BitHeader()[..15] == Repeat(' ', 15)
    ensures BitHeader()[15..94] == Join(BitLabels(), " ")
    ensures BitLabels()[0] == " 60 " && BitLabels()[15] == "  0 "
  {
    BitLabelWidths();
    JoinLength(BitLabels(), 4);
    AlignedHeader(Join(BitLabels(), " "));
    BitLabelEnds();
  }

  lemma AlignedHeader(j: string)
    requires |j| == 79
    ensures var h := RightAlign(j, 94) + " ";
      |h| == 95 && h[..15] == Repeat(' ', 15) && h[15..94] == j
  {
    var r := RightAlign(j, 94);
    assert r == Repeat(' ', 15) + j;
    assert (r + " ")[..15] == Repeat(' ', 15) && (r + " ")[15..94] == j;
  }

  /** One row of the bit matrix: the decoder's label right-aligned to 13, a
      space, then the value as 64 binary digits grouped by four. */
  function BitRow(d: nat, u: nat): string
    requires d < 4
  {
    RightAlign(ColumnLabels[d + 1], 13) + " " + Grouped(PaddedDigits(u, 2, 64))
  }

  /** Every column label fits in the 13 characters it is right-aligned to. */
  lemma LabelWidth(d: nat)
    requires d < 4
    ensures |RightAlign(ColumnLabels[d + 1], 13) + " "| == 14
  {
    assert |ColumnLabels[d + 1]| <= 13;
  }

  lemma Base2Word()
    ensures Pow(2, 64) == Pow(WordBase, 4)
  {
    assert Pow(2, 16) == WordBase by {
      assert Pow(2, 4) == 16;
      PowAdd(2, 4, 4);
      PowAdd(2, 8, 8);
    }
    PowMul(2, 16, 4);
  }

  /** A 64-bit value in binary: 64 digits grouped by four, 79 characters. */
  lemma BitStringDigits(u: nat)
    requires u < Pow(WordBase, 4)
    ensures var g := Grouped(PaddedDigits(u, 2, 64));
      |g| == 79 && |Ungrouped(g)| == 64 && ValueOf(Ungrouped(g), 2) == u &&
      forall k :: 0 <= k < 64 ==> IsDigitIn(Ungrouped(g)[k], 2)
  {
    Base2Word();
    PaddedDigitsExact(u, 2, 64);
    var digits := PaddedDigits(u, 2, 64);
    GroupedLength(digits);
    UngroupGrouped(digits);
  }

  /** A 64-bit value's row: the label right-aligned to 13 and a space, then
      79 characters whose non-spaces are the 64 binary digits of the value. */
  lemma BitRowDigits(d: nat, u: nat)
    requires d < 4 && u < Pow(WordBase, 4)
    ensures var row := BitRow(d, u);
      |row| == 14 + 79 && row[..14] == RightAlign(ColumnLabels[d + 1], 13) + " " &&
      |Ungrouped(row[14..])| == 64 && ValueOf(Ungrouped(row[14..]), 2) == u &&
      forall k :: 0 <= k < 64 ==> IsDigitIn(Ungrouped(row[14..])[k], 2)
  {
    var prefix := RightAlign(ColumnLabels[d + 1], 13) + " ";
    var g := Grouped(PaddedDigits(u, 2, 64));
    LabelWidth(d);
    BitStringDigits(u);
    assert BitRow(d, u) == prefix + g;
    assert (prefix + g)[..14] == prefix && (prefix + g)[14..] == g;
  }

  /** One pass of the bit matrix at field width w over decoders d..3: a row per
      success, stopping at the first failure. Returns the rows, the pointers
      afterwards and whether all decoders succeeded. A row is kept as the
      decoder's index and the value it read. */
  function BitPass(payload: seq<Byte>, w: nat, ptrs: seq<nat>, d: nat): (pass: (seq<(nat, nat)>, seq<nat>, bool))
    requires IsWidth(w) && |ptrs| == 4 && d <= 4
    ensures |pass.1| == 4 && OfDecoders(pass.0)
    decreases 4 - d
  {
    if d == 4 then ([], ptrs, true)
    else
      var f := FieldAt(payload, ptrs[d], w, Orders[d].0, Orders[d].1);
      var next := ptrs[d := ptrs[d] + w];
      if f.None? then ([], next, false)
      else
        var rest := BitPass(payload, w, next, d + 1);
        ([(d, f.value)] + rest.0, rest.1, rest.2)
  }

  /** The bit matrix loop: widths in order, until a pass succeeds for all four decoders. */
  function BitRowsFrom(payload: seq<Byte>, fi: nat, ptrs: seq<nat>): (vals: seq<(nat, nat)>)
    requires fi <= |BitWidths| && |ptrs| == 4
    ensures OfDecoders(vals)
    decreases |BitWidths| - fi
  {
    if fi == |BitWidths| then []
    else
      var pass := BitPass(payload, BitWidths[fi], ptrs, 0);
      pass.0 + (if pass.2 then [] else BitRowsFrom(payload, fi + 1, pass.1))
  }

  /** The four decoders' pointers after the rows `types`. */
  function ColumnEnds(payload: seq<Byte>, types: seq<RowType>): (ptrs: seq<nat>)
    requires AllWidths(types)
    ensures |ptrs| == 4
  {
    seq(4, c requires 0 <= c < 4 => ColumnEnd(payload, Orders[c], types))
  }

  /** The pointers the table leaves the decoders in. */
  function TableEnds(payload: seq<Byte>): (ptrs: seq<nat>)
    ensures |ptrs| == 4
  {
    RowTypesWellFormed();
    ColumnEnds(payload, RowTypes)
  }

  /** Every row names one of the four decoders. */
  predicate OfDecoders(vals: seq<(nat, nat)>)
  {
    forall i :: 0 <= i < |vals| ==> vals[i].0 < 4
  }

  /** The text of bit rows. */
  function Rendered(vals: seq<(nat, nat)>): (rows: seq<string>)
    requires OfDecoders(vals)
    ensures |rows| == |vals|
  {
    seq(|vals|, i requires 0 <= i < |vals| => BitRow(vals[i].0, vals[i].1))
  }

  lemma RenderedAppend(a: seq<(nat, nat)>, b: seq<(nat, nat)>)
    requires OfDecoders(a) && OfDecoders(b)
    ensures OfDecoders(a + b)
    ensures Rendered(a + b) == Rendered(a) + Rendered(b)
  {
    var l := Rendered(a + b);
    var r := Rendered(a) + Rendered(b);
    forall i | 0 <= i < |l| ensures l[i] == r[i] {
      if i < |a| {
        assert (a + b)[i] == a[i];
      } else {
        assert (a + b)[i] == b[i - |a|];
      }
    }
  }

  /** self.bits: the header, then the rows of the passes. */
  function Bits(payload: seq<Byte>): seq<string>
  {
    [BitHeader()] + BitRowsOf(payload)
  }

  /** The rows of the bit matrix, from the pointers the table left. */
  function BitRowsOf(payload: seq<Byte>): seq<string>
  {
    Rendered(BitRowsFrom(payload, 0, TableEnds(payload)))
  }

  /** The bit rows when every decode of the pass at width 8 succeeds from pointer 0. */
  function FullBitRows(payload: seq<Byte>, d: nat): (rows: seq<(nat, nat)>)
    requires |payload| >= 8 && d <= 4
    ensures |rows| == 4 - d && OfDecoders(rows)
  {
    Labelled(FullValues(payload), d)
  }

  /** The four decoders' 64-bit fields at pointer 0. */
  function FullValues(payload: seq<Byte>): (vals: seq<nat>)
    requires |payload| >= 8
    ensures |vals| == 4
  {
    seq(4, d requires 0 <= d < 4 => FieldAt(payload, 0, 8, Orders[d].0, Orders[d].1).value)
  }

  /** The values from the d-th on, each with the index of its decoder. */
  function Labelled(vals: seq<nat>, d: nat): (rows: seq<(nat, nat)>)
    requires d <= |vals| <= 4
    ensures |rows| == |vals| - d && OfDecoders(rows)
    decreases |vals| - d
  {
    if d == |vals| then [] else [(d, vals[d])] + Labelled(vals, d + 1)
  }

  lemma {:induction false} LabelledAt(vals: seq<nat>, d: nat, i: nat)
    requires d + i < |vals| <= 4
    ensures Labelled(vals, d)[i] == (d + i, vals[d + i])
    decreases i
  {
    if i > 0 {
      LabelledAt(vals, d + 1, i - 1);
    }
  }

  /** Decoders 0..d-1 advanced by one 64-bit field, the others at 0. */
  function FirstAdvanced(d: nat): (ptrs: seq<nat>)
    ensures |ptrs| == 4
  {
    [if 0 < d then 8 else 0, if 1 < d then 8 else 0, if 2 < d then 8 else 0, if 3 < d then 8 else 0]
  }

  lemma {:induction false} FullPass(payload: seq<Byte>, d: nat)
    requires |payload| >= 8 && d <= 4
    ensures BitPass(payload, 8, FirstAdvanced(d), d) == (FullBitRows(payload, d), FirstAdvanced(4), true)
    decreases 4 - d
  {
    if d < 4 {
      var ptrs := FirstAdvanced(d);
      assert ptrs[d] == 0 && ptrs[d := 8] == FirstAdvanced(d + 1);
      FullPass(payload, d + 1);
      PassSucceeds(payload, 8, ptrs, d);
      assert FullBitRows(payload, d) == [(d, FullValues(payload)[d])] + FullBitRows(payload, d + 1);
    }
  }

  lemma {:induction false} EmptyPasses(payload: seq<Byte>, fi: nat, ptrs: seq<nat>)
    requires fi <= |BitWidths| && |ptrs| == 4
    requires ptrs[0] > |payload|
    ensures BitRowsFrom(payload, fi, ptrs) == []
    decreases |BitWidths| - fi
  {
    if fi < |BitWidths| {
      var pass := BitPass(payload, BitWidths[fi], ptrs, 0);
      assert pass.0 == [] && !pass.2 && pass.1[0] > |payload|;
      EmptyPasses(payload, fi + 1, pass.1);
    }
  }

  lemma FullTableEnds(payload: seq<Byte>)
    requires |payload| >= 8
    ensures TableEnds(payload) == FirstAdvanced(0)
  {
    RowTypesWellFormed();
    assert AllWidths(RowTypes);
    forall c | 0 <= c < 4 ensures ColumnEnd(payload, Orders[c], RowTypes) == 0 {
      ColumnEndFacts(payload, Orders[c], RowTypes);
    }
  }

  lemma FullBitValues(payload: seq<Byte>)
    requires |payload| >= 8
    ensures BitRowsFrom(payload, 0, TableEnds(payload)) == FullBitRows(payload, 0)
  {
    FullTableEnds(payload);
    FullPass(payload, 0);
  }

  lemma FullBitValueAt(registers: seq<Word>, d: nat)
    requires |registers| >= 4 && d < 4
    ensures FullBitRows(RegistersToBytes(registers), 0)[d] == (d, BigEndianValue(Arrange(registers[..4], Orders[d].0, Orders[d].1)))
  {
    var payload := RegistersToBytes(registers);
    var o := Orders[d];
    LabelledAt(FullValues(payload), 0, d);
    FieldOfRegisters(registers, 0, 4, o.0, o.1);
    assert registers[0..4] == registers[..4];
    assert FieldAt(payload, 0, 8, o.0, o.1) == Some(BigEndianValue(Arrange(registers[..4], o.0, o.1)));
  }

  /** With four or more registers the bit matrix is one 64-bit row per decoder. */
  lemma BitsOfFullPayload(registers: seq<Word>)
    requires |registers| >= 4
    ensures |Bits(RegistersToBytes(registers))| == 5
    ensures forall d :: 0 <= d < 4 ==>
      Bits(RegistersToBytes(registers))[d + 1] == BitRow(d, BigEndianValue(Arrange(registers[..4], Orders[d].0, Orders[d].1)))
  {
    var payload := RegistersToBytes(registers);
    FullBitValues(payload);
    var vals := FullBitRows(payload, 0);
    var bits := Bits(payload);
    assert bits == [BitHeader()] + Rendered(vals);
    forall d | 0 <= d < 4
      ensures bits[d + 1] == BitRow(d, BigEndianValue(Arrange(registers[..4], Orders[d].0, Orders[d].1)))
    {
      FullBitValueAt(registers, d);
      assert bits[d + 1] == Rendered(vals)[d];
    }
  }

  /** With fewer than four registers the bit matrix holds only the header: the
      failed Float64 decode left every pointer past the end of the payload. */
  lemma BitsOfShortPayload(registers: seq<Word>)
    requires |registers| < 4
    ensures |Bits(RegistersToBytes(registers))| == 1
  {
    var payload := RegistersToBytes(registers);
    RowTypesWellFormed();
    assert AllWidths(RowTypes);
    ColumnEndFacts(payload, Orders[0], RowTypes);
    assert |payload| < RowTypes[10].width;
    EmptyPasses(payload, 0, TableEnds(payload));
  }

  // ---------------------------------------------------------------------------
  // The dialog, built as AnalyseWindow.__init__ does
  // ---------------------------------------------------------------------------

  /** The space-splicing loop: a space inserted after every fourth character. */
  method InsertSpaces(s: string) returns (data: string)
    ensures data == Grouped(s)
  {
    data := s;
    var i := 4;
    ghost var j := 0;
    while i < |data|
      invariant i == 5 * j + 4 && |data| == |s| + j
      invariant data == Grouped(s[..Min(4 * j + 4, |s|)]) + s[Min(4 * j + 4, |s|)..]
      decreases |s| - 4 * j
    {
      GroupSpliceStep(s, j, data);
      data := data[..i] + " " + data[i..];
      i := i + 5;
      j := j + 1;
    }
    assert s[..|s|] == s;
  }

  /** One round of the splicing loop: a space after the (j + 1)-th group of four
      extends the grouped prefix by one group. */
  lemma GroupSpliceStep(s: string, j: nat, data: string)
    requires 4 * j + 4 < |s| && |data| == |s| + j
    requires data == Grouped(s[..4 * j + 4]) + s[4 * j + 4..]
    ensures var next, m := data[..5 * j + 4] + " " + data[5 * j + 4..], Min(4 * j + 8, |s|);
      |next| == |s| + j + 1 && next == Grouped(s[..m]) + s[m..]
  {
    var i := 5 * j + 4;
    var t, rest := s[..4 * j + 4], s[4 * j + 4..];
    assert data[..i] == Grouped(t) && data[i..] == rest by {
      GroupsLength(t, j);
    }
    if 4 * j + 8 <= |s| {
      var u, w := s[4 * j + 4..4 * j + 8], s[4 * j + 8..];
      assert Grouped(t) + " " + rest == Grouped(s[..4 * j + 8]) + w by {
        assert rest == u + w && s[..4 * j + 8] == t + u;
        SpliceGroup(t, u, w, j);
      }
    } else {
      assert Grouped(t) + " " + rest == Grouped(s[..|s|]) + s[|s|..] by {
        assert s[..|s|] == s == t + rest && rest + [] == rest && s[|s|..] == [];
        SpliceGroup(t, rest, [], j);
      }
    }
  }

  /** A space between the spaced groups of t and the next group u, up to four
      characters, gives the spaced groups of t + u, whatever follows. */
  lemma SpliceGroup(t: string, u: string, w: string, j: nat)
    requires |t| == 4 * j + 4 && 1 <= |u| <= 4
    ensures Grouped(t) + " " + (u + w) == Grouped(t + u) + w
  {
    GroupedAppend(t, u, j);
    assert Grouped(u) == u;
  }

  /** j + 1 full groups of four take 5 * j + 4 characters once spaced. */
  lemma {:induction false} GroupsLength(t: string, j: nat)
    requires |t| == 4 * j + 4
    ensures |Grouped(t)| == 5 * j + 4
    decreases j
  {
    if j > 0 {
      GroupsLength(t[4..], j - 1);
    }
  }

  /** Spacing k + 1 full groups followed by more text: the groups, a space,
      then the rest spaced on its own. */
  lemma {:induction false} GroupedAppend(t: string, u: string, k: nat)
    requires |t| == 4 * k + 4 && |u| >= 1
    ensures Grouped(t + u) == Grouped(t) + " " + Grouped(u)
    decreases k
  {
    assert (t + u)[..4] == t[..4];
    if k == 0 {
      assert (t + u)[4..] == u;
    } else {
      assert (t + u)[4..] == t[4..] + u;
      GroupedAppend(t[4..], u, k - 1);
    }
  }

  predicate Decoders(ds: seq<PayloadDecoder>, payload: seq<Byte>)
    reads ds
  {
    |ds| == 4 &&
    (forall i, j :: 0 <= i < j < 4 ==> ds[i] != ds[j]) &&
    forall c :: 0 <= c < 4 ==> ds[c].payload == payload && ds[c].wordOrder == Orders[c].0 && ds[c].byteOrder == Orders[c].1
  }

  function Pointers(ds: seq<PayloadDecoder>): (ptrs: seq<nat>)
    requires |ds| == 4
    reads ds
    ensures |ptrs| == 4 && forall c :: 0 <= c < 4 ==> ptrs[c] == ds[c].pointer
  {
    [ds[0].pointer, ds[1].pointer, ds[2].pointer, ds[3].pointer]
  }

  /** One cell of the table: decode, format, reset on success; "N/A" on an exception. */
  method DecodeCell(d: PayloadDecoder, t: RowType, floatText: (nat, nat) -> string) returns (data: string)
    requires WellFormed(t)
    modifies d
    ensures d.pointer == Step(d.payload, (d.wordOrder, d.byteOrder), old(d.pointer), t)
    ensures data == CellText(t, FieldAt(d.payload, old(d.pointer), t.width, d.wordOrder, d.byteOrder), floatText)
  {
    if t.style.SignedStyle? {
      var v := d.DecodeInt(t.width);
      if v.None? {
        return "N/A";
      }
      data := Dec(v.value);
    } else {
      var v := d.DecodeUint(t.width);
      if v.None? {
        return "N/A";
      }
      match t.style
      case HexStyle(digits) =>
        data := PaddedDigits(v.value, 16, digits);
        data := InsertSpaces(data);
      case UnsignedStyle =>
        data := Dec(v.value);
      case FloatStyle =>
        data := floatText(t.width, v.value);
    }
    d.Reset();
  }

  /** Every decoder's pointer after one row of type t. */
  function StepAll(payload: seq<Byte>, t: RowType, ptrs: seq<nat>): (next: seq<nat>)
    requires WellFormed(t) && |ptrs| == 4
    ensures |next| == 4
  {
    seq(4, c requires 0 <= c < 4 => Step(payload, Orders[c], ptrs[c], t))
  }

  /** The four cells of a row of type t read from the pointers ptrs. */
  function Cells(payload: seq<Byte>, t: RowType, ptrs: seq<nat>, floatText: (nat, nat) -> string): (cells: seq<string>)
    requires WellFormed(t) && |ptrs| == 4
    ensures |cells| == 4
  {
    seq(4, c requires 0 <= c < 4 => CellText(t, FieldAt(payload, ptrs[c], t.width, Orders[c].0, Orders[c].1), floatText))
  }

  lemma SpliceStep(next: seq<nat>, start: seq<nat>, c: nat)
    requires |next| == |start| && c < |start|
    ensures (next[..c] + start[c..])[c := next[c]] == next[..c + 1] + start[c + 1..]
  {
  }

  /** The paddings once the first |row| columns have been measured. */
  function PartlyWidened(paddings: seq<int>, row: seq<string>): (p: seq<int>)
    requires |paddings| == 5 && |row| <= 5
    ensures |p| == 5
  {
    seq(5, c requires 0 <= c < 5 => if c < |row| then Max(paddings[c], |row[c]|) else paddings[c])
  }

  lemma WidenStep(paddings: seq<int>, row: seq<string>, widened: seq<int>, data: string)
    requires |paddings| == 5 && |row| < 5 && widened == PartlyWidened(paddings, row)
    ensures PartlyWidened(paddings, row + [data]) ==
      if widened[|row|] < |data| then widened[|row| := |data|] else widened
  {
  }

  lemma ExtendRow(name: string, cells: seq<string>, c: nat)
    requires c < |cells|
    ensures [name] + cells[..c] + [cells[c]] == [name] + cells[..c + 1]
  {
    assert cells[..c + 1] == cells[..c] + [cells[c]];
  }

  /** The cell of column c + 1: only decoder c moves. */
  method DecodeColumn(ds: seq<PayloadDecoder>, ghost payload: seq<Byte>, c: nat, t: RowType, floatText: (nat, nat) -> string)
    returns (data: string)
    requires Decoders(ds, payload) && WellFormed(t) && c < 4
    modifies ds[c]
    ensures Decoders(ds, payload)
    ensures Pointers(ds) == old(Pointers(ds))[c := Step(payload, Orders[c], old(ds[c].pointer), t)]
    ensures data == CellText(t, FieldAt(payload, old(ds[c].pointer), t.width, Orders[c].0, Orders[c].1), floatText)
  {
    data := DecodeCell(ds[c], t, floatText);
  }

  /** One type row: the name, then each decoder's cell; the paddings widen to fit. */
  method DecodeRow(ds: seq<PayloadDecoder>, ghost payload: seq<Byte>, t: RowType, paddings: seq<int>,
                   floatText: (nat, nat) -> string)
    returns (row: seq<string>, widened: seq<int>)
    requires Decoders(ds, payload) && WellFormed(t) && |paddings| == 5
    modifies ds
    ensures Decoders(ds, payload)
    ensures Pointers(ds) == StepAll(payload, t, old(Pointers(ds)))
    ensures row == [t.name] + Cells(payload, t, old(Pointers(ds)), floatText)
    ensures widened == Widened(paddings, row)
  {
    ghost var start := Pointers(ds);
    ghost var next := StepAll(payload, t, start);
    ghost var cells := Cells(payload, t, start, floatText);
    row := [t.name];
    widened := Widen(paddings, [], 0, paddings, t.name);
    for c := 0 to 4
      invariant Decoders(ds, payload)
      invariant Pointers(ds) == next[..c] + start[c..]
      invariant row == [t.name] + cells[..c]
      invariant widened == PartlyWidened(paddings, row)
    {
      var data := DecodeColumn(ds, payload, c, t, floatText);
      SpliceStep(next, start, c);
      ExtendRow(t.name, cells, c);
      widened := Widen(paddings, row, c + 1, widened, data);
      row := row + [data];
    }
    RowDone(next, start, paddings, row, cells);
  }

  /** `if column_paddings[j] < len(data): column_paddings[j] = len(data)` for the next column. */
  method Widen(paddings: seq<int>, ghost row: seq<string>, j: nat, widened: seq<int>, data: string) returns (widened': seq<int>)
    requires |paddings| == 5 && j == |row| < 5 && widened == PartlyWidened(paddings, row)
    ensures widened' == PartlyWidened(paddings, row + [data])
  {
    WidenStep(paddings, row, widened, data);
    widened' := widened;
    if widened'[j] < |data| {
      widened' := widened'[j := |data|];
    }
  }

  lemma RowDone(next: seq<nat>, start: seq<nat>, paddings: seq<int>, row: seq<string>, cells: seq<string>)
    requires |next| == 4 && |start| == 4 && |paddings| == 5 && |row| == 5 && |cells| == 4
    ensures next[..4] + start[4..] == next && cells[..4] == cells
    ensures PartlyWidened(paddings, row) == Widened(paddings, row)
  {
    assert next[..4] + start[4..] == next;
  }

  /** A successful decode d contributes its row and hands on to decoder d + 1. */
  lemma PassSucceeds(payload: seq<Byte>, w: nat, ptrs: seq<nat>, d: nat)
    requires IsWidth(w) && |ptrs| == 4 && d < 4
    requires FieldAt(payload, ptrs[d], w, Orders[d].0, Orders[d].1).Some?
    ensures var f := FieldAt(payload, ptrs[d], w, Orders[d].0, Orders[d].1);
      var rest := BitPass(payload, w, ptrs[d := ptrs[d] + w], d + 1);
      BitPass(payload, w, ptrs, d) == ([(d, f.value)] + rest.0, rest.1, rest.2)
  {
  }

  lemma RenderedSnoc(vals: seq<(nat, nat)>, d: nat, u: nat)
    requires OfDecoders(vals) && d < 4
    ensures OfDecoders(vals + [(d, u)]) && Rendered(vals + [(d, u)]) == Rendered(vals) + [BitRow(d, u)]
  {
  }

  /** The bit row of decoder d: "{0:064b}", the space-splicing loop, the label. */
  method BitRowText(d: nat, u: nat) returns (row: string)
    requires d < 4
    ensures row == BitRow(d, u)
  {
    var bitString := PaddedDigits(u, 2, 64);
    bitString := InsertSpaces(bitString);
    row := RightAlign(ColumnLabels[d + 1], 13) + " " + bitString;
  }

  /** Appends the bit row of decoder d reading u. */
  method AppendBitRow(rows: seq<string>, ghost vals: seq<(nat, nat)>, d: nat, u: nat) returns (more: seq<string>)
    requires OfDecoders(vals) && rows == Rendered(vals) && d < 4
    ensures OfDecoders(vals + [(d, u)]) && more == Rendered(vals + [(d, u)])
  {
    var row := BitRowText(d, u);
    RenderedSnoc(vals, d, u);
    more := rows + [row];
  }

  /** Decoder d reads a field of w bytes for the bit matrix, without reset. */
  method DecodeBits(ds: seq<PayloadDecoder>, ghost payload: seq<Byte>, d: nat, w: nat) returns (v: Option<nat>)
    requires Decoders(ds, payload) && IsWidth(w) && d < 4
    modifies ds[d]
    ensures Decoders(ds, payload)
    ensures Pointers(ds) == old(Pointers(ds))[d := old(ds[d].pointer) + w]
    ensures v == FieldAt(payload, old(ds[d].pointer), w, Orders[d].0, Orders[d].1)
  {
    v := ds[d].DecodeUint(w);
  }

  /** Decoder d's turn in a pass: on success its row is appended. */
  method BitStep(ds: seq<PayloadDecoder>, ghost payload: seq<Byte>, w: nat, d: nat, rows: seq<string>, ghost vals: seq<(nat, nat)>)
    returns (more: seq<string>, ok: bool, ghost vals': seq<(nat, nat)>)
    requires Decoders(ds, payload) && IsWidth(w) && d < 4 && OfDecoders(vals) && rows == Rendered(vals)
    modifies ds[d]
    ensures Decoders(ds, payload) && OfDecoders(vals') && more == Rendered(vals')
    ensures var pass := BitPass(payload, w, old(Pointers(ds)), d);
      var rest := BitPass(payload, w, Pointers(ds), d + 1);
      if ok then vals' + rest.0 == vals + pass.0 && rest.1 == pass.1 && rest.2 == pass.2
      else vals' == vals && pass == ([], Pointers(ds), false)
  {
    ghost var before := Pointers(ds);
    var v := DecodeBits(ds, payload, d, w);
    if v.None? {
      return rows, false, vals;
    }
    PassSucceeds(payload, w, before, d);
    SeqAssoc(vals, [(d, v.value)], BitPass(payload, w, Pointers(ds), d + 1).0);
    more := AppendBitRow(rows, vals, d, v.value);
    ok := true;
    vals' := vals + [(d, v.value)];
  }

  /** One pass of the bit matrix: no reset, stop at the first exception. */
  method BitPassOf(ds: seq<PayloadDecoder>, ghost payload: seq<Byte>, w: nat) returns (rows: seq<string>, complete: bool)
    requires Decoders(ds, payload) && IsWidth(w)
    modifies ds
    ensures Decoders(ds, payload)
    ensures var pass := BitPass(payload, w, old(Pointers(ds)), 0);
      rows == Rendered(pass.0) && complete == pass.2 && Pointers(ds) == pass.1
  {
    ghost var spec := BitPass(payload, w, Pointers(ds), 0);
    ghost var vals: seq<(nat, nat)> := [];
    rows := [];
    complete := true;
    var d := 0;
    while d < 4
      invariant d <= 4 && Decoders(ds, payload)
      invariant OfDecoders(vals) && rows == Rendered(vals)
      invariant var rest := BitPass(payload, w, Pointers(ds), d);
        vals + rest.0 == spec.0 && rest.1 == spec.1 && rest.2 == spec.2
      decreases 4 - d
    {
      var ok;
      rows, ok, vals := BitStep(ds, payload, w, d, rows, vals);
      if !ok {
        complete := false;
        break;
      }
      d := d + 1;
    }
  }

  lemma ColumnEndsStep(payload: seq<Byte>, r: nat)
    requires r < 11
    ensures AllWidths(RowTypes[..r]) && AllWidths(RowTypes[..r + 1]) && WellFormed(RowTypes[r])
    ensures ColumnEnds(payload, RowTypes[..r + 1]) == StepAll(payload, RowTypes[r], ColumnEnds(payload, RowTypes[..r]))
  {
    RowTypesWellFormed();
    assert RowTypes[..r + 1][..r] == RowTypes[..r];
  }

  lemma TableRowCells(payload: seq<Byte>, r: nat, floatText: (nat, nat) -> string)
    requires r < 11
    ensures AllWidths(RowTypes[..r]) && WellFormed(RowTypes[r])
    ensures TableRow(payload, r, floatText) == [RowTypes[r].name] + Cells(payload, RowTypes[r], ColumnEnds(payload, RowTypes[..r]), floatText)
  {
    RowTypesWellFormed();
  }

  lemma PaddingsSnoc(rows: seq<seq<string>>, row: seq<string>)
    requires |rows| >= 1 && (forall r :: 0 <= r < |rows| ==> |rows[r]| == 5) && |row| == 5
    ensures (rows + [row])[1..] == rows[1..] + [row]
    ensures PaddingsAfter((rows + [row])[1..]) == Widened(PaddingsAfter(rows[1..]), row)
  {
    assert (rows + [row])[1..] == rows[1..] + [row];
    assert (rows[1..] + [row])[..|rows| - 1] == rows[1..];
  }

  lemma TextRowsPrefix(payload: seq<Byte>, floatText: (nat, nat) -> string, r: nat)
    requires r < 11
    ensures TextRows(payload, floatText)[..r + 2] == TextRows(payload, floatText)[..r + 1] + [TableRow(payload, r, floatText)]
  {
  }

  /** Adding the next type's row to the rows so far extends both the table and
      its paddings by one row. */
  lemma TableStep(payload: seq<Byte>, floatText: (nat, nat) -> string, r: nat, rows: seq<seq<string>>, row: seq<string>)
    requires r < 11 && rows == TextRows(payload, floatText)[..r + 1] && row == TableRow(payload, r, floatText)
    ensures rows + [row] == TextRows(payload, floatText)[..r + 2]
    ensures PaddingsAfter((rows + [row])[1..]) == Widened(PaddingsAfter(rows[1..]), row)
  {
    TextRowsPrefix(payload, floatText, r);
    PaddingsSnoc(rows, row);
  }

  /** One round of the loop over the types: the row of `RowTypes[r]`. */
  method TableRound(ds: seq<PayloadDecoder>, ghost payload: seq<Byte>, r: nat, rows: seq<seq<string>>,
                    paddings: seq<int>, floatText: (nat, nat) -> string)
    returns (rows': seq<seq<string>>, paddings': seq<int>)
    requires r < 11 && Decoders(ds, payload)
    requires AllWidths(RowTypes[..r]) && Pointers(ds) == ColumnEnds(payload, RowTypes[..r])
    requires rows == TextRows(payload, floatText)[..r + 1] && paddings == PaddingsAfter(rows[1..])
    modifies ds
    ensures Decoders(ds, payload)
    ensures AllWidths(RowTypes[..r + 1]) && Pointers(ds) == ColumnEnds(payload, RowTypes[..r + 1])
    ensures rows' == TextRows(payload, floatText)[..r + 2] && paddings' == PaddingsAfter(rows'[1..])
  {
    ColumnEndsStep(payload, r);
    TableRowCells(payload, r, floatText);
    var row;
    row, paddings' := DecodeRow(ds, payload, RowTypes[r], paddings, floatText);
    TableStep(payload, floatText, r, rows, row);
    rows' := rows + [row];
  }

  /** The values table: the label row, then one DecodeRow per type. */
  method BuildTable(ds: seq<PayloadDecoder>, ghost payload: seq<Byte>, floatText: (nat, nat) -> string)
    returns (rows: seq<seq<string>>, paddings: seq<int>)
    requires Decoders(ds, payload) && Pointers(ds) == [0, 0, 0, 0]
    modifies ds
    ensures Decoders(ds, payload) && Pointers(ds) == TableEnds(payload)
    ensures rows == TextRows(payload, floatText) && paddings == PaddingsAfter(rows[1..])
  {
    paddings := InitialPaddings;
    rows := [ColumnLabels];
    assert rows == TextRows(payload, floatText)[..1];
    RowTypesWellFormed();
    assert RowTypes[..0] == [];
    for r := 0 to 11
      invariant Decoders(ds, payload)
      invariant AllWidths(RowTypes[..r]) && Pointers(ds) == ColumnEnds(payload, RowTypes[..r])
      invariant rows == TextRows(payload, floatText)[..r + 1]
      invariant paddings == PaddingsAfter(rows[1..])
    {
      rows, paddings := TableRound(ds, payload, r, rows, paddings, floatText);
    }
    assert RowTypes[..11] == RowTypes;
    assert TextRows(payload, floatText)[..12] == TextRows(payload, floatText);
  }

  /** The bit matrix: the header, then passes at widths 8, 4, 2 until one completes. */
  method BuildBits(ds: seq<PayloadDecoder>, ghost payload: seq<Byte>) returns (bits: seq<string>)
    requires Decoders(ds, payload) && Pointers(ds) == TableEnds(payload)
    modifies ds
    ensures bits == Bits(payload)
  {
    var header := BitHeaderLine();
    bits := BitPasses(ds, payload, [header]);
    BitsOf(payload, header, bits[1..]);
    assert bits == [header] + bits[1..];
  }

  /** The header line of the bit matrix, from the label loop. */
  method BitHeaderLine() returns (header: string)
    ensures header == BitHeader()
  {
    var cols := BitLabelLoop();
    header := RightAlign(Join(cols, " "), 15 + 64 + 15) + " ";
  }

  lemma BitsOf(payload: seq<Byte>, header: string, done: seq<string>)
    requires header == BitHeader() && done == BitRowsOf(payload)
    ensures [header] + done == Bits(payload)
  {
  }

  /** One round of the loop over the widths: the pass at width `BitWidths[fi]`. */
  method BitRound(ds: seq<PayloadDecoder>, ghost payload: seq<Byte>, fi: nat, ghost start: seq<string>,
                  bits: seq<string>, ghost done: seq<string>, ghost all: seq<(nat, nat)>)
    returns (bits': seq<string>, complete: bool, ghost done': seq<string>)
    requires fi < 3 && Decoders(ds, payload) && OfDecoders(all) && bits == start + done
    requires done + Rendered(BitRowsFrom(payload, fi, Pointers(ds))) == Rendered(all)
    modifies ds
    ensures Decoders(ds, payload) && bits' == start + done'
    ensures complete ==> done' == Rendered(all)
    ensures !complete ==> done' + Rendered(BitRowsFrom(payload, fi + 1, Pointers(ds))) == Rendered(all)
  {
    ghost var before := Pointers(ds);
    var passRows;
    passRows, complete := BitPassOf(ds, payload, BitWidths[fi]);
    BitsStep(payload, fi, before, Pointers(ds), complete, done, passRows, all);
    SeqAssoc(start, done, passRows);
    bits' := bits + passRows;
    done' := done + passRows;
  }

  /** The loop over the widths, appending each pass's rows to `bits`. */
  method BitPasses(ds: seq<PayloadDecoder>, ghost payload: seq<Byte>, start: seq<string>) returns (bits: seq<string>)
    requires Decoders(ds, payload)
    modifies ds
    ensures bits == start + Rendered(BitRowsFrom(payload, 0, old(Pointers(ds))))
  {
    ghost var all := BitRowsFrom(payload, 0, Pointers(ds));
    ghost var done: seq<string> := [];
    bits := start;
    var fi := 0;
    var complete := false;
    while fi < 3
      invariant fi <= 3 && Decoders(ds, payload) && bits == start + done && !complete
      invariant done + Rendered(BitRowsFrom(payload, fi, Pointers(ds))) == Rendered(all)
      decreases 3 - fi
    {
      bits, complete, done := BitRound(ds, payload, fi, start, bits, done, all);
      if complete {
        break;
      }
      fi := fi + 1;
    }
  }

  lemma BitsStep(payload: seq<Byte>, fi: nat, before: seq<nat>, after: seq<nat>, complete: bool,
                 done: seq<string>, passRows: seq<string>, all: seq<(nat, nat)>)
    requires fi < 3 && |before| == 4 && OfDecoders(all)
    requires done + Rendered(BitRowsFrom(payload, fi, before)) == Rendered(all)
    requires var pass := BitPass(payload, BitWidths[fi], before, 0);
      passRows == Rendered(pass.0) && complete == pass.2 && after == pass.1
    ensures complete ==> done + passRows == Rendered(all)
    ensures !complete ==> done + passRows + Rendered(BitRowsFrom(payload, fi + 1, after)) == Rendered(all)
  {
    var pass := BitPass(payload, BitWidths[fi], before, 0);
    var rest := if pass.2 then [] else BitRowsFrom(payload, fi + 1, pass.1);
    assert BitRowsFrom(payload, fi, before) == pass.0 + rest;
    assert Rendered(pass.0 + rest) == passRows + Rendered(rest) by {
      RenderedAppend(pass.0, rest);
    }
    RegroupRows(done, passRows, Rendered(rest), Rendered(all));
  }

  lemma RegroupRows(done: seq<string>, rows: seq<string>, later: seq<string>, all: seq<string>)
    requires done + (rows + later) == all
    ensures done + rows + later == all && (later == [] ==> done + rows == all)
  {
  }

  /** The four decoders over the registers, in the column order. */
  method NewDecoders(registers: seq<Word>) returns (ds: seq<PayloadDecoder>)
    ensures Decoders(ds, RegistersToBytes(registers)) && Pointers(ds) == [0, 0, 0, 0]
    ensures fresh(ds[0]) && fresh(ds[1]) && fresh(ds[2]) && fresh(ds[3])
  {
    var d1 := new PayloadDecoder.FromRegisters(registers, Big, Big);
    var d2 := new PayloadDecoder.FromRegisters(registers, Little, Big);
    var d3 := new PayloadDecoder.FromRegisters(registers, Big, Little);
    var d4 := new PayloadDecoder.FromRegisters(registers, Little, Little);
    ds := [d1, d2, d3, d4];
  }

  /** rows, paddings and bits are the table, its column paddings and the bit
      matrix of the register window, and width x height the dialog's size on a
      screen of screenRows x screenCols. */
  predicate Analysed(registers: seq<Word>, floatText: (nat, nat) -> string, screenRows: int, screenCols: int,
                     rows: seq<seq<string>>, paddings: seq<int>, bits: seq<string>, width: int, height: int)
  {
    rows == TextRows(RegistersToBytes(registers), floatText) &&
    paddings == PaddingsAfter(rows[1..]) &&
    bits == Bits(RegistersToBytes(registers)) &&
    width == DialogWidth(paddings, screenCols) &&
    height == DialogHeight(screenRows)
  }

  /** The table, its paddings, the bit matrix and the dialog size of a register window. */
  method Analyse(registers: seq<Word>, floatText: (nat, nat) -> string, screenRows: int, screenCols: int)
    returns (rows: seq<seq<string>>, paddings: seq<int>, bits: seq<string>, width: int, height: int)
    ensures Analysed(registers, floatText, screenRows, screenCols, rows, paddings, bits, width, height)
  {
    ghost var payload := RegistersToBytes(registers);
    var ds := NewDecoders(registers);
    rows, paddings := BuildTable(ds, payload, floatText);
    bits := BuildBits(ds, payload);
    width := Sum(paddings) + 8;
    if width > screenCols - 2 {
      width := screenCols - 2;
    }
    height := if 22 < screenRows then 23 else screenRows - 2;
  }

  class AnalyseWindow {
    var columnPaddings: seq<int>
    var textRows: seq<seq<string>>
    var bits: seq<string>
    var width: int
    var height: int

    /** AnalyseWindow.__init__ for a screen of screenRows x screenCols. */
    constructor (screenRows: int, screenCols: int, registers: seq<Word>, floatText: (nat, nat) -> string)
      ensures Analysed(registers, floatText, screenRows, screenCols, textRows, columnPaddings, bits, width, height)
    {
      var rows, paddings, bitRows, w, h := Analyse(registers, floatText, screenRows, screenCols);
      textRows, columnPaddings, bits, width, height := rows, paddings, bitRows, w, h;
    }
  }

  /** The label loop: i from 60 down to 0 in steps of 4. */
  method BitLabelLoop() returns (cols: seq<string>)
    ensures cols == BitLabels()
  {
    cols := [];
    var i := 60;
    ghost var n := 0;
    while 0 <= i
      invariant 0 <= n <= 16 && i == 60 - 4 * n
      invariant cols == BitLabels()[..n]
      decreases i + 4
    {
      var text := BitLabel(i);
      SeqPrefix(BitLabels(), n);
      cols := cols + [text];
      i := i - 4;
      n := n + 1;
    }
    assert BitLabels()[..16] == BitLabels();
  }
}
