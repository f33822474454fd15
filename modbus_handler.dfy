/** The register table (process_words), the chunked acquisition behind it
    (read_registers, get_register_blocks), process_result, the unit sweep and
    the write request. The Modbus client is an oracle: a read request gets a
    register list, an error response or a connection error. */
module ModbusHandler {
  import opened PyFormat
  import opened Payload
  import opened Definitions

  // ---------------------------------------------------------------------------
  // Table columns
  // ---------------------------------------------------------------------------

  /** The columns process_words tells apart by their titles (which are distinct). */
  datatype Column = Idx | Addr | HAdr | HexV | U16 | I16 | U32 | I32 | F32 | St | Bits

  datatype Header = Header(column: Column, padding: nat)

  /** The title of a column in WORDS_HEADER_ROW. */
  function Title(c: Column): string
  {
    match c
    case Idx => "Idx" case Addr => "Addr" case HAdr => "HAdr" case HexV => "HexV"
    case U16 => "U16" case I16 => "I16" case U32 => "U32" case I32 => "I32"
    case F32 => "F32" case St => "St" case Bits => "Bits"
  }

  /** The c-th column of the table, its title and its padding. */
  function HeaderAt(c: nat): Header
  {
    if c == 0 then Header(Idx, 4) else if c == 1 then Header(Addr, 6)
    else if c == 2 then Header(HAdr, 5) else if c == 3 then Header(HexV, 5)
    else if c == 4 then Header(U16, 6) else if c == 5 then Header(I16, 7)
    else if c == 6 then Header(U32, 11) else if c == 7 then Header(I32, 12)
    else if c == 8 then Header(F32, 12) else if c == 9 then Header(St, 2)
    else Header(Bits, 19)
  }

  /** The number of columns. */
  const ColumnCount := 11

  /** Positions of the columns in the table. */
  const IdxCol := 0
  const AddrCol := 1
  const HAdrCol := 2
  const HexVCol := 3
  const U16Col := 4
  const I16Col := 5
  const U32Col := 6
  const I32Col := 7
  const F32Col := 8
  const StCol := 9
  const BitsCol := 10

  /** The column table entry by entry. */
  lemma ColumnsAt()
    ensures HeaderAt(IdxCol) == Header(Idx, 4)
    ensures HeaderAt(AddrCol) == Header(Addr, 6)
    ensures HeaderAt(HAdrCol) == Header(HAdr, 5)
    ensures HeaderAt(HexVCol) == Header(HexV, 5)
    ensures HeaderAt(U16Col) == Header(U16, 6)
    ensures HeaderAt(I16Col) == Header(I16, 7)
    ensures HeaderAt(U32Col) == Header(U32, 11)
    ensures HeaderAt(I32Col) == Header(I32, 12)
    ensures HeaderAt(F32Col) == Header(F32, 12)
    ensures HeaderAt(StCol) == Header(St, 2)
    ensures HeaderAt(BitsCol) == Header(Bits, 19)
  {
  }

  /** WORDS_HEADER_ROW: every title right-aligned to its column width. */
  function HeaderRow(): seq<string>
  {
    seq(ColumnCount, c requires 0 <= c < ColumnCount => RightAlign(Title(HeaderAt(c).column), HeaderAt(c).padding))
  }

  /** Every title fits its column, so each header cell is exactly as wide as the column. */
  lemma HeaderRowWidths()
    ensures |HeaderRow()| == ColumnCount
    ensures forall c :: 0 <= c < ColumnCount ==> |HeaderRow()[c]| == HeaderAt(c).padding
  {
    forall c | 0 <= c < ColumnCount ensures |HeaderRow()[c]| == HeaderAt(c).padding {
      assert |Title(HeaderAt(c).column)| <= HeaderAt(c).padding;
    }
  }

  /** The "<" / ">" argument the code derives from a configured order. */
  function EndianOf(order: string): Endian
  {
    if order == LittleEndian then Little else Big
  }

  /** `'{:X}'.format(n)` for any int. */
  function HexInt(n: int): (s: string)
    ensures n >= 0 ==> s == Hex(n)
  {
    if n < 0 then "-" + Hex(-n) else Hex(n)
  }

  /** One byte of the St column: the character when printable ASCII, else "-". */
  function Printable(b: int): char
  {
    if 31 < b < 127 then b as char else '-'
  }

  // ---------------------------------------------------------------------------
  // process_words
  // ---------------------------------------------------------------------------

  predicate IsWord(buffer: seq<Option<Word>>, i: nat)
    requires i < |buffer|
  {
    buffer[i].Some?
  }

  predicate IsDword(buffer: seq<Option<Word>>, i: nat)
  {
    i + 1 < |buffer| && buffer[i + 1].Some?
  }

  /** The registers a row's decoder is built on: the word and, when present, its successor. */
  function Window(buffer: seq<Option<Word>>, i: nat): (ws: seq<Word>)
    requires i < |buffer| && IsWord(buffer, i)
    ensures |ws| == (if IsDword(buffer, i) then 2 else 1) && ws[0] == buffer[i].value
  {
    if IsDword(buffer, i) then [buffer[i].value, buffer[i + 1].value] else [buffer[i].value]
  }

  /** What a decoder reset to the start of the window reads for a field of
      `words` words (one or two). */
  function LeadingField(ws: seq<Word>, words: nat, wordOrder: Endian, byteOrder: Endian): nat
    requires words <= |ws|
  {
    BigEndianValue(Arrange(ws[..words], wordOrder, byteOrder))
  }

  /** Cell c of row i, following the column cascade of process_words. `f32`
      stands for the float formatting of the 32-bit pattern (not modelled). */
  function WordCell(buffer: seq<Option<Word>>, i: nat, start: int, wordOrder: Endian, byteOrder: Endian,
                    f32: nat -> string, c: nat): string
    requires i < |buffer| && c < ColumnCount
  {
    var h := HeaderAt(c);
    match h.column
    case Idx => RightAlign(Dec(i), h.padding)
    case Addr => RightAlign(Dec(i + start), h.padding)
    case HAdr => RightAlign(HexInt(i + start), h.padding)
    case _ =>
      if !IsWord(buffer, i) then RightAlign("--", h.padding)
      else ValueCell(Window(buffer, i), wordOrder, byteOrder, f32, h)
  }

  /** The value columns of a present word, given its window (one or two words). */
  function ValueCell(ws: seq<Word>, wordOrder: Endian, byteOrder: Endian, f32: nat -> string, h: Header): string
    requires 1 <= |ws| <= 2 && h.column !in {Idx, Addr, HAdr}
  {
    var w := ws[0];
    match h.column
    case HexV => RightAlign(Hex(w), h.padding)
    case U16 => RightAlign(Dec(LeadingField(ws, 1, wordOrder, byteOrder)), h.padding)
    case I16 => RightAlign(Dec(Signed(LeadingField(ws, 1, wordOrder, byteOrder), 1)), h.padding)
    case U32 =>
      if |ws| < 2 then RightAlign("--", h.padding)
      else RightAlign(Dec(LeadingField(ws, 2, wordOrder, byteOrder)), h.padding)
    case I32 =>
      if |ws| < 2 then RightAlign("--", h.padding)
      else RightAlign(Dec(Signed(LeadingField(ws, 2, wordOrder, byteOrder), 2)), h.padding)
    case F32 =>
      if |ws| < 2 then RightAlign("--", h.padding)
      else RightAlign(f32(LeadingField(ws, 2, wordOrder, byteOrder)), h.padding)
    case St =>
      if byteOrder != Little then [Printable(w / 256), Printable(w % 256)]
      else [Printable(w % 256), Printable(w / 256)]
    case Bits => Grouped(PaddedDigits(LeadingField(ws, 1, wordOrder, byteOrder), 2, 16))
  }

  function WordRow(buffer: seq<Option<Word>>, i: nat, start: int, wordOrder: Endian, byteOrder: Endian,
                   f32: nat -> string): seq<string>
    requires i < |buffer|
  {
    seq(ColumnCount, c requires 0 <= c < ColumnCount => WordCell(buffer, i, start, wordOrder, byteOrder, f32, c))
  }

  /** The table process_words returns for a buffer. */
  function WordsTable(buffer: seq<Option<Word>>, start: int, wordOrder: Endian, byteOrder: Endian,
                      f32: nat -> string): TableContents
  {
    TableContents(Some(HeaderRow()),
                  seq(|buffer|, i requires 0 <= i < |buffer| => Cells(WordRow(buffer, i, start, wordOrder, byteOrder, f32))))
  }

  /** The "{bits[0:4]} {bits[4:8]} {bits[8:12]} {bits[12:16]}" layout is the grouping into fours. */
  lemma NibbleGroups(bits: string)
    requires |bits| == 16
    ensures bits[0..4] + " " + bits[4..8] + " " + bits[8..12] + " " + bits[12..16] == Grouped(bits)
  {
    assert Grouped(bits[12..]) == bits[12..16];
    assert bits[8..][4..] == bits[12..];
    assert Grouped(bits[8..]) == bits[8..12] + " " + bits[12..16];
    assert bits[4..][4..] == bits[8..];
    assert Grouped(bits[4..]) == bits[4..8] + " " + bits[8..12] + " " + bits[12..16];
  }

  /** A word fits in 16 binary digits. */
  lemma WordDigits()
    ensures Pow(2, 16) == Pow(WordBase, 1) == 65536
  {
    assert Pow(2, 4) == 16 by {
      assert Pow(2, 2) == 4;
    }
    assert Pow(2, 8) == 256 by {
      PowAdd(2, 4, 4);
    }
    PowAdd(2, 8, 8);
  }

  /** A decoder over the window reads, after reset, the leading field. */
  lemma DecodedLeading(ws: seq<Word>, words: nat, wordOrder: Endian, byteOrder: Endian)
    requires 1 <= words <= |ws|
    ensures FieldAt(RegistersToBytes(ws), 0, 2 * words, wordOrder, byteOrder)
         == Some(LeadingField(ws, words, wordOrder, byteOrder))
  {
    FieldOfRegisters(ws, 0, words, wordOrder, byteOrder);
    assert ws[0..words] == ws[..words];
  }

  /** process_words: one row per buffer element. */
  method ProcessWords(buffer: seq<Option<Word>>, start: int, wordOrder: Endian, byteOrder: Endian,
                      f32: nat -> string) returns (t: TableContents)
    ensures t == WordsTable(buffer, start, wordOrder, byteOrder, f32)
  {
    ghost var spec := WordsTable(buffer, start, wordOrder, byteOrder, f32).rows;
    var rows: seq<RowItem> := [];
    for i := 0 to |buffer|
      invariant rows == spec[..i]
    {
      var row := BuildRow(buffer, i, start, wordOrder, byteOrder, f32);
      SeqPrefix(spec, i);
      rows := rows + [Cells(row)];
    }
    assert spec[..|buffer|] == spec;
    t := TableContents(Some(HeaderRow()), rows);
  }

  /** The body of the enumerate loop: the row's decoder over its window (when
      the word is present), reset before every decode, and the column loop. */
  method BuildRow(buffer: seq<Option<Word>>, i: nat, start: int, wordOrder: Endian, byteOrder: Endian,
                  f32: nat -> string) returns (row: seq<string>)
    requires i < |buffer|
    ensures row == WordRow(buffer, i, start, wordOrder, byteOrder, f32)
  {
    var isWord := buffer[i].Some?;
    row := [];
    var decoder: PayloadDecoder? := null;
    if isWord {
      decoder := new PayloadDecoder.FromRegisters(Window(buffer, i), byteOrder, wordOrder);
    }
    ghost var spec := WordRow(buffer, i, start, wordOrder, byteOrder, f32);
    for c := 0 to ColumnCount
      invariant row == spec[..c]
      invariant isWord ==> decoder != null && fresh(decoder)
      invariant isWord ==> decoder.payload == RegistersToBytes(Window(buffer, i))
      invariant isWord ==> decoder.wordOrder == wordOrder && decoder.byteOrder == byteOrder
    {
      var cell := ColumnCell(buffer, i, start, wordOrder, byteOrder, f32, decoder, c);
      SeqPrefix(spec, c);
      row := row + [cell];
    }
    assert spec[..ColumnCount] == spec;
  }

  /** One pass of the column loop of process_words: the cascade of `continue`s. */
  method ColumnCell(buffer: seq<Option<Word>>, i: nat, start: int, wordOrder: Endian, byteOrder: Endian,
                    f32: nat -> string, decoder: PayloadDecoder?, c: nat) returns (cell: string)
    requires i < |buffer| && c < ColumnCount
    requires buffer[i].Some? ==> decoder != null && decoder.payload == RegistersToBytes(Window(buffer, i))
    requires buffer[i].Some? ==> decoder.wordOrder == wordOrder && decoder.byteOrder == byteOrder
    modifies decoder
    ensures cell == WordCell(buffer, i, start, wordOrder, byteOrder, f32, c)
  {
    var h := HeaderAt(c);
    if h.column == Idx {
      return RightAlign(Dec(i), h.padding);
    }
    if h.column == Addr {
      return RightAlign(Dec(i + start), h.padding);
    }
    if h.column == HAdr {
      return RightAlign(HexInt(i + start), h.padding);
    }
    if buffer[i].None? {
      return RightAlign("--", h.padding);
    }
    var ws := Window(buffer, i);
    if h.column == HexV {
      return RightAlign(Hex(ws[0]), h.padding);
    }
    if h.column in {U16, I16} {
      cell := WordDecoded(ws, wordOrder, byteOrder, decoder, h);
      return;
    }
    if |ws| < 2 && h.column !in {St, Bits} {
      return RightAlign("--", h.padding);
    }
    if h.column in {U32, I32, F32} {
      cell := DwordDecoded(ws, wordOrder, byteOrder, f32, decoder, h);
      return;
    }
    if h.column == St {
      var register := ws[0];
      var first, second;
      if byteOrder != Little {
        first, second := register / 256, register % 256;
      } else {
        second, first := register / 256, register % 256;
      }
      return [Printable(first), Printable(second)];
    }
    cell := BitsDecoded(ws, wordOrder, byteOrder, decoder, h);
  }

  /** The U16 and I16 columns: reset, then decode one word. */
  method WordDecoded(ws: seq<Word>, wordOrder: Endian, byteOrder: Endian, decoder: PayloadDecoder, h: Header)
    returns (cell: string)
    requires 1 <= |ws| <= 2 && decoder.payload == RegistersToBytes(ws)
    requires decoder.wordOrder == wordOrder && decoder.byteOrder == byteOrder
    requires h.column in {U16, I16}
    modifies decoder
    ensures forall f32: nat -> string :: cell == ValueCell(ws, wordOrder, byteOrder, f32, h)
  {
    decoder.Reset();
    DecodedLeading(ws, 1, wordOrder, byteOrder);
    ghost var x := LeadingField(ws, 1, wordOrder, byteOrder);
    if h.column == U16 {
      var v := decoder.DecodeUint(2);
      assert v == Some(x);
      cell := RightAlign(Dec(v.value), h.padding);
    } else {
      var v := decoder.DecodeInt(2);
      assert v == Some(Signed(x, 1));
      cell := RightAlign(Dec(v.value), h.padding);
    }
    forall f32: nat -> string
      ensures cell == ValueCell(ws, wordOrder, byteOrder, f32, h)
    {
      SingleCell(ws, wordOrder, byteOrder, f32, h);
    }
  }

  /** The 16-bit cells of a word, from its leading field. */
  lemma SingleCell(ws: seq<Word>, wordOrder: Endian, byteOrder: Endian, f32: nat -> string, h: Header)
    requires 1 <= |ws| <= 2 && h.column in {U16, I16}
    ensures var x := LeadingField(ws, 1, wordOrder, byteOrder);
      ValueCell(ws, wordOrder, byteOrder, f32, h) == RightAlign(if h.column == U16 then Dec(x) else Dec(Signed(x, 1)), h.padding)
  {
  }

  /** The U32, I32 and F32 columns of a word with a successor: reset, then decode two words. */
  method DwordDecoded(ws: seq<Word>, wordOrder: Endian, byteOrder: Endian, f32: nat -> string,
                      decoder: PayloadDecoder, h: Header) returns (cell: string)
    requires |ws| == 2 && decoder.payload == RegistersToBytes(ws)
    requires decoder.wordOrder == wordOrder && decoder.byteOrder == byteOrder
    requires h.column in {U32, I32, F32}
    modifies decoder
    ensures cell == ValueCell(ws, wordOrder, byteOrder, f32, h)
  {
    decoder.Reset();
    DecodedLeading(ws, 2, wordOrder, byteOrder);
    DwordCell(ws, wordOrder, byteOrder, f32, h);
    ghost var x := LeadingField(ws, 2, wordOrder, byteOrder);
    if h.column == U32 {
      var v := decoder.DecodeUint(4);
      assert v == Some(x);
      cell := RightAlign(Dec(v.value), h.padding);
    } else if h.column == I32 {
      var v := decoder.DecodeInt(4);
      assert v == Some(Signed(x, 2));
      cell := RightAlign(Dec(v.value), h.padding);
    } else {
      var v := decoder.DecodeUint(4);
      assert v == Some(x);
      cell := RightAlign(f32(v.value), h.padding);
    }
  }

  /** The 32-bit cells of a word with a successor, from its leading field. */
  lemma DwordCell(ws: seq<Word>, wordOrder: Endian, byteOrder: Endian, f32: nat -> string, h: Header)
    requires |ws| == 2 && h.column in {U32, I32, F32}
    ensures var x := LeadingField(ws, 2, wordOrder, byteOrder);
      ValueCell(ws, wordOrder, byteOrder, f32, h)
      == RightAlign(if h.column == U32 then Dec(x) else if h.column == I32 then Dec(Signed(x, 2)) else f32(x), h.padding)
  {
  }

  /** The Bits column: reset, decode one word and print it as 16 binary digits in groups of four. */
  method BitsDecoded(ws: seq<Word>, wordOrder: Endian, byteOrder: Endian, decoder: PayloadDecoder, h: Header)
    returns (cell: string)
    requires 1 <= |ws| <= 2 && decoder.payload == RegistersToBytes(ws)
    requires decoder.wordOrder == wordOrder && decoder.byteOrder == byteOrder
    requires h.column == Bits
    modifies decoder
    ensures forall f32: nat -> string :: cell == ValueCell(ws, wordOrder, byteOrder, f32, h)
  {
    decoder.Reset();
    DecodedLeading(ws, 1, wordOrder, byteOrder);
    var v := decoder.DecodeUint(2);
    BigEndianBound(Arrange(ws[..1], wordOrder, byteOrder));
    WordDigits();
    PaddedDigitsExact(v.value, 2, 16);
    var bits := PaddedDigits(v.value, 2, 16);
    NibbleGroups(bits);
    cell := bits[0..4] + " " + bits[4..8] + " " + bits[8..12] + " " + bits[12..16];
  }

  // ---------------------------------------------------------------------------
  // What the table shows
  // ---------------------------------------------------------------------------

  /** The 32-bit value of a word and its successor: the word order decides which
      of the two (byte-order adjusted) words is the high half. */
  function DwordValue(w0: Word, w1: Word, wordOrder: Endian, byteOrder: Endian): nat
  {
    if wordOrder == Little then AdjustBytes(w1, byteOrder) * WordBase + AdjustBytes(w0, byteOrder)
    else AdjustBytes(w0, byteOrder) * WordBase + AdjustBytes(w1, byteOrder)
  }

  /** One row per buffer element, each with one cell per column, in column order. */
  lemma TableShape(buffer: seq<Option<Word>>, start: int, wordOrder: Endian, byteOrder: Endian, f32: nat -> string)
    ensures var t := WordsTable(buffer, start, wordOrder, byteOrder, f32);
      t.header == Some(HeaderRow()) && |t.rows| == |buffer| &&
      forall i :: 0 <= i < |buffer| ==> t.rows[i].Cells? && |t.rows[i].cells| == ColumnCount
  {
  }

  /** Idx, Addr and HAdr depend on the index alone. */
  lemma IndexCells(buffer: seq<Option<Word>>, i: nat, start: int, wordOrder: Endian, byteOrder: Endian,
                   f32: nat -> string)
    requires i < |buffer|
    ensures var row := WordRow(buffer, i, start, wordOrder, byteOrder, f32);
      row[IdxCol] == RightAlign(Dec(i), 4) &&
      row[AddrCol] == RightAlign(Dec(i + start), 6) &&
      row[HAdrCol] == RightAlign(HexInt(i + start), 5)
  {
    IndexCell(buffer, i, start, wordOrder, byteOrder, f32, IdxCol);
    IndexCell(buffer, i, start, wordOrder, byteOrder, f32, AddrCol);
    IndexCell(buffer, i, start, wordOrder, byteOrder, f32, HAdrCol);
  }

  lemma IndexCell(buffer: seq<Option<Word>>, i: nat, start: int, wordOrder: Endian, byteOrder: Endian,
                  f32: nat -> string, c: nat)
    requires i < |buffer| && c < HexVCol
    ensures WordRow(buffer, i, start, wordOrder, byteOrder, f32)[c]
         == RightAlign(if c == IdxCol then Dec(i) else if c == AddrCol then Dec(i + start) else HexInt(i + start),
                       HeaderAt(c).padding)
  {
    assert WordRow(buffer, i, start, wordOrder, byteOrder, f32)[c] == WordCell(buffer, i, start, wordOrder, byteOrder, f32, c);
    if c == IdxCol {
      assert HeaderAt(c).column == Idx;
    } else if c == AddrCol {
      assert HeaderAt(c).column == Addr;
    } else {
      assert HeaderAt(c).column == HAdr;
    }
  }

  /** A missing word shows "--" in every value column. */
  lemma MissingWordCells(buffer: seq<Option<Word>>, i: nat, start: int, wordOrder: Endian, byteOrder: Endian,
                         f32: nat -> string)
    requires i < |buffer| && buffer[i].None?
    ensures var row := WordRow(buffer, i, start, wordOrder, byteOrder, f32);
      forall c :: HexVCol <= c < ColumnCount ==> row[c] == RightAlign("--", HeaderAt(c).padding)
  {
    forall c | HexVCol <= c < ColumnCount
      ensures WordRow(buffer, i, start, wordOrder, byteOrder, f32)[c] == RightAlign("--", HeaderAt(c).padding)
    {
      MissingCell(buffer, i, start, wordOrder, byteOrder, f32, c);
    }
  }

  lemma MissingCell(buffer: seq<Option<Word>>, i: nat, start: int, wordOrder: Endian, byteOrder: Endian,
                    f32: nat -> string, c: nat)
    requires i < |buffer| && buffer[i].None? && HexVCol <= c < ColumnCount
    ensures WordRow(buffer, i, start, wordOrder, byteOrder, f32)[c] == RightAlign("--", HeaderAt(c).padding)
  {
    ValueColumn(c);
  }

  /** The columns from HexV on are the value columns. */
  lemma ValueColumn(c: nat)
    requires HexVCol <= c < ColumnCount
    ensures HeaderAt(c).column !in {Idx, Addr, HAdr}
  {
  }

  /** The value cells of a present word are ValueCell of its window. */
  lemma RowValueCell(buffer: seq<Option<Word>>, i: nat, start: int, wordOrder: Endian, byteOrder: Endian,
                     f32: nat -> string, c: nat)
    requires i < |buffer| && buffer[i].Some? && HexVCol <= c < ColumnCount
    ensures HeaderAt(c).column !in {Idx, Addr, HAdr}
    ensures WordRow(buffer, i, start, wordOrder, byteOrder, f32)[c] == ValueCell(Window(buffer, i), wordOrder, byteOrder, f32, HeaderAt(c))
  {
    ValueColumn(c);
  }

  /** A present word without a present successor shows "--" in the 32-bit columns only. */
  lemma LoneWordCells(buffer: seq<Option<Word>>, i: nat, start: int, wordOrder: Endian, byteOrder: Endian,
                      f32: nat -> string)
    requires i < |buffer| && buffer[i].Some? && !IsDword(buffer, i)
    ensures var row := WordRow(buffer, i, start, wordOrder, byteOrder, f32);
      row[U32Col] == RightAlign("--", 11) &&
      row[I32Col] == RightAlign("--", 12) &&
      row[F32Col] == RightAlign("--", 12) &&
      forall c :: c in {HexVCol, U16Col, I16Col, BitsCol} ==> row[c] != RightAlign("--", HeaderAt(c).padding)
  {
    ColumnsAt();
    var ws := Window(buffer, i);
    RowValueCell(buffer, i, start, wordOrder, byteOrder, f32, U32Col);
    RowValueCell(buffer, i, start, wordOrder, byteOrder, f32, I32Col);
    RowValueCell(buffer, i, start, wordOrder, byteOrder, f32, F32Col);
    RowValueCell(buffer, i, start, wordOrder, byteOrder, f32, HexVCol);
    RowValueCell(buffer, i, start, wordOrder, byteOrder, f32, U16Col);
    RowValueCell(buffer, i, start, wordOrder, byteOrder, f32, I16Col);
    RowValueCell(buffer, i, start, wordOrder, byteOrder, f32, BitsCol);
    LoneWindowCells(ws, wordOrder, byteOrder, f32);
    WindowNotSentinel(ws, wordOrder, byteOrder, f32);
  }

  lemma LoneWindowCells(ws: seq<Word>, wordOrder: Endian, byteOrder: Endian, f32: nat -> string)
    requires |ws| == 1
    ensures ValueCell(ws, wordOrder, byteOrder, f32, Header(U32, 11)) == RightAlign("--", 11)
    ensures ValueCell(ws, wordOrder, byteOrder, f32, Header(I32, 12)) == RightAlign("--", 12)
    ensures ValueCell(ws, wordOrder, byteOrder, f32, Header(F32, 12)) == RightAlign("--", 12)
  {
  }

  /** The numeric single-word cells never show the sentinel. (St can: a word
      whose two bytes are both unprintable is shown as "--" too.) */
  lemma WindowNotSentinel(ws: seq<Word>, wordOrder: Endian, byteOrder: Endian, f32: nat -> string)
    requires 1 <= |ws| <= 2
    ensures ValueCell(ws, wordOrder, byteOrder, f32, Header(HexV, 5)) != RightAlign("--", 5)
    ensures ValueCell(ws, wordOrder, byteOrder, f32, Header(U16, 6)) != RightAlign("--", 6)
    ensures ValueCell(ws, wordOrder, byteOrder, f32, Header(I16, 7)) != RightAlign("--", 7)
    ensures ValueCell(ws, wordOrder, byteOrder, f32, Header(Bits, 19)) != RightAlign("--", 19)
  {
    HexVNotSentinel(ws, wordOrder, byteOrder, f32);
    U16NotSentinel(ws, wordOrder, byteOrder, f32);
    I16NotSentinel(ws, wordOrder, byteOrder, f32);
    BitsNotSentinel(ws, wordOrder, byteOrder, f32);
  }

  lemma HexVNotSentinel(ws: seq<Word>, wordOrder: Endian, byteOrder: Endian, f32: nat -> string)
    requires 1 <= |ws| <= 2
    ensures ValueCell(ws, wordOrder, byteOrder, f32, Header(HexV, 5)) != RightAlign("--", 5)
  {
    NotDashes(Hex(ws[0]), 5);
  }

  lemma U16NotSentinel(ws: seq<Word>, wordOrder: Endian, byteOrder: Endian, f32: nat -> string)
    requires 1 <= |ws| <= 2
    ensures ValueCell(ws, wordOrder, byteOrder, f32, Header(U16, 6)) != RightAlign("--", 6)
  {
    LeadingWord(ws, wordOrder, byteOrder);
    NotDashes(Dec(AdjustBytes(ws[0], byteOrder)), 6);
  }

  lemma I16NotSentinel(ws: seq<Word>, wordOrder: Endian, byteOrder: Endian, f32: nat -> string)
    requires 1 <= |ws| <= 2
    ensures ValueCell(ws, wordOrder, byteOrder, f32, Header(I16, 7)) != RightAlign("--", 7)
  {
    LeadingWord(ws, wordOrder, byteOrder);
    NotDashes(Dec(Signed(AdjustBytes(ws[0], byteOrder), 1)), 7);
  }

  lemma BitsNotSentinel(ws: seq<Word>, wordOrder: Endian, byteOrder: Endian, f32: nat -> string)
    requires 1 <= |ws| <= 2
    ensures ValueCell(ws, wordOrder, byteOrder, f32, Header(Bits, 19)) != RightAlign("--", 19)
  {
    BitsCell(ws, wordOrder, byteOrder, f32);
    var bitsCell := ValueCell(ws, wordOrder, byteOrder, f32, Header(Bits, 19));
    assert IsDigitIn(bitsCell[15 + 15 / 4], 2);
    assert RightAlign("--", 19)[18] == '-';
  }

  /** Decimal and hex renderings are never the "--" sentinel. */
  lemma NotDashes(digits: string, w: int)
    requires |digits| >= 1 && digits[|digits| - 1] != '-'
    ensures RightAlign(digits, w) != RightAlign("--", w)
  {
    var a := RightAlign(digits, w);
    var b := RightAlign("--", w);
    assert a[|a| - 1] == digits[|digits| - 1];
    assert b[|b| - 1] == '-';
  }

  /** The last character of a Bits cell is a binary digit. */
  lemma BitsDigits(cell: string, u: nat)
    requires u < 65536 && cell == Grouped(PaddedDigits(u, 2, 16))
    ensures |cell| == 19 && cell[18] != '-'
  {
    WordDigits();
    PaddedDigitsExact(u, 2, 16);
    var bits := PaddedDigits(u, 2, 16);
    GroupedBlocks(bits, 15);
    assert IsDigitIn(bits[15], 2);
  }

  /** The single-word columns, whether or not a successor is present. HexV is the
      raw register; U16, I16 and Bits show the byte-order adjusted register, and
      St shows the characters of that same adjusted register, high byte first.
      None of them depends on the word order. The Bits cell is 19 characters: the
      16 binary digits of U16 with a space after every fourth. */
  lemma SingleWordCells(buffer: seq<Option<Word>>, i: nat, start: int, wordOrder: Endian, byteOrder: Endian,
                        f32: nat -> string)
    requires i < |buffer| && buffer[i].Some?
    ensures var row := WordRow(buffer, i, start, wordOrder, byteOrder, f32);
      var w := buffer[i].value;
      var u := AdjustBytes(w, byteOrder);
      row[HexVCol] == RightAlign(Hex(w), 5) &&
      row[U16Col] == RightAlign(Dec(u), 6) &&
      row[I16Col] == RightAlign(Dec(Signed(u, 1)), 7) &&
      row[StCol] == [Printable(u / 256), Printable(u % 256)] &&
      |row[BitsCol]| == 19 &&
      (forall k :: 0 <= k < 16 ==> IsDigitIn(row[BitsCol][k + k / 4], 2)) &&
      ValueOf(seq(16, k requires 0 <= k < 16 => row[BitsCol][k + k / 4]), 2) == u
  {
    ColumnsAt();
    var ws := Window(buffer, i);
    RowValueCell(buffer, i, start, wordOrder, byteOrder, f32, HexVCol);
    RowValueCell(buffer, i, start, wordOrder, byteOrder, f32, U16Col);
    RowValueCell(buffer, i, start, wordOrder, byteOrder, f32, I16Col);
    RowValueCell(buffer, i, start, wordOrder, byteOrder, f32, StCol);
    RowValueCell(buffer, i, start, wordOrder, byteOrder, f32, BitsCol);
    WindowCells(ws, wordOrder, byteOrder, f32);
  }

  /** SingleWordCells on the window. */
  lemma WindowCells(ws: seq<Word>, wordOrder: Endian, byteOrder: Endian, f32: nat -> string)
    requires 1 <= |ws| <= 2
    ensures var w := ws[0];
      var u := AdjustBytes(w, byteOrder);
      var bitsCell := ValueCell(ws, wordOrder, byteOrder, f32, Header(Bits, 19));
      ValueCell(ws, wordOrder, byteOrder, f32, Header(HexV, 5)) == RightAlign(Hex(w), 5) &&
      ValueCell(ws, wordOrder, byteOrder, f32, Header(U16, 6)) == RightAlign(Dec(u), 6) &&
      ValueCell(ws, wordOrder, byteOrder, f32, Header(I16, 7)) == RightAlign(Dec(Signed(u, 1)), 7) &&
      ValueCell(ws, wordOrder, byteOrder, f32, Header(St, 2)) == [Printable(u / 256), Printable(u % 256)] &&
      |bitsCell| == 19 &&
      (forall k :: 0 <= k < 16 ==> IsDigitIn(bitsCell[k + k / 4], 2)) &&
      ValueOf(seq(16, k requires 0 <= k < 16 => bitsCell[k + k / 4]), 2) == u
  {
    var w := ws[0];
    var u := AdjustBytes(w, byteOrder);
    LeadingWord(ws, wordOrder, byteOrder);
    assert ValueCell(ws, wordOrder, byteOrder, f32, Header(St, 2)) == [Printable(u / 256), Printable(u % 256)] by {
      StBytes(w, byteOrder);
    }
    BitsCell(ws, wordOrder, byteOrder, f32);
  }

  /** The leading one-word field is the adjusted first register. */
  lemma LeadingWord(ws: seq<Word>, wordOrder: Endian, byteOrder: Endian)
    requires 1 <= |ws|
    ensures LeadingField(ws, 1, wordOrder, byteOrder) == AdjustBytes(ws[0], byteOrder)
  {
    assert ws[..1] == [ws[0]];
    OneWordField(ws[0], wordOrder, byteOrder);
  }

  lemma StBytes(w: Word, byteOrder: Endian)
    ensures var u := AdjustBytes(w, byteOrder);
      [Printable(u / 256), Printable(u % 256)]
      == if byteOrder != Little then [Printable(w / 256), Printable(w % 256)] else [Printable(w % 256), Printable(w / 256)]
  {
  }

  lemma BitsCell(ws: seq<Word>, wordOrder: Endian, byteOrder: Endian, f32: nat -> string)
    requires 1 <= |ws| <= 2
    ensures var u := AdjustBytes(ws[0], byteOrder);
      var bitsCell := ValueCell(ws, wordOrder, byteOrder, f32, Header(Bits, 19));
      |bitsCell| == 19 &&
      (forall k :: 0 <= k < 16 ==> IsDigitIn(bitsCell[k + k / 4], 2)) &&
      ValueOf(seq(16, k requires 0 <= k < 16 => bitsCell[k + k / 4]), 2) == u
  {
    var u := AdjustBytes(ws[0], byteOrder);
    LeadingWord(ws, wordOrder, byteOrder);
    var bits := PaddedDigits(u, 2, 16);
    assert ValueCell(ws, wordOrder, byteOrder, f32, Header(Bits, 19)) == Grouped(bits);
    GroupedDigits(u);
  }

  /** The 16 binary digits of a word, grouped: the digits sit at k + k / 4. */
  lemma GroupedDigits(u: nat)
    requires u < 65536
    ensures var cell := Grouped(PaddedDigits(u, 2, 16));
      |cell| == 19 &&
      (forall k :: 0 <= k < 16 ==> IsDigitIn(cell[k + k / 4], 2)) &&
      ValueOf(seq(16, k requires 0 <= k < 16 => cell[k + k / 4]), 2) == u
  {
    WordDigits();
    PaddedDigitsExact(u, 2, 16);
    GroupedBits(PaddedDigits(u, 2, 16), u);
  }

  lemma GroupedBits(bits: string, u: nat)
    requires |bits| == 16 && ValueOf(bits, 2) == u && forall k :: 0 <= k < 16 ==> IsDigitIn(bits[k], 2)
    ensures var cell := Grouped(bits);
      |cell| == 19 &&
      (forall k :: 0 <= k < 16 ==> IsDigitIn(cell[k + k / 4], 2)) &&
      ValueOf(seq(16, k requires 0 <= k < 16 => cell[k + k / 4]), 2) == u
  {
    GroupedAt(bits);
    var cell := Grouped(bits);
    forall k | 0 <= k < 16 ensures IsDigitIn(cell[k + k / 4], 2) {
      assert cell[k + k / 4] == bits[k];
    }
    assert seq(16, k requires 0 <= k < 16 => cell[k + k / 4]) == bits;
  }

  lemma GroupedAt(s: string)
    ensures |Grouped(s)| == |s| + (if |s| == 0 then 0 else (|s| - 1) / 4)
    ensures forall k :: 0 <= k < |s| ==> Grouped(s)[k + k / 4] == s[k]
  {
    GroupedLength(s);
    forall k | 0 <= k < |s| ensures Grouped(s)[k + k / 4] == s[k] {
      GroupedBlocks(s, k);
    }
  }

  /** A word with a present successor: U32 and I32 are the 32-bit value of the
      pair under the configured word and byte order. */
  lemma DwordCells(buffer: seq<Option<Word>>, i: nat, start: int, wordOrder: Endian, byteOrder: Endian,
                   f32: nat -> string)
    requires i < |buffer| && buffer[i].Some? && IsDword(buffer, i)
    ensures var row := WordRow(buffer, i, start, wordOrder, byteOrder, f32);
      var v := DwordValue(buffer[i].value, buffer[i + 1].value, wordOrder, byteOrder);
      row[U32Col] == RightAlign(Dec(v), 11) &&
      row[I32Col] == RightAlign(Dec(Signed(v, 2)), 12) &&
      row[F32Col] == RightAlign(f32(v), 12)
  {
    ColumnsAt();
    RowValueCell(buffer, i, start, wordOrder, byteOrder, f32, U32Col);
    RowValueCell(buffer, i, start, wordOrder, byteOrder, f32, I32Col);
    RowValueCell(buffer, i, start, wordOrder, byteOrder, f32, F32Col);
    DwordWindowCells(buffer[i].value, buffer[i + 1].value, wordOrder, byteOrder, f32);
  }

  lemma DwordWindowCells(w0: Word, w1: Word, wordOrder: Endian, byteOrder: Endian, f32: nat -> string)
    ensures var v := DwordValue(w0, w1, wordOrder, byteOrder);
      ValueCell([w0, w1], wordOrder, byteOrder, f32, Header(U32, 11)) == RightAlign(Dec(v), 11) &&
      ValueCell([w0, w1], wordOrder, byteOrder, f32, Header(I32, 12)) == RightAlign(Dec(Signed(v, 2)), 12) &&
      ValueCell([w0, w1], wordOrder, byteOrder, f32, Header(F32, 12)) == RightAlign(f32(v), 12)
  {
    DwordLeading(w0, w1, wordOrder, byteOrder);
    PairCells([w0, w1], wordOrder, byteOrder, f32);
  }

  /** The 32-bit columns of a two-word window show its leading two-word field. */
  lemma PairCells(ws: seq<Word>, wordOrder: Endian, byteOrder: Endian, f32: nat -> string)
    requires |ws| == 2
    ensures var v := LeadingField(ws, 2, wordOrder, byteOrder);
      ValueCell(ws, wordOrder, byteOrder, f32, Header(U32, 11)) == RightAlign(Dec(v), 11) &&
      ValueCell(ws, wordOrder, byteOrder, f32, Header(I32, 12)) == RightAlign(Dec(Signed(v, 2)), 12) &&
      ValueCell(ws, wordOrder, byteOrder, f32, Header(F32, 12)) == RightAlign(f32(v), 12)
  {
    PairCell(ws, wordOrder, byteOrder, f32, Header(U32, 11));
    PairCell(ws, wordOrder, byteOrder, f32, Header(I32, 12));
    PairCell(ws, wordOrder, byteOrder, f32, Header(F32, 12));
  }

  lemma PairCell(ws: seq<Word>, wordOrder: Endian, byteOrder: Endian, f32: nat -> string, h: Header)
    requires |ws| == 2 && h.column in {U32, I32, F32}
    ensures var v := LeadingField(ws, 2, wordOrder, byteOrder);
      ValueCell(ws, wordOrder, byteOrder, f32, h)
      == RightAlign(if h.column == U32 then Dec(v) else if h.column == I32 then Dec(Signed(v, 2)) else f32(v), h.padding)
  {
  }

  /** The leading two-word field of a word and its successor is their 32-bit value. */
  lemma DwordLeading(w0: Word, w1: Word, wordOrder: Endian, byteOrder: Endian)
    ensures LeadingField([w0, w1], 2, wordOrder, byteOrder) == DwordValue(w0, w1, wordOrder, byteOrder)
  {
    var ws := [w0, w1];
    assert ws[..2] == ws;
    TwoWordField(w0, w1, wordOrder, byteOrder);
  }

  /** A word whose bytes are both unprintable shows "--" in St, as a missing word does. */
  lemma StOfUnprintable()
    ensures WordRow([Some(0)], 0, 0, Big, Big, _ => "")[StCol] == RightAlign("--", 2)
  {
    ColumnsAt();
    RowValueCell([Some(0)], 0, 0, Big, Big, _ => "", StCol);
  }

  // ---------------------------------------------------------------------------
  // read_registers and get_register_blocks
  // ---------------------------------------------------------------------------

  /** Which client call a read uses. */
  datatype RegisterKind = HoldingRegisters | InputRegisters

  /** One call of `command(address=..., count=..., slave=...)`. */
  datatype Request = Request(kind: RegisterKind, address: int, count: int, unit: int)

  /** What the client returns for a request: the registers, an error response,
      or a raised ConnectionException. */
  datatype ReadOutcome = Registers(registers: seq<Word>) | ErrorResponse | ConnectionFailure

  /** Reads are answered by an oracle: `read(k, r)` is the answer to the k-th request. */
  type ReadOracle = (nat, Request) -> ReadOutcome

  /** `[None] * count` */
  function Nones(count: int): (r: seq<Option<Word>>)
    ensures |r| == Max(count, 0) && forall j :: 0 <= j < |r| ==> r[j].None?
  {
    seq(Max(count, 0), _ => None)
  }

  /** What read_registers returns for an outcome. */
  function ReadResult(outcome: ReadOutcome, count: int): (r: seq<Option<Word>>)
  {
    match outcome
    case Registers(ws) => seq(|ws|, j requires 0 <= j < |ws| => Some(ws[j]))
    case _ => Nones(count)
  }

  /** read_registers: a failed or refused read gives `count` Nones, a good one its registers. */
  method ReadRegisters(read: ReadOracle, k: nat, r: Request) returns (regs: seq<Option<Word>>)
    ensures regs == ReadResult(read(k, r), r.count)
    ensures !read(k, r).Registers? ==> |regs| == Max(r.count, 0) && forall j :: 0 <= j < |regs| ==> regs[j].None?
    ensures read(k, r).Registers? ==>
      |regs| == |read(k, r).registers| && forall j :: 0 <= j < |regs| ==> regs[j] == Some(read(k, r).registers[j])
  {
    var result := read(k, r);
    if !result.Registers? {
      return Nones(r.count);
    }
    regs := seq(|result.registers|, j requires 0 <= j < |result.registers| => Some(result.registers[j]));
  }

  datatype Chunk = Chunk(address: int, count: int)

  /** The requests get_register_blocks issues: the whole range when it fits in
      one block, else full blocks followed by the remainder. */
  function Chunks(start: int, number: int, blockSize: int): (cs: seq<Chunk>)
    requires blockSize >= 1
    ensures |cs| >= 1 && cs[0].address == start
    decreases number
  {
    if number <= blockSize then [Chunk(start, number)]
    else [Chunk(start, blockSize)] + Chunks(start + blockSize, number - blockSize, blockSize)
  }

  function Requests(cs: seq<Chunk>, kind: RegisterKind, unit: int): (rs: seq<Request>)
    ensures |rs| == |cs|
  {
    seq(|cs|, j requires 0 <= j < |cs| => Request(kind, cs[j].address, cs[j].count, unit))
  }

  /** The concatenated results of the first requests, answered in order. */
  function Gathered(read: ReadOracle, rs: seq<Request>): seq<Option<Word>>
  {
    if rs == [] then []
    else Gathered(read, rs[..|rs| - 1]) + ReadResult(read(|rs| - 1, rs[|rs| - 1]), rs[|rs| - 1].count)
  }

  /** ESC is read by the k-th poll of getch(), which follows the k-th read. */
  type EscOracle = nat -> bool

  predicate NoEscBefore(esc: EscOracle, n: nat)
  {
    forall e :: 0 <= e < n ==> !esc(e)
  }

  lemma GatheredStep(read: ReadOracle, rs: seq<Request>, r: Request)
    ensures Gathered(read, rs + [r]) == Gathered(read, rs) + ReadResult(read(|rs|, r), r.count)
  {
    assert (rs + [r])[..|rs|] == rs;
  }

  lemma NoEscStep(esc: EscOracle, j: nat)
    requires NoEscBefore(esc, j) && !esc(j)
    ensures NoEscBefore(esc, j + 1)
  {
  }

  /** get_register_blocks. The outcome is None when ESC was pressed (the loop
      breaks and the function falls off its end); `trace` is the requests made. */
  method GetRegisterBlocks(read: ReadOracle, esc: EscOracle, kind: RegisterKind, config: ReadConfig)
    returns (result: Option<seq<Option<Word>>>, trace: seq<Request>)
    requires config.blockSize >= 1
    ensures var rs := Requests(Chunks(config.start, config.number, config.blockSize), kind, config.unit);
      1 <= |trace| <= |rs| && trace == rs[..|trace|]
    ensures result.Some? ==> trace == Requests(Chunks(config.start, config.number, config.blockSize), kind, config.unit)
    ensures result.Some? ==> result.value == Gathered(read, trace)
    ensures config.number <= config.blockSize ==> result.Some?
    ensures config.number > config.blockSize ==>
      (result.Some? <==> NoEscBefore(esc, |Chunks(config.start, config.number, config.blockSize)|))
    ensures result.None? ==> NoEscBefore(esc, |trace| - 1) && esc(|trace| - 1)
  {
    if config.number <= config.blockSize {
      var r := Request(kind, config.start, config.number, config.unit);
      var regs := ReadRegisters(read, 0, r);
      trace := [r];
      GatheredStep(read, [], r);
      return Some(regs), trace;
    }
    result, trace := ReadBlocks(read, esc, kind, config);
  }

  /** The read that follows the requests `trace`: its registers extend what they gathered. */
  method ReadBlock(read: ReadOracle, trace: seq<Request>, r: Request) returns (regs: seq<Option<Word>>)
    ensures Gathered(read, trace + [r]) == Gathered(read, trace) + regs
  {
    regs := ReadRegisters(read, |trace|, r);
    GatheredStep(read, trace, r);
  }

  /** The `while True` loop of get_register_blocks, for more than one block. */
  method ReadBlocks(read: ReadOracle, esc: EscOracle, kind: RegisterKind, config: ReadConfig)
    returns (result: Option<seq<Option<Word>>>, trace: seq<Request>)
    requires 1 <= config.blockSize < config.number
    ensures BlocksOutcome(read, esc, Requests(Chunks(config.start, config.number, config.blockSize), kind, config.unit), result, trace)
  {
    ghost var cs := Chunks(config.start, config.number, config.blockSize);
    ghost var rs := Requests(cs, kind, config.unit);
    var regsToReturn: seq<Option<Word>> := [];
    var start := config.start;
    var count := config.number;
    var number := config.blockSize;
    count := count - config.blockSize;
    trace := [];
    var j: nat := 0;  // reads (and getch polls) so far
    CursorStart(config.start, config.number, config.blockSize);
    while true
      invariant Cursor(cs, j, start, number, count, config.blockSize)
      invariant |trace| == j && trace == rs[..j]
      invariant regsToReturn == Gathered(read, trace)
      invariant NoEscBefore(esc, j)
      decreases |cs| - j
    {
      var r := Request(kind, start, number, config.unit);
      var regs := ReadBlock(read, trace, r);
      SeqPrefix(rs, j);
      trace := trace + [r];
      var key := esc(j);
      if key {
        Stopped(read, esc, rs, trace);
        return None, trace;
      }
      NoEscStep(esc, j);
      regsToReturn := regsToReturn + regs;
      if count == 0 {
        Finished(read, esc, rs, trace, regsToReturn);
        return Some(regsToReturn), trace;
      }
      start, number, count := NextBlock(cs, j, start, number, count, config.blockSize);
      j := j + 1;
    }
  }

  /** The loop's position in the plan: the j-th chunk is the request about to be
      made, `count` registers are left after it, and they are the rest of the plan. */
  predicate Cursor(cs: seq<Chunk>, j: nat, start: int, number: int, count: int, blockSize: int)
    requires blockSize >= 1
  {
    j < |cs| && cs[j] == Chunk(start, number) &&
    count >= 0 && (count == 0 <==> j == |cs| - 1) &&
    (count > 0 ==> number == blockSize && cs[j + 1..] == Chunks(start + number, count, blockSize))
  }

  /** What the loop of get_register_blocks achieves for the planned requests
      `rs`: the requests made are a non-empty prefix of the plan; all of them
      are made, and their registers gathered, exactly when no poll before the
      last read saw ESC; otherwise the last poll made is the first that did. */
  predicate BlocksOutcome(read: ReadOracle, esc: EscOracle, rs: seq<Request>,
                          result: Option<seq<Option<Word>>>, trace: seq<Request>)
  {
    1 <= |trace| <= |rs| && trace == rs[..|trace|] &&
    (result.Some? ==> trace == rs && result.value == Gathered(read, rs)) &&
    (result.Some? <==> NoEscBefore(esc, |rs|)) &&
    (result.None? ==> NoEscBefore(esc, |trace| - 1) && esc(|trace| - 1))
  }

  /** The loop's exit on ESC after the request trace[|trace| - 1]. */
  lemma Stopped(read: ReadOracle, esc: EscOracle, rs: seq<Request>, trace: seq<Request>)
    requires 1 <= |trace| <= |rs| && trace == rs[..|trace|]
    requires NoEscBefore(esc, |trace| - 1) && esc(|trace| - 1)
    ensures BlocksOutcome(read, esc, rs, None, trace)
  {
    EscStops(esc, |trace| - 1, |rs|);
  }

  /** The loop's exit after the last planned request. */
  lemma Finished(read: ReadOracle, esc: EscOracle, rs: seq<Request>, trace: seq<Request>, regs: seq<Option<Word>>)
    requires 1 <= |trace| == |rs| && trace == rs[..|trace|]
    requires NoEscBefore(esc, |rs|) && regs == Gathered(read, trace)
    ensures BlocksOutcome(read, esc, rs, Some(regs), trace)
  {
    assert rs[..|rs|] == rs;
  }

  /** Before the loop: the first chunk is a full block and the rest of the plan
      follows it. */
  lemma CursorStart(start: int, number: int, blockSize: int)
    requires 1 <= blockSize < number
    ensures Cursor(Chunks(start, number, blockSize), 0, start, blockSize, number - blockSize, blockSize)
  {
    var cs := Chunks(start, number, blockSize);
    assert cs == [Chunk(start, blockSize)] + Chunks(start + blockSize, number - blockSize, blockSize);
    assert cs[1..] == Chunks(start + blockSize, number - blockSize, blockSize);
  }

  /** An ESC at poll j, before the n-th, breaks every run of n polls without ESC. */
  lemma EscStops(esc: EscOracle, j: nat, n: nat)
    requires j < n && esc(j)
    ensures !NoEscBefore(esc, n)
  {
  }

  /** The bookkeeping at the end of the loop body: the next request's address
      and size, and what is left after it. */
  method NextBlock(ghost cs: seq<Chunk>, ghost j: nat, start: int, number: int, count: int, blockSize: int)
    returns (start': int, number': int, count': int)
    requires blockSize >= 1 && count > 0 && Cursor(cs, j, start, number, count, blockSize)
    ensures Cursor(cs, j + 1, start', number', count', blockSize)
  {
    ChunksTail(cs, j, start + number, count, blockSize);
    if blockSize < count {
      start' := start + number;
      number' := blockSize;
      count' := count - blockSize;
    } else {
      start' := start + number;
      number' := count;
      count' := 0;
    }
  }

  /** The chunk after the current one, and what follows it. */
  lemma ChunksTail(cs: seq<Chunk>, j: nat, start: int, count: int, blockSize: int)
    requires blockSize >= 1 && count > 0 && j + 1 <= |cs| && cs[j + 1..] == Chunks(start, count, blockSize)
    ensures j + 1 < |cs|
    ensures count <= blockSize ==> cs[j + 1] == Chunk(start, count) && j + 2 == |cs|
    ensures count > blockSize ==>
      cs[j + 1] == Chunk(start, blockSize) && cs[j + 2..] == Chunks(start + blockSize, count - blockSize, blockSize)
  {
    var rest := cs[j + 1..];
    assert rest[0] == cs[j + 1];
    assert rest[1..] == cs[j + 2..];
  }

  // Properties of the request plan

  /** Each chunk starts where the previous one ends. */
  predicate Contiguous(cs: seq<Chunk>)
  {
    forall j :: 0 <= j < |cs| - 1 ==> cs[j + 1].address == cs[j].address + cs[j].count
  }

  /** Requests are issued at contiguous ascending addresses. */
  lemma {:induction false} ChunksContiguous(start: int, number: int, blockSize: int)
    requires blockSize >= 1
    ensures Contiguous(Chunks(start, number, blockSize))
    decreases number
  {
    if number > blockSize {
      var cs := Chunks(start, number, blockSize);
      var rest := Chunks(start + blockSize, number - blockSize, blockSize);
      ChunksContiguous(start + blockSize, number - blockSize, blockSize);
      assert cs[1..] == rest;
      forall j | 0 <= j < |cs| - 1 ensures cs[j + 1].address == cs[j].address + cs[j].count {
        if j == 0 {
          assert cs[1] == rest[0];
        } else {
          assert cs[j] == rest[j - 1] && cs[j + 1] == rest[j];
          assert rest[(j - 1) + 1].address == rest[j - 1].address + rest[j - 1].count;
        }
      }
    }
  }

  /** A range that fits in a block is one request; otherwise every request but the
      last is a full block and the last is the remainder, between 1 and a block. */
  lemma {:induction false} ChunksSizes(start: int, number: int, blockSize: int)
    requires blockSize >= 1
    ensures number <= blockSize ==> Chunks(start, number, blockSize) == [Chunk(start, number)]
    ensures var cs := Chunks(start, number, blockSize);
      number > blockSize ==>
        |cs| >= 2 && (forall j :: 0 <= j < |cs| - 1 ==> cs[j].count == blockSize) &&
        1 <= cs[|cs| - 1].count <= blockSize
    decreases number
  {
    if number > blockSize {
      var cs := Chunks(start, number, blockSize);
      var rest := Chunks(start + blockSize, number - blockSize, blockSize);
      ChunksSizes(start + blockSize, number - blockSize, blockSize);
      assert cs[1..] == rest;
      forall j | 0 <= j < |cs| - 1 ensures cs[j].count == blockSize {
        if j > 0 {
          assert cs[j] == rest[j - 1];
        }
      }
    }
  }

  function TotalCount(cs: seq<Chunk>): int
  {
    if cs == [] then 0 else TotalCount(cs[..|cs| - 1]) + cs[|cs| - 1].count
  }

  lemma {:induction false} TotalCountCons(c: Chunk, cs: seq<Chunk>)
    ensures TotalCount([c] + cs) == c.count + TotalCount(cs)
    decreases |cs|
  {
    if cs != [] {
      var all := [c] + cs;
      assert all[..|all| - 1] == [c] + cs[..|cs| - 1];
      TotalCountCons(c, cs[..|cs| - 1]);
    }
  }

  /** The request sizes add up to the number of registers asked for. */
  lemma {:induction false} ChunksTotal(start: int, number: int, blockSize: int)
    requires blockSize >= 1
    ensures TotalCount(Chunks(start, number, blockSize)) == number
    decreases number
  {
    if number <= blockSize {
      assert Chunks(start, number, blockSize)[..0] == [];
    } else {
      ChunksTotal(start + blockSize, number - blockSize, blockSize);
      TotalCountCons(Chunk(start, blockSize), Chunks(start + blockSize, number - blockSize, blockSize));
    }
  }

  /** The number of requests is the number of registers divided by the block
      size, rounded up. */
  lemma {:induction false} ChunksCount(start: int, number: int, blockSize: int)
    requires blockSize >= 1 && number >= 1
    ensures var n := |Chunks(start, number, blockSize)|;
      (n - 1) * blockSize < number <= n * blockSize
    decreases number
  {
    if number > blockSize {
      var n := |Chunks(start, number, blockSize)|;
      ChunksCount(start + blockSize, number - blockSize, blockSize);
      assert n == |Chunks(start + blockSize, number - blockSize, blockSize)| + 1;
      assert (n - 1) * blockSize == (n - 2) * blockSize + blockSize;
      assert n * blockSize == (n - 1) * blockSize + blockSize;
    }
  }

  /** 300 registers in blocks of 125. */
  lemma ChunksExample()
    ensures Chunks(0, 300, 125) == [Chunk(0, 125), Chunk(125, 125), Chunk(250, 50)]
  {
  }

  /** A read answered as asked: registers, when returned, are as many as requested. */
  predicate Answered(read: ReadOracle, rs: seq<Request>)
  {
    forall k :: 0 <= k < |rs| && read(k, rs[k]).Registers? ==> |read(k, rs[k]).registers| == rs[k].count
  }

  /** When every read returns as many registers as it asked for (or fails), the
      buffer has one entry per requested register, in order. */
  lemma {:induction false} GatheredLength(read: ReadOracle, rs: seq<Request>)
    requires Answered(read, rs) && forall k :: 0 <= k < |rs| ==> rs[k].count >= 0
    ensures |Gathered(read, rs)| == RequestedCount(rs)
    decreases |rs|
  {
    if rs != [] {
      var init := rs[..|rs| - 1];
      assert forall k :: 0 <= k < |init| ==> init[k] == rs[k];
      GatheredLength(read, init);
    }
  }

  function RequestedCount(rs: seq<Request>): int
  {
    if rs == [] then 0 else RequestedCount(rs[..|rs| - 1]) + rs[|rs| - 1].count
  }

  lemma {:induction false} RequestedOfChunks(cs: seq<Chunk>, kind: RegisterKind, unit: int)
    ensures RequestedCount(Requests(cs, kind, unit)) == TotalCount(cs)
    decreases |cs|
  {
    if cs != [] {
      assert Requests(cs, kind, unit)[..|cs| - 1] == Requests(cs[..|cs| - 1], kind, unit);
      RequestedOfChunks(cs[..|cs| - 1], kind, unit);
    }
  }

  /** A completed acquisition of `number >= 0` registers has exactly `number`
      entries, when every read that succeeds returns what it asked for. */
  lemma AcquisitionLength(read: ReadOracle, kind: RegisterKind, config: ReadConfig)
    requires config.blockSize >= 1 && config.number >= 0
    requires Answered(read, Requests(Chunks(config.start, config.number, config.blockSize), kind, config.unit))
    ensures |Gathered(read, Requests(Chunks(config.start, config.number, config.blockSize), kind, config.unit))| == config.number
  {
    var cs := Chunks(config.start, config.number, config.blockSize);
    var rs := Requests(cs, kind, config.unit);
    ChunksSizes(config.start, config.number, config.blockSize);
    forall k | 0 <= k < |rs| ensures rs[k].count >= 0 {
    }
    GatheredLength(read, rs);
    RequestedOfChunks(cs, kind, config.unit);
    ChunksTotal(config.start, config.number, config.blockSize);
  }

  // ---------------------------------------------------------------------------
  // ModbusHandler: last_data, last_command, get_data_rows and process_result
  // ---------------------------------------------------------------------------

  /** The registers get_data_rows reads: holding registers for HOLDING, input
      registers for any other command. */
  function ReadKind(command: string): (kind: RegisterKind)
    ensures kind == HoldingRegisters <==> command == Holding
  {
    if command == Holding then HoldingRegisters else InputRegisters
  }

  /** The handler's state between a read and its display. `lastData` is None
      after an interrupted acquisition (get_register_blocks returned nothing). */
  class Handler {
    var lastData: Option<seq<Option<Word>>>
    var lastCommand: Option<string>

    constructor ()
      ensures lastData == Some([]) && lastCommand == None
    {
      lastData := Some([]);
      lastCommand := None;
    }

    /** process_result: no table for an empty buffer or before any read; a
        table for holding and input reads; an interrupted read makes
        process_words raise, which is caught, so no table either; any other
        command gives no table. */
    method ProcessResult(config: ModbusConfig, readConfig: ReadConfig, f32: nat -> string)
      returns (t: Option<TableContents>)
      ensures t.Some? <==>
        lastData.Some? && lastData.value != [] && lastCommand.Some? && lastCommand.value in {Input, Holding}
      ensures t.Some? ==>
        t.value == WordsTable(lastData.value, readConfig.start, EndianOf(config.wordOrder), EndianOf(config.byteOrder), f32)
    {
      if lastData == Some([]) || lastCommand.None? {
        return None;
      }
      if lastCommand.value == Input || lastCommand.value == Holding {
        if lastData.None? {
          return None;  // enumerate(None) raises TypeError, caught here
        }
        var table := ProcessWords(lastData.value, readConfig.start, EndianOf(config.wordOrder),
                                  EndianOf(config.byteOrder), f32);
        return Some(table);
      }
      return None;
    }

    /** get_data_rows: connect (`connected` says whether get_client succeeded),
        read holding registers for HOLDING and input registers for anything
        else, remember the buffer and the command, and process the result. */
    method GetDataRows(config: ModbusConfig, readConfig: ReadConfig, connected: bool, read: ReadOracle,
                       esc: EscOracle, f32: nat -> string)
      returns (t: Option<TableContents>, trace: seq<Request>)
      requires readConfig.blockSize >= 1
      modifies this
      ensures !connected ==> t.None? && trace == [] && lastData == old(lastData) && lastCommand == old(lastCommand)
      ensures connected ==> lastCommand == Some(readConfig.command)
      ensures connected ==>
        var rs := Requests(Chunks(readConfig.start, readConfig.number, readConfig.blockSize), ReadKind(readConfig.command), readConfig.unit);
        1 <= |trace| <= |rs| && trace == rs[..|trace|]
      ensures connected ==>
        forall k :: 0 <= k < |trace| ==> trace[k].kind == (if readConfig.command == Holding then HoldingRegisters else InputRegisters)
      ensures connected && (readConfig.number <= readConfig.blockSize ||
                            NoEscBefore(esc, |Chunks(readConfig.start, readConfig.number, readConfig.blockSize)|)) ==>
        lastData == Some(Gathered(read, Requests(Chunks(readConfig.start, readConfig.number, readConfig.blockSize), ReadKind(readConfig.command), readConfig.unit)))
      ensures (connected && readConfig.number > readConfig.blockSize &&
               !NoEscBefore(esc, |Chunks(readConfig.start, readConfig.number, readConfig.blockSize)|)) ==> lastData.None?
      ensures connected && lastData.Some? ==> lastData.value == Gathered(read, trace)
      ensures connected ==> (t.Some? <==> lastData.Some? && lastData.value != [] && readConfig.command in {Input, Holding})
      ensures connected && t.Some? ==>
        t.value == WordsTable(lastData.value, readConfig.start, EndianOf(config.wordOrder), EndianOf(config.byteOrder), f32)
    {
      if !connected {
        return None, [];
      }
      lastData, trace := GetRegisterBlocks(read, esc, ReadKind(readConfig.command), readConfig);
      lastCommand := Some(readConfig.command);
      t := ProcessResult(config, readConfig, f32);
    }
  }

  // ---------------------------------------------------------------------------
  // unit_sweep
  // ---------------------------------------------------------------------------

  /** The answer to one sweep request: a raised exception (with its repr), a
      ModbusIOException result, an ExceptionResponse, another error result, or
      a good response. */
  datatype SweepOutcome = Raised(repr: string) | NoResponse | ExceptionReply(text: string)
                        | UnknownReply(text: string) | ValidReply

  const SweepHeader: seq<string> := ["Unit", " Scan result"]

  /** The unit number as the sweep shows it. */
  function UnitName(unit: int): string
  {
    RightAlign(Dec(unit), 4)
  }

  /** The rows one unit contributes. */
  function UnitRows(name: string, outcome: SweepOutcome): (rows: seq<RowItem>)
    ensures outcome.Raised? ==> |rows| == 2 && rows[0] == Line(" " + name) && rows[1].Line?
    ensures !outcome.Raised? ==> |rows| == 1 && rows[0].Cells? && |rows[0].cells| == 2 && rows[0].cells[0] == name
  {
    match outcome
    case Raised(repr) => [Line(" " + name), Line("No response: " + repr)]
    case NoResponse => [Cells([name, " No response: ModbusIOException"])]
    case ExceptionReply(text) => [Cells([name, " Received exception: " + text])]
    case UnknownReply(text) => [Cells([name, " Received no known response: " + text])]
    case ValidReply => [Cells([name, " Valid modbus register response received!"])]
  }

  /** The request sent to one unit. */
  function SweepRequest(config: UnitSweepConfig, unit: int): Request
  {
    Request(if config.command == Holding then HoldingRegisters else InputRegisters,
            config.startRegister, config.numberOfRegisters, unit)
  }

  /** The requests of the first n units of the sweep. */
  function SweepRequests(config: UnitSweepConfig, n: nat): (rs: seq<Request>)
    ensures |rs| == n && forall k :: 0 <= k < n ==> rs[k] == SweepRequest(config, config.startUnit + k)
  {
    if n == 0 then [] else SweepRequests(config, n - 1) + [SweepRequest(config, config.startUnit + n - 1)]
  }

  /** The outcome of the k-th unit of the sweep. */
  function OutcomeAt(config: UnitSweepConfig, attempt: Request -> SweepOutcome, k: nat): SweepOutcome
  {
    attempt(SweepRequest(config, config.startUnit + k))
  }

  /** The rows of the first n units of the sweep. */
  function SweepRows(config: UnitSweepConfig, attempt: Request -> SweepOutcome, n: nat): seq<RowItem>
  {
    RowsNamed(UnitName, config, attempt, n)
  }

  /** SweepRows with the rendering of unit numbers as a parameter. */
  function RowsNamed(name: int -> string, config: UnitSweepConfig, attempt: Request -> SweepOutcome, n: nat)
    : seq<RowItem>
  {
    if n == 0 then []
    else RowsNamed(name, config, attempt, n - 1) + UnitBlock(name, config, attempt, n - 1)
  }

  /** The rows of the k-th unit of the sweep. */
  function UnitBlock(name: int -> string, config: UnitSweepConfig, attempt: Request -> SweepOutcome, k: nat)
    : (rows: seq<RowItem>)
    ensures |rows| == if OutcomeAt(config, attempt, k).Raised? then 2 else 1
  {
    UnitRows(name(config.startUnit + k), OutcomeAt(config, attempt, k))
  }

  /** unit_sweep: before each unit, ESC (the k-th poll) stops the sweep; each unit
      visited adds its rows. `visited` is the requests made, in order. None
      stands for the AttributeError raised when there is no client. */
  method UnitSweep(config: UnitSweepConfig, connected: bool, attempt: Request -> SweepOutcome, esc: EscOracle)
    returns (t: Option<TableContents>, visited: seq<Request>)
    ensures !connected ==> t.None? && visited == []
    ensures connected ==> t.Some? && t.value.header == Some(SweepHeader)
    ensures |visited| <= Max(config.lastUnit - config.startUnit + 1, 0)
    ensures forall k :: 0 <= k < |visited| ==> visited[k] == SweepRequest(config, config.startUnit + k)
    ensures NoEscBefore(esc, |visited|)
    ensures connected && |visited| < config.lastUnit - config.startUnit + 1 ==> esc(|visited|)
    ensures t.Some? ==> t.value.rows == SweepRows(config, attempt, |visited|)
  {
    if !connected {
      return None, [];
    }
    var rows: seq<RowItem> := [];
    visited := [];
    var unit := config.startUnit;
    while unit <= config.lastUnit
      invariant unit == config.startUnit + |visited|
      invariant |visited| <= Max(config.lastUnit - config.startUnit + 1, 0)
      invariant visited == SweepRequests(config, |visited|)
      invariant NoEscBefore(esc, |visited|)
      invariant rows == RowsNamed(UnitName, config, attempt, |visited|)
      decreases config.lastUnit - unit
    {
      var key := esc(unit - config.startUnit);
      if key {
        break;
      }
      NoEscStep(esc, |visited|);
      var request := SweepRequest(config, unit);
      var result := attempt(request);
      var name := UnitName(unit);
      RowsNamedStep(UnitName, config, attempt, |visited|);
      rows := rows + UnitRows(name, result);
      visited := visited + [request];
      unit := unit + 1;
    }
    t := Some(TableContents(Some(SweepHeader), rows));
  }

  lemma RowsNamedStep(name: int -> string, config: UnitSweepConfig, attempt: Request -> SweepOutcome, n: nat)
    ensures RowsNamed(name, config, attempt, n + 1)
         == RowsNamed(name, config, attempt, n) + UnitRows(name(config.startUnit + n), OutcomeAt(config, attempt, n))
  {
  }

  /** How many rows the attempts raising an exception add. */
  function RaisedCount(config: UnitSweepConfig, attempt: Request -> SweepOutcome, n: nat): nat
  {
    if n == 0 then 0
    else RaisedCount(config, attempt, n - 1) + (if OutcomeAt(config, attempt, n - 1).Raised? then 1 else 0)
  }

  /** One row per unit visited, plus one extra for every exception. */
  lemma SweepRowsCount(config: UnitSweepConfig, attempt: Request -> SweepOutcome, n: nat)
    ensures |SweepRows(config, attempt, n)| == n + RaisedCount(config, attempt, n)
  {
    RowsNamedCount(UnitName, config, attempt, n);
  }

  lemma {:induction false} RowsNamedCount(name: int -> string, config: UnitSweepConfig,
                                          attempt: Request -> SweepOutcome, n: nat)
    ensures |RowsNamed(name, config, attempt, n)| == n + RaisedCount(config, attempt, n)
  {
    if n > 0 {
      RowsNamedCount(name, config, attempt, n - 1);
    }
  }

  /** Without exceptions, row k is the k-th unit visited: its number right-aligned
      to four, and the message for its outcome. */
  lemma SweepRowsPlain(config: UnitSweepConfig, attempt: Request -> SweepOutcome, n: nat)
    requires forall k :: 0 <= k < n ==> !OutcomeAt(config, attempt, k).Raised?
    ensures |SweepRows(config, attempt, n)| == n
    ensures forall k :: 0 <= k < n ==>
      SweepRows(config, attempt, n)[k] == UnitRows(UnitName(config.startUnit + k), OutcomeAt(config, attempt, k))[0]
  {
    RowsNamedPlain(UnitName, config, attempt, n);
    var rows := SweepRows(config, attempt, n);
    assert rows == RowsNamed(UnitName, config, attempt, n);
    forall k | 0 <= k < n
      ensures rows[k] == UnitRows(UnitName(config.startUnit + k), OutcomeAt(config, attempt, k))[0]
    {
      assert rows[k] == UnitBlock(UnitName, config, attempt, k)[0];
    }
  }

  lemma {:induction false} RowsNamedPlain(name: int -> string, config: UnitSweepConfig,
                                          attempt: Request -> SweepOutcome, n: nat)
    requires forall k :: 0 <= k < n ==> !OutcomeAt(config, attempt, k).Raised?
    ensures |RowsNamed(name, config, attempt, n)| == n
    ensures forall k :: 0 <= k < n ==> RowsNamed(name, config, attempt, n)[k] == UnitBlock(name, config, attempt, k)[0]
  {
    if n > 0 {
      RowsNamedPlain(name, config, attempt, n - 1);
      AppendSingleton(RowsNamed(name, config, attempt, n - 1), UnitBlock(name, config, attempt, n - 1), n - 1);
    }
  }

  /** Appending a one-row block keeps the earlier rows and puts its row last. */
  lemma AppendSingleton(prev: seq<RowItem>, last: seq<RowItem>, n: nat)
    requires |prev| == n && |last| == 1
    ensures |prev + last| == n + 1 && (prev + last)[n] == last[0]
    ensures forall k :: 0 <= k < n ==> (prev + last)[k] == prev[k]
  {
  }

  /** The message column for each outcome. */
  lemma SweepMessages(name: string)
    ensures UnitRows(name, ValidReply) == [Cells([name, " Valid modbus register response received!"])]
    ensures UnitRows(name, NoResponse) == [Cells([name, " No response: ModbusIOException"])]
    ensures forall t :: UnitRows(name, ExceptionReply(t)) == [Cells([name, " Received exception: " + t])]
    ensures forall t :: UnitRows(name, UnknownReply(t)) == [Cells([name, " Received no known response: " + t])]
    ensures forall t :: UnitRows(name, Raised(t)) == [Line(" " + name), Line("No response: " + t)]
  {
  }

  // ---------------------------------------------------------------------------
  // write_registers
  // ---------------------------------------------------------------------------

  /** The unit a write goes to: 0 (broadcast) when multicast, else the configured unit. */
  function WriteUnit(config: WriteConfig): (unit: Value)
    ensures config.multicast ==> unit == IntV(0)
    ensures !config.multicast ==> unit == config.unit
  {
    if config.multicast then IntV(0) else config.unit
  }

  /** `int(x)` for the configuration's value; `parse` stands for int() on a string. */
  function PyInt(v: Value, parse: string -> Option<int>): (r: Option<int>)
    ensures v.IntV? ==> r == Some(v.i)
  {
    match v
    case IntV(i) => Some(i)
    case BoolV(b) => Some(if b then 1 else 0)
    case RealV(x) => Some(if x >= 0.0 then x.Floor else -((-x).Floor))
    case StrV(text) => parse(text)
    case NoneV => None
  }

  /** Encoder width and signedness for the formats' suffixes. */
  function SuffixField(suffix: string): (field: (nat, bool))
  {
    if suffix == "16bit_uint" then (1, false)
    else if suffix == "16bit_int" then (1, true)
    else if suffix == "32bit_uint" then (2, false)
    else (2, true)
  }

  datatype WriteRequest = WriteRequest(address: int, values: seq<Word>, unit: Value)

  /** The outcome of write_registers: a raised exception that escapes (unknown
      format, unconvertible or out-of-range value), no client, a failure
      reported in the status line, the multicast notice, or success. */
  datatype WriteOutcome = Escaped | NotConnected | WriteFailed | MulticastSent | Written

  /** The registers the builder produces for the configured value: None when
      the format is not in the mapping (KeyError), int() fails or the value is
      out of the format's range (the add_* call raises). */
  function Encoded(config: ModbusConfig, write: WriteConfig, parse: string -> Option<int>): (values: Option<seq<Word>>)
    ensures values.Some? <==>
      (FormatSuffix(write.format).Some? && PyInt(write.value, parse).Some? &&
       EncodeWords(PyInt(write.value, parse).value, SuffixField(FormatSuffix(write.format).value).0,
                   SuffixField(FormatSuffix(write.format).value).1,
                   EndianOf(config.wordOrder), EndianOf(config.byteOrder)).Some?)
  {
    match FormatSuffix(write.format)
    case None => None
    case Some(suffix) =>
      match PyInt(write.value, parse)
      case None => None
      case Some(v) => EncodeWords(v, SuffixField(suffix).0, SuffixField(suffix).1, EndianOf(config.wordOrder), EndianOf(config.byteOrder))
  }

  /** write_registers, as the request it sends (if any) and its outcome.
      `answer` says whether the client raised, and otherwise whether the
      response is an error. An unset address makes int(None) raise inside the
      try, which reports a failure. */
  function WriteRegisters(config: ModbusConfig, write: WriteConfig, connected: bool,
                          parse: string -> Option<int>, answer: WriteRequest -> Option<bool>)
    : (r: (WriteOutcome, Option<WriteRequest>))
    ensures r.1.Some? <==> connected && write.address.Some? && Encoded(config, write, parse).Some?
    ensures r.1.Some? ==> r.1.value.address == write.address.value && r.1.value.unit == WriteUnit(write)
    ensures r.1.Some? ==> r.1.value.values == Encoded(config, write, parse).value
    ensures !connected ==> r.0 == NotConnected
    ensures connected && Encoded(config, write, parse).None? ==> r.0 == Escaped
    ensures connected && Encoded(config, write, parse).Some? && write.address.None? ==> r.0 == WriteFailed
    ensures r.1.Some? && write.multicast ==> r.0 == (if answer(r.1.value).None? then WriteFailed else MulticastSent)
    ensures r.1.Some? && !write.multicast ==> r.0 == (if answer(r.1.value) == Some(false) then Written else WriteFailed)
  {
    if !connected then (NotConnected, None)
    else match FormatSuffix(write.format)
      case None => (Escaped, None)
      case Some(suffix) =>
        var field := SuffixField(suffix);
        match PyInt(write.value, parse)
        case None => (Escaped, None)
        case Some(v) =>
          match EncodeWords(v, field.0, field.1, EndianOf(config.wordOrder), EndianOf(config.byteOrder))
          case None => (Escaped, None)
          case Some(values) =>
            if write.address.None? then (WriteFailed, None)
            else
              var request := WriteRequest(write.address.value, values, WriteUnit(write));
              match answer(request)
              case None => (WriteFailed, Some(request))
              case Some(isError) =>
                if write.multicast then (MulticastSent, Some(request))
                else if isError then (WriteFailed, Some(request))
                else (Written, Some(request))
  }

  /** The registers a write sends decode back, under the configured orders and
      the format's signedness, to int() of the configured value. */
  lemma WrittenValueDecodes(config: ModbusConfig, write: WriteConfig, connected: bool,
                            parse: string -> Option<int>, answer: WriteRequest -> Option<bool>)
    requires WriteRegisters(config, write, connected, parse, answer).1.Some?
    ensures var values := WriteRegisters(config, write, connected, parse, answer).1.value.values;
      var field := SuffixField(FormatSuffix(write.format).value);
      var decoded := FieldAt(RegistersToBytes(values), 0, 2 * field.0, EndianOf(config.wordOrder), EndianOf(config.byteOrder));
      && |values| == field.0
      && decoded.Some?
      && (if field.1 then Signed(decoded.value, field.0) else decoded.value) == PyInt(write.value, parse).value
  {
    var field := SuffixField(FormatSuffix(write.format).value);
    var v := PyInt(write.value, parse).value;
    if field.1 {
      EncodeDecodeSigned(v, field.0, EndianOf(config.wordOrder), EndianOf(config.byteOrder));
    } else {
      EncodeDecodeUnsigned(v, field.0, EndianOf(config.wordOrder), EndianOf(config.byteOrder));
    }
  }
}
