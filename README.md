# ModTerm core in Dafny

ModTerm is a terminal Modbus analyser. It reads holding or input registers from
a Modbus TCP or RTU device, shows them as a table of decoded values, analyses a
register window under every word and byte order, sweeps unit IDs, writes
registers and exports tables to files. Its settings are edited in small curses
dialogs.

This project models the parts of ModTerm that decide what is shown, what is
sent and what is stored:

- `definitions.dfy`: the configuration dataclasses with their defaults, the
  `from_dict` loader and the `asdict` records.
- `payload.dfy`: the decoder and builder the core calls, as a model of the
  pymodbus `BinaryPayloadDecoder`/`BinaryPayloadBuilder`. Registers are
  big-endian 16-bit words as in section 4.2 of the Modbus Application Protocol
  Specification V1.1b3. Word order and byte order rearrange them before a
  big-endian read.
- `modbus_handler.dfy`: the register table (`process_words`), the block-wise
  acquisition (`get_register_blocks`, `read_registers`), `process_result`,
  `get_data_rows`, the unit sweep and `write_registers`. The device, the
  keyboard poll and the clock become oracle parameters.
- `analyse_window.dfy`: the eleven-type, four-order table of a register
  window, its column paddings, the bit matrix and the dialog size. The four
  decoders are objects whose read pointers the table and the bit matrix share.
- `scrollable_list.dfy`: the paged cursor of `ScrollableList` (step and page
  moves, drawing a page) and `SelectWindow.get_selection`.
- `menu_base.dfy`, `header_menu.dfy`, `read_registers_menu.dfy`,
  `unit_sweep_menu.dfy`, `write_registers_menu.dfy`, `ip_sweep_menu.dfy`,
  `export_menu.dfy`: the dialogs as classes whose setters update the
  configuration. Each setter has a pure specification function, and the
  lemmas prove that the accepted ranges are invariants.
- `popup_message.dfy`: the greedy word wrap of `show_popup_message`.
- `pyformat.dfy`, `keys.dfy`, `text_input.dfy`: the Python and curses
  behaviour the core relies on. This covers `str.format` alignment and
  padding, `int`/hex/binary digits, `split`/`join`/`strip`/`lower`, Python
  indexing and the curses key codes. It also covers the result of a text
  prompt: the text together with the outcome of each conversion the menus
  apply to it.

## Model

| member | source | states |
|---|---|---|
| Definitions.FormatNames | modterm/components/definitions.py:38-44 | The selectable write formats are UINT16, INT16, UINT32 and INT32, in that order. |
| Definitions.FormatSuffix | modterm/components/definitions.py:38-44 | Each format name maps to its encoder suffix; any other name is absent, the KeyError. |
| Definitions.FromDictFields | modterm/components/definitions.py:68-73 | from_dict always yields a record with exactly the dataclass's fields. |
| Definitions.FromDictEmpty | modterm/components/definitions.py:68-73 | An empty dict loads the dataclass defaults. |
| Definitions.FromDictIgnoresUnknown | modterm/components/definitions.py:68-73 | Keys that are not constructor parameters are dropped without effect. |
| Definitions.FromDictTakesGiven | modterm/components/definitions.py:68-73 | A key that names a field is taken as given, with no range or type check. |
| Definitions.FromDictSaved | modterm/components/definitions.py:68-73 | Loading a saved record (exactly the fields) gives the record back unchanged. |
| Definitions.ModbusRecord | modterm/components/definitions.py:55-66 | asdict of a ModbusConfig has the ten fields under their Python names. |
| Definitions.ReadRecord | modterm/components/definitions.py:76-82 | asdict of a ReadConfig has its five fields. |
| Definitions.WriteRecord | modterm/components/definitions.py:92-98 | asdict of a WriteConfig has its five fields. |
| Definitions.ExportRecord | modterm/components/definitions.py:108-112 | asdict of an ExportConfig has its three fields; None stays None. |
| Definitions.UnitSweepRecord | modterm/components/definitions.py:122-129 | asdict of a UnitSweepConfig has its six fields. |
| Definitions.DefaultsLoaded | modterm/components/definitions.py:55-129 | Loading from empty dicts gives every configuration at the declared defaults, e.g. TCP on localhost:502, holding registers from 0, one register, unit 1, blocks of 125. |
| Definitions.UnitSweepDefaultsOrdered | modterm/components/definitions.py:124-125 | The default sweep range 1..255 is ordered. |
| Payload.RegistersToBytes | modterm/components/modbus_handler.py:121-123 | A decoder's payload holds two bytes per register. |
| Payload.SwapBytesInvolution | modterm/components/modbus_handler.py:121-123 | Swapping the bytes of a word twice gives the word back. |
| Payload.SwapBytes | modterm/components/modbus_handler.py:121-123 | Little-endian byte order exchanges a register's high and low bytes. |
| Payload.ArrangeInvolution | modterm/components/modbus_handler.py:121-123 | Applying the word and byte order twice gives the registers back. |
| Payload.BigEndianBound | modterm/components/modbus_handler.py:158-166 | A field of k words is read as a value below 65536^k. |
| Payload.ToWordsValue | modterm/components/modbus_handler.py:264-267 | Splitting a value below 65536^k into k words and reading them back big-endian gives the value. |
| Payload.FieldOfRegisters | modterm/components/modbus_handler.py:121-123 | A field at a word boundary of the payload is the ordered value of those registers. |
| Payload.BytesToWordsSlice | modterm/components/modbus_handler.py:121-123 | Cutting the payload at word boundaries gives back exactly those registers. |
| Payload.PayloadDecoder.FromRegisters | modterm/components/modbus_handler.py:121-123 | fromRegisters: the payload is the registers' bytes, with the given orders and the pointer at 0. |
| Payload.PayloadDecoder.Reset | modterm/components/modbus_handler.py:145 | reset puts the pointer back at 0 and changes nothing else. |
| Payload.PayloadDecoder.DecodeUint | modterm/components/modbus_handler.py:144-166 | A decode advances the pointer by the width and returns the field there; past the end of the payload it is the exception. |
| Payload.PayloadDecoder.DecodeInt | modterm/components/modbus_handler.py:149-166 | A signed decode is the two's complement reading of the same field. |
| Payload.EncodeWords | modterm/components/modbus_handler.py:264-267 | The builder's add_* call succeeds exactly for values in the unsigned or signed range of the width, and then gives that many registers. |
| Payload.EncodeDecodeUnsigned | modterm/components/modbus_handler.py:264-271 | Decoding the registers built from an unsigned value, under the same orders, gives the value back. |
| Payload.EncodeDecodeSigned | modterm/components/modbus_handler.py:264-271 | Decoding the registers built from a signed value, under the same orders, gives its two's complement, which reads back signed as the value. |
| Payload.TwosComplement | modterm/components/modbus_handler.py:264-267 | The two's complement of an in-range value lies below 65536^k and reads back signed as the value. |
| Payload.OneWordField | modterm/components/modbus_handler.py:144-153 | A one-word field is the register with its bytes swapped for little-endian byte order; the word order does not matter. |
| Payload.TwoWordField | modterm/components/modbus_handler.py:158-166 | A two-word field puts the first register high for big-endian word order and low for little-endian, each byte-adjusted. |
| ModbusHandler.ColumnsAt | modterm/components/modbus_handler.py:47-58 | The eleven columns Idx, Addr, HAdr, HexV, U16, I16, U32, I32, F32, St, Bits with paddings 4, 6, 5, 5, 6, 7, 11, 12, 12, 2, 19. |
| ModbusHandler.HeaderRowWidths | modterm/components/modbus_handler.py:61-63 | Each header cell is its title right-aligned to exactly its column's padding. |
| ModbusHandler.HexInt | modterm/components/modbus_handler.py:133-134 | The "X" format of an integer: a minus sign before the hex digits of a negative one. |
| ModbusHandler.Window | modterm/components/modbus_handler.py:121 | A row's decoder reads the word and, when the next one is present, its successor. |
| ModbusHandler.ProcessWords | modterm/components/modbus_handler.py:113-195 | process_words returns the words table: the header row and one row per buffer entry. |
| ModbusHandler.BuildRow | modterm/components/modbus_handler.py:116-194 | One pass of the enumerate loop: the row's decoder and the column loop build row i of the table. |
| ModbusHandler.ColumnCell | modterm/components/modbus_handler.py:125-193 | The cascade of continues gives cell c of row i. |
| ModbusHandler.WordDecoded | modterm/components/modbus_handler.py:144-153 | Reset, then a one-word decode gives the U16 and I16 cells. |
| ModbusHandler.DwordDecoded | modterm/components/modbus_handler.py:158-175 | Reset, then a two-word decode gives the U32, I32 and F32 cells. |
| ModbusHandler.BitsDecoded | modterm/components/modbus_handler.py:189-193 | Reset, decode one word, 16 binary digits in four groups. |
| ModbusHandler.TableShape | modterm/components/modbus_handler.py:113-195 | One row per buffer entry, each with exactly the eleven cells. |
| ModbusHandler.IndexCells | modterm/components/modbus_handler.py:126-135 | Idx is the index, Addr the start plus the index, HAdr its hex, right-aligned, whether or not the word is present. |
| ModbusHandler.MissingWordCells | modterm/components/modbus_handler.py:137-139 | A missing word shows "--" right-aligned in every value column. |
| ModbusHandler.LoneWordCells | modterm/components/modbus_handler.py:154-156 | A word without a present successor shows "--" in U32, I32 and F32 only; its single-word cells are never "--". |
| ModbusHandler.SingleWordCells | modterm/components/modbus_handler.py:141-192 | HexV is the raw register in hex. U16, I16, St and Bits show the byte-order adjusted register: decimal, signed, two characters high byte first, and 16 binary digits in groups of four that read back as U16. |
| ModbusHandler.DwordCells | modterm/components/modbus_handler.py:158-175 | With a present successor, U32 and I32 are the pair's 32-bit value under the configured word and byte order, unsigned and signed. |
| ModbusHandler.StOfUnprintable | modterm/components/modbus_handler.py:176-187 | A word of two unprintable bytes shows "--" in St, the same text as a missing word. |
| ModbusHandler.Nones | modterm/components/modbus_handler.py:215 | [None] * count has max(count, 0) entries, all None. |
| ModbusHandler.ReadRegisters | modterm/components/modbus_handler.py:210-220 | A refused connection or an error response gives count Nones; a good response gives its registers. |
| ModbusHandler.Chunks | modterm/components/modbus_handler.py:222-254 | The plan of requests starts at the start register. |
| ModbusHandler.GetRegisterBlocks | modterm/components/modbus_handler.py:222-254 | The requests made are a prefix of the plan. Without ESC all are made and the buffer is their results in order. A range within one block is read at once. Otherwise ESC after a read stops with no result. |
| ModbusHandler.ReadBlocks | modterm/components/modbus_handler.py:228-254 | The while-True loop: all planned reads exactly when no poll saw ESC, otherwise the first ESC ends it. |
| ModbusHandler.NextBlock | modterm/components/modbus_handler.py:247-254 | The next request starts where the last ended, with a full block or the remainder. |
| ModbusHandler.Stopped | modterm/components/modbus_handler.py:236-239 | An ESC after a request, with none before, ends the loop there with no result. |
| ModbusHandler.Finished | modterm/components/modbus_handler.py:247-254 | After the last planned request, with no ESC, the loop returns the gathered registers. |
| ModbusHandler.ChunksContiguous | modterm/components/modbus_handler.py:247-254 | Requests are issued at contiguous ascending addresses. |
| ModbusHandler.ChunksSizes | modterm/components/modbus_handler.py:223-254 | A range within one block is one request; otherwise all requests but the last are full blocks and the last holds 1 to block_size registers. |
| ModbusHandler.ChunksTotal | modterm/components/modbus_handler.py:228-254 | The request sizes add up to the number asked for. |
| ModbusHandler.ChunksCount | modterm/components/modbus_handler.py:228-254 | The number of requests is the number of registers divided by the block size, rounded up. |
| ModbusHandler.ChunksExample | modterm/components/modbus_handler.py:228-254 | 300 registers in blocks of 125 are read as 0/125, 125/125, 250/50. |
| ModbusHandler.GatheredLength | modterm/components/modbus_handler.py:241-244 | When every read answers with the count asked for, or fails, the buffer has one entry per requested register. |
| ModbusHandler.AcquisitionLength | modterm/components/modbus_handler.py:222-254 | A completed acquisition of number registers whose reads answer as asked has exactly number entries. |
| ModbusHandler.Handler.constructor | modterm/components/modbus_handler.py:67-70 | A new handler holds an empty buffer and no command. |
| ModbusHandler.Handler.ProcessResult | modterm/components/modbus_handler.py:200-207 | A table exactly when the buffer is non-empty and the last command is a holding or input read; it is the words table of the buffer. |
| ModbusHandler.Handler.GetDataRows | modterm/components/modbus_handler.py:96-111 | Without a client nothing changes. Otherwise the requests made are a prefix of the chunk plan for the start register, count, block size and unit. The HOLDING command reads holding registers and any other command input registers. The buffer is the gathered registers of the whole plan when the range fits one block or no ESC came before the last poll, and None otherwise. A table comes out exactly when the buffer is present and non-empty and the command is holding or input; it is the words table of the buffer. |
| ModbusHandler.ReadKind | modterm/components/modbus_handler.py:101-108 | Holding registers are read exactly for the HOLDING command. |
| ModbusHandler.UnitSweep | modterm/components/modbus_handler.py:283-327 | Units are polled from start_unit upward, each once, until last_unit or the first ESC. The rows are each unit's rows in order under the two-column header. No client raises. |
| ModbusHandler.SweepRowsCount | modterm/components/modbus_handler.py:300-325 | One row per unit visited, plus one for every unit whose request raised. |
| ModbusHandler.SweepRowsPlain | modterm/components/modbus_handler.py:308-324 | Without exceptions, row k is unit start_unit + k right-aligned to four, with its message. |
| ModbusHandler.SweepMessages | modterm/components/modbus_handler.py:304-324 | The message for each outcome: valid response, ModbusIOException, exception response, unknown response. An exception adds two bare rows. |
| ModbusHandler.WriteUnit | modterm/components/modbus_handler.py:257 | A multicast write goes to unit 0, any other to the configured unit. |
| ModbusHandler.PyInt | modterm/components/modbus_handler.py:267 | int() of an integer value is that value. |
| ModbusHandler.Encoded | modterm/components/modbus_handler.py:263-267 | The builder yields registers exactly when the format is in the mapping, int() reads the value and the value is in the format's range. |
| ModbusHandler.WriteRegisters | modterm/components/modbus_handler.py:256-281 | A request is sent exactly when connected, with an address and with a value the builder encodes. It goes to int(address) with the encoded registers and WriteUnit. An unknown format, an unconvertible value or one out of range escapes as an exception. A missing address is reported as a failure. Multicast answers with the notice unless the send raised. Unicast succeeds exactly on an error-free response. |
| ModbusHandler.WrittenValueDecodes | modterm/components/modbus_handler.py:263-270 | The registers sent decode back, under the configured orders and the format's signedness, to int() of the configured value. |
| AnalyseWindows.RowTypesWellFormed | modterm/components/analyse_window.py:36-54 | The eleven types each have a field width of 2, 4 or 8 bytes matching their decode method, and HEX types have 4, 8 or 16 digits. |
| AnalyseWindows.ColumnEndFacts | modterm/components/analyse_window.py:62-81 | A decoder is back at 0 exactly when every row so far fitted the payload; otherwise its pointer stays past the end. |
| AnalyseWindows.CellValueFacts | modterm/components/analyse_window.py:66-78 | A cell is N/A exactly when that row or an earlier row did not fit; otherwise it is the field at the start of the payload. |
| AnalyseWindows.FullPayloadValues | modterm/components/analyse_window.py:56-83 | With four or more registers every cell is the ordered value of the first width/2 registers. |
| AnalyseWindows.ShortPayloadValues | modterm/components/analyse_window.py:62-81 | With two or three registers only the 16- and 32-bit rows decode. With one only the 16-bit rows decode, and with none nothing does. |
| AnalyseWindows.TableRow | modterm/components/analyse_window.py:63-83 | A table row has five cells. |
| AnalyseWindows.TextRows | modterm/components/analyse_window.py:35-83 | The table has twelve rows of five cells. |
| AnalyseWindows.TableShape | modterm/components/analyse_window.py:35-83 | The label row, then one row per type in order, each led by the type's name, five cells each. |
| AnalyseWindows.CellsIndependent | modterm/components/analyse_window.py:66-81 | Cell (r, c) is the text of decoder c's field for row r, and "N/A" exactly for a failed decode. |
| AnalyseWindows.HexCell | modterm/components/analyse_window.py:68-73 | A HEX cell is the full digit count of upper-case hex in groups of four; with the spaces removed the digits read back as the value. |
| AnalyseWindows.MaxLen | modterm/components/analyse_window.py:64-80 | The padding is the largest of the start value and every length. |
| AnalyseWindows.PaddingsAreMaxima | modterm/components/analyse_window.py:64-80 | Column c's padding is the longest cell of column c over the typed rows, and at least 9 for the name column and 0 otherwise. |
| AnalyseWindows.DialogWidth | modterm/components/analyse_window.py:107-109 | The width is the paddings' sum plus 8, capped at the screen width minus 2. |
| AnalyseWindows.DialogHeight | modterm/components/analyse_window.py:27 | The height is 23 on a screen of more than 22 rows, else two fewer than the screen's. |
| AnalyseWindows.BitHeaderShape | modterm/components/analyse_window.py:85-91 | The bit header is the 16 labels 60 down to 0, four characters each, joined by spaces, right-aligned to 94, plus a space: 95 characters. |
| AnalyseWindows.BitLabelLoop | modterm/components/analyse_window.py:86-90 | The label loop produces the labels 60, 56, ..., 0. |
| AnalyseWindows.BitStringDigits | modterm/components/analyse_window.py:98-102 | A 64-bit value in binary with a space after every fourth digit: 79 characters whose digits read back as the value. |
| AnalyseWindows.BitRowDigits | modterm/components/analyse_window.py:103 | A bit row is the decoder's label right-aligned to 13, a space, then the grouped 64 digits. |
| AnalyseWindows.BitRowText | modterm/components/analyse_window.py:98-103 | The padded, grouped binary of the value under the decoder's label is exactly BitRow. |
| AnalyseWindows.BitPass | modterm/components/analyse_window.py:93-97 | A pass visits the decoders in order and stops at the first failed read; its rows name decoders. |
| AnalyseWindows.BitsOfFullPayload | modterm/components/analyse_window.py:92-105 | With four or more registers the bit matrix is the header and one 64-bit row per decoder, of that order's value of the first four registers. |
| AnalyseWindows.BitsOfShortPayload | modterm/components/analyse_window.py:92-105 | With fewer than four registers the bit matrix is the header alone: the failed Float64 decode left every pointer past the end. |
| AnalyseWindows.InsertSpaces | modterm/components/analyse_window.py:70-73 | The splicing loop puts a space after every fourth character. |
| AnalyseWindows.DecodeCell | modterm/components/analyse_window.py:67-78 | One cell: the field's text and a reset on success, "N/A" on an exception with the pointer advanced. |
| AnalyseWindows.DecodeColumn | modterm/components/analyse_window.py:66-78 | Decoder c's cell is the text of the field at its pointer, and only that decoder's pointer moves. |
| AnalyseWindows.DecodeRow | modterm/components/analyse_window.py:63-83 | A type row: the name and each decoder's cell; every decoder steps; the paddings widen over the row. |
| AnalyseWindows.BuildTable | modterm/components/analyse_window.py:62-83 | The loop over the types gives the full table and its paddings, and leaves the decoders at the table's end pointers. |
| AnalyseWindows.BuildBits | modterm/components/analyse_window.py:85-105 | The header, then passes at widths 8, 4, 2 until one completes, from where the table left the pointers. |
| AnalyseWindows.BitPassOf | modterm/components/analyse_window.py:93-105 | One pass over the decoders without reset stops at the first exception. |
| AnalyseWindows.NewDecoders | modterm/components/analyse_window.py:56-60 | Four decoders over the registers in the column order, each at pointer 0. |
| AnalyseWindows.Analyse | modterm/components/analyse_window.py:26-109 | The table, paddings, bit matrix and dialog size of a register window. |
| AnalyseWindows.AnalyseWindow.constructor | modterm/components/analyse_window.py:25-109 | The window holds what Analyse computes. |
| ScrollableLists.StepDownOnPage | modterm/components/scrollable_list.py:102-106 | step_down keeps the cursor on a row of its page. |
| ScrollableLists.StepUpOnPage | modterm/components/scrollable_list.py:113-121 | step_up keeps the cursor on a row of its page. |
| ScrollableLists.PageUpOnPage | modterm/components/scrollable_list.py:128-132 | page_up keeps the cursor on a row of its page. |
| ScrollableLists.PageDownOnPage | modterm/components/scrollable_list.py:139-143 | page_down keeps the cursor on a row of its page. |
| ScrollableLists.PageUpTarget | modterm/components/scrollable_list.py:128-132 | page_up from page p > 1 lands on the last row of page p - 1; on page 1 it goes to row 1. |
| ScrollableLists.PageDownTarget | modterm/components/scrollable_list.py:139-143 | page_down goes to the first row of the next page when there is one, else to the last row (0 on an empty list). |
| ScrollableLists.StepUpFloor | modterm/components/scrollable_list.py:113-115 | step_up on row 1 of page 1 stays there. |
| ScrollableLists.StepDownAtEnd | modterm/components/scrollable_list.py:102-106 | step_down on the last row does nothing. |
| ScrollableLists.StepUpUndoesStepDown | modterm/components/scrollable_list.py:102-121 | Above the last row, step_up undoes step_down, across page ends too. |
| ScrollableLists.StepDownUndoesStepUp | modterm/components/scrollable_list.py:102-121 | Below the first row, step_down undoes step_up. |
| ScrollableLists.Keymap | modterm/components/scrollable_list.py:37-48 | Exactly the arrows, page keys and h, j, k, l are mapped. |
| ScrollableLists.SelectMove | modterm/components/scrollable_list.py:169-176 | get_selection acts on the arrows and page keys only, with the same moves as the keymap. |
| ScrollableLists.HeaderFit | modterm/components/scrollable_list.py:72-80 | The title row grows only while it stays narrower than the window. |
| ScrollableLists.HeaderPrefix | modterm/components/scrollable_list.py:72-80 | The title row is a prefix of the titles, each followed by one space. |
| ScrollableLists.PageEndsAtHeight | modterm/components/scrollable_list.py:91-92 | The break on i == height can only fire on the last row the range visits. |
| ScrollableLists.PageLines | modterm/components/scrollable_list.py:82-92 | draw writes one line per row of the cursor's page. |
| ScrollableLists.PageLinesShow | modterm/components/scrollable_list.py:82-92 | The page shows rows h*(p-1)+1 to min(h*p, len) in order from screen line 1 (2 under a header), and exactly the cursor's row is highlighted. |
| ScrollableLists.TitleRow | modterm/components/scrollable_list.py:72-80 | The title loop builds HeaderFit of the titles. |
| ScrollableLists.PageRows | modterm/components/scrollable_list.py:82-92 | The row loop, with its break, writes PageLines. |
| ScrollableLists.ScrollableList.constructor | modterm/components/scrollable_list.py:26-36 | The content height is two less than the window's; the cursor is on row 1 of page 1 of an empty list with no header. |
| ScrollableLists.ScrollableList.Draw | modterm/components/scrollable_list.py:50-93 | A new header replaces the old. New rows replace the old and put the cursor on row 1 of page 1. The screen is the render of the new state. |
| ScrollableLists.ScrollableList.StepDown | modterm/components/scrollable_list.py:95-106 | The cursor makes the step_down move; the rows and the header are kept. |
| ScrollableLists.ScrollableList.StepUp | modterm/components/scrollable_list.py:108-121 | The cursor makes the step_up move. |
| ScrollableLists.ScrollableList.PageUp | modterm/components/scrollable_list.py:123-132 | The cursor makes the page_up move. |
| ScrollableLists.ScrollableList.PageDown | modterm/components/scrollable_list.py:134-143 | The cursor makes the page_down move. |
| ScrollableLists.ScrollableList.Apply | modterm/components/scrollable_list.py:37-48 | A keymap move leaves the rows and header alone and moves the cursor as MoveOf says. |
| ScrollableLists.ScrollableList.CurrentRowData | modterm/components/scrollable_list.py:145-149 | The row under the cursor; None for an IndexError and on an empty list; row 0 reads the last row. |
| ScrollableLists.ScrollableList.CheckNavigate | modterm/components/scrollable_list.py:151-155 | A mapped key makes its move; any other key does nothing. |
| ScrollableLists.SelectStep | modterm/components/scrollable_list.py:168-180 | One key other than ESC moves the cursor; Enter then chooses the row under it. |
| ScrollableLists.SelectionIsOption | modterm/components/scrollable_list.py:165-181 | A chosen row is one of the options whenever the cursor starts on a row of its page. |
| ScrollableLists.SelectedIsOption | modterm/components/scrollable_list.py:165-181 | From a fresh window on a non-empty list, every Enter picks an option. |
| ScrollableLists.SelectionExamples | modterm/components/scrollable_list.py:165-181 | ESC first cancels; Enter first takes the first option; Enter on an empty list gives None. |
| ScrollableLists.SelectWindow.constructor | modterm/components/scrollable_list.py:159-163 | The window's list is fresh and its options are the given strings. |
| ScrollableLists.SelectWindow.GetSelection | modterm/components/scrollable_list.py:165-181 | get_selection gives the Selected outcome of the keys. |
| MenuBases.MaxOf | modterm/components/menu_base.py:44-48 | max(keys) is a key and no key exceeds it. |
| MenuBases.MinOf | modterm/components/menu_base.py:53-54 | min(keys) is a key and no key is below it. |
| MenuBases.RowsBounds | modterm/components/menu_base.py:44-56 | Rows lo..hi-1 have minimum lo and maximum hi-1, and contain exactly the numbers between. |
| MenuBases.DialogHeight | modterm/components/menu_base.py:79 | The dialog is 30 rows, or two less than a screen of at most 32. |
| MenuBases.DialogWidth | modterm/components/menu_base.py:78 | The dialog is 100 columns, or two less than a screen of at most 102. |
| MenuBases.Keymap | modterm/components/menu_base.py:50-65 | Up and Down move by one; Home and PgUp go to the first row; End and PgDn go to the action row. F2 to F9 jump to their row and execute it, and F1 shows the help. No other key is mapped. |
| MenuBases.StatusLines | modterm/components/menu_base.py:134-139 | Status lines go on consecutive rows, with continuation lines indented by four. |
| MenuBases.MenuBase.constructor | modterm/components/menu_base.py:44-48 | The cursor starts on the action row and the status index two rows below it. |
| MenuBases.MenuBase.JumpTo | modterm/components/menu_base.py:86-102 | An offset moves only onto a label row. A position must be a label and not the executed action row; executing it invokes its setter. The cursor stays on a label. |
| MenuBases.MenuBase.Press | modterm/components/menu_base.py:146-147 | A mapped key does what the keymap says, and an invoked setter is never the action row's. |
| MenuBases.MenuBase.AddStatusText | modterm/components/menu_base.py:124-140 | An empty text takes one line. Lines that would pass the border clear the area and restart at the first status row. The index advances by the line count and stays within the dialog. |
| HeaderMenus.ValidateIp | modterm/components/header_menu.py:33-43 | validate_ip holds exactly for four dot-separated fields of digits whose value is at most 255. |
| HeaderMenus.DecDecimal | modterm/components/header_menu.py:38-40 | str(n) is a digit string that int() reads back as n. |
| HeaderMenus.DottedQuadValid | modterm/components/header_menu.py:33-43 | Every dotted quad of numbers 0 to 255 is accepted. |
| HeaderMenus.ValidIpShape | modterm/components/header_menu.py:34-43 | An accepted address is four octets joined by dots. |
| HeaderMenus.LeadingZerosValid | modterm/components/header_menu.py:38-42 | Leading zeros are accepted. |
| HeaderMenus.InvalidIps | modterm/components/header_menu.py:35-42 | A field over 255, three or five fields, or an empty field are refused. |
| HeaderMenus.TogglesInvolutive | modterm/components/header_menu.py:79-116 | Protocol, word and byte order, byte size and stop bits toggles land in their pair and undo themselves there. |
| HeaderMenus.ParityCycle | modterm/components/header_menu.py:129-135 | Parity cycles N, O, E with period three; any other value joins at N. |
| HeaderMenus.DefaultSettled | modterm/components/header_menu.py:85-104 | The default address and port pass the dialog's checks. |
| HeaderMenus.PromptsKeepValid | modterm/components/header_menu.py:85-104 | A valid address stays valid. An address is stored only if valid. A port is stored only when int() reads 1 to 65534. |
| HeaderMenus.HeaderMenu.constructor | modterm/components/header_menu.py:54 | The configuration is the loaded one. |
| HeaderMenus.HeaderMenu.SwitchProtocol | modterm/components/header_menu.py:79-83 | RTU becomes TCP, anything else RTU. |
| HeaderMenus.HeaderMenu.GetIpAddress | modterm/components/header_menu.py:85-92 | The address is replaced only by a valid one. |
| HeaderMenus.HeaderMenu.GetTcpPort | modterm/components/header_menu.py:94-104 | The port is replaced only by an int() of 1 to 65534. |
| HeaderMenus.HeaderMenu.SwapWordorder | modterm/components/header_menu.py:106-110 | Big endian becomes little, anything else big. |
| HeaderMenus.HeaderMenu.SwapByteorder | modterm/components/header_menu.py:112-116 | Big endian becomes little, anything else big. |
| HeaderMenus.HeaderMenu.GetInterface | modterm/components/header_menu.py:118-122 | A selection becomes the interface. |
| HeaderMenus.HeaderMenu.GetBaudRate | modterm/components/header_menu.py:124-127 | A selection becomes the baud rate. |
| HeaderMenus.HeaderMenu.SwapParity | modterm/components/header_menu.py:129-135 | Parity takes its next value in the cycle. |
| HeaderMenus.HeaderMenu.SwapBytesize | modterm/components/header_menu.py:137-141 | 7 becomes 8, anything else 7. |
| HeaderMenus.HeaderMenu.SwapStopbits | modterm/components/header_menu.py:143-147 | 0 becomes 1, anything else 0. |
| HeaderMenus.HeaderMenu.CheckNavigate | modterm/components/header_menu.py:149-177 | F2 switches the protocol, F8 and F9 swap the orders and answer True. Over TCP F3 and F4 edit the address and port; over RTU F3 to F7 edit the serial settings. Other keys change nothing, and a settled configuration stays settled. |
| ReadRegistersMenus.DefaultAccepted | modterm/components/definitions.py:76-82 | The ReadConfig defaults lie in every accepted range. |
| ReadRegistersMenus.SettersKeepAccepted | modterm/components/read_registers_menu.py:108-166 | Each setter stores exactly an int() of its range: start 0..65534, count 1..9999, unit 1..255, block 1..125. It refuses anything else and keeps the settings accepted. |
| ReadRegistersMenus.StepKeepsRange | modterm/components/read_registers_menu.py:172-207 | A key keeps the cursor on rows 2 to 7 and the settings accepted. |
| ReadRegistersMenus.EditStartsAccepted | modterm/components/read_registers_menu.py:168-211 | Reading only starts with accepted settings. |
| ReadRegistersMenus.EditExamples | modterm/components/read_registers_menu.py:171-173 | On the action row Enter starts at once; ESC cancels. |
| ReadRegistersMenus.ReadRegistersMenu.constructor | modterm/components/read_registers_menu.py:40-57 | The cursor starts on the action row and the status index at row 9; the last status row is the dialog height minus 2. |
| ReadRegistersMenus.ReadRegistersMenu.AddStatusText | modterm/components/read_registers_menu.py:90-97 | Writes at the status index, starting over at the first status row once the last row was reached, and stays in the area. |
| ReadRegistersMenus.ReadRegistersMenu.SwitchCommand | modterm/components/read_registers_menu.py:99-106 | A selection becomes the command. |
| ReadRegistersMenus.ReadRegistersMenu.GetStartRegister | modterm/components/read_registers_menu.py:108-121 | The start register takes an int() of 0..65534, else stays. |
| ReadRegistersMenus.ReadRegistersMenu.GetNumberOfRegisters | modterm/components/read_registers_menu.py:123-136 | The count takes an int() of 1..9999, else stays. |
| ReadRegistersMenus.ReadRegistersMenu.GetUnitId | modterm/components/read_registers_menu.py:138-151 | The unit takes an int() of 1..255, else stays. |
| ReadRegistersMenus.ReadRegistersMenu.GetBlockSize | modterm/components/read_registers_menu.py:153-166 | The block size takes an int() of 1..125, else stays. |
| ReadRegistersMenus.ReadRegistersMenu.RunRow | modterm/components/read_registers_menu.py:67-72 | position_commands: each row runs its setter. |
| ReadRegistersMenus.ReadRegistersMenu.Handle | modterm/components/read_registers_menu.py:174-208 | One key of the loop is the Step of the configuration and cursor. |
| ReadRegistersMenus.ReadRegistersMenu.ReadRegisters | modterm/components/read_registers_menu.py:168-212 | The key loop's outcome is Edit of the events; a start hands over the edited settings. |
| UnitSweepMenus.SwitchedCommandAlternates | modterm/components/unit_sweep_menu.py:66-72 | The command toggle alternates between holding and input registers. |
| UnitSweepMenus.DefaultAccepted | modterm/components/definitions.py:122-129 | The UnitSweepConfig defaults are accepted. |
| UnitSweepMenus.SettersKeepAccepted | modterm/components/unit_sweep_menu.py:74-146 | Each setter keeps the register window, the ordered unit range and the timeout of at most 60 accepted. |
| UnitSweepMenus.UnitSettersExact | modterm/components/unit_sweep_menu.py:98-130 | The unit setters accept only IDs 1..255 on the right side of the other end of the range, and change nothing else. |
| UnitSweepMenus.EditStartsAccepted | modterm/components/unit_sweep_menu.py:148-168 | A sweep only starts over an accepted range with the start below the last unit. |
| UnitSweepMenus.UnitSweepMenu.constructor | modterm/components/unit_sweep_menu.py:30-44 | The status index starts at row 11; the last status row is the dialog height minus 2. |
| UnitSweepMenus.UnitSweepMenu.AddStatusText | modterm/components/unit_sweep_menu.py:57-64 | Writes at the status index, starting over at row 11 once the last row was reached. |
| UnitSweepMenus.UnitSweepMenu.SwitchCommand | modterm/components/unit_sweep_menu.py:66-72 | Holding becomes input, anything else holding. |
| UnitSweepMenus.UnitSweepMenu.GetStartRegister | modterm/components/unit_sweep_menu.py:74-84 | The start register takes an int() of 0..65534, else stays. |
| UnitSweepMenus.UnitSweepMenu.GetNumberOfRegisters | modterm/components/unit_sweep_menu.py:86-96 | The count takes an int() of 1..9999, else stays. |
| UnitSweepMenus.UnitSweepMenu.GetStartUnitId | modterm/components/unit_sweep_menu.py:98-113 | The start unit takes 1..255 below the last unit, else stays. |
| UnitSweepMenus.UnitSweepMenu.GetLastUnitId | modterm/components/unit_sweep_menu.py:115-130 | The last unit takes 1..255 above the start unit, else stays. |
| UnitSweepMenus.UnitSweepMenu.GetTimeout | modterm/components/unit_sweep_menu.py:132-146 | The timeout takes float() of the text unless it is over 60. |
| UnitSweepMenus.UnitSweepMenu.SweepUnits | modterm/components/unit_sweep_menu.py:148-167 | The key loop's outcome is Edit of the events; a start hands over the edited settings. |
| WriteRegistersMenus.LabelBounds | modterm/components/write_registers_menu.py:34-40 | The labels are rows 2 to 8; the Write row is 8. |
| WriteRegistersMenus.RegisterOf | modterm/components/write_registers_menu.py:90-98 | get_register stores a number of 0..65535 or None, and None exactly when the entry is not such a number. |
| WriteRegistersMenus.TypedValue | modterm/components/write_registers_menu.py:135-139 | get_value reads an int unless the format contains FLOAT, then a float. |
| WriteRegistersMenus.FormatsAreIntegers | modterm/components/write_registers_menu.py:135-138 | No selectable format, nor BIT, contains FLOAT, so values are always read as ints. |
| WriteRegistersMenus.WriteRegistersMenu.constructor | modterm/components/write_registers_menu.py:56-69 | A given register is filled in. From a coil table the command is the coil write with BIT locked; from a holding table it is the holding write. |
| WriteRegistersMenus.WriteRegistersMenu.SwitchCommand | modterm/components/write_registers_menu.py:77-82 | A selection becomes the command, and the format is locked exactly for the coil write. |
| WriteRegistersMenus.WriteRegistersMenu.GetRegister | modterm/components/write_registers_menu.py:84-98 | The address becomes RegisterOf the entry, valid or None. |
| WriteRegistersMenus.WriteRegistersMenu.GetUnitId | modterm/components/write_registers_menu.py:100-114 | The raw text is stored as the unit whether valid or not. A number int() cannot read raises first. |
| WriteRegistersMenus.WriteRegistersMenu.GetFormat | modterm/components/write_registers_menu.py:116-121 | A selection becomes the format unless it is locked. |
| WriteRegistersMenus.WriteRegistersMenu.SwapMulticast | modterm/components/write_registers_menu.py:123-127 | Multicast is negated. |
| WriteRegistersMenus.WriteRegistersMenu.GetValue | modterm/components/write_registers_menu.py:129-144 | A value that parses for the format replaces the stored one; otherwise nothing changes. |
| IpSweepMenus.LabelBounds | modterm/components/ip_sweep_menu.py:35-44 | The labels are rows 2 to 11; the start row is 11. |
| IpSweepMenus.SubnetIsThreeOctets | modterm/components/ip_sweep_menu.py:137 | A subnet is accepted exactly when it is three dot-separated octets. |
| IpSweepMenus.IntegerSettersExact | modterm/components/ip_sweep_menu.py:85-159 | The start register, count and port take numbers 0..65534; the unit takes 0..255 and goes into unit, not unit_id. Nothing else changes. |
| IpSweepMenus.SettersKeepOrdered | modterm/components/ip_sweep_menu.py:161-203 | Every setter keeps the host range start < end within 1..255 and a valid subnet valid. |
| IpSweepMenus.IpSweepMenu.constructor | modterm/components/ip_sweep_menu.py:67 | The configuration is the loaded one. |
| IpSweepMenus.IpSweepMenu.SwitchCommand | modterm/components/ip_sweep_menu.py:70-77 | A selection becomes the command. |
| IpSweepMenus.IpSweepMenu.GetStartRegister | modterm/components/ip_sweep_menu.py:79-94 | The start register takes a number of 0..65534, else stays. |
| IpSweepMenus.IpSweepMenu.GetNumberOfRegisters | modterm/components/ip_sweep_menu.py:96-111 | The count takes a number of 0..65534, else stays. |
| IpSweepMenus.IpSweepMenu.GetUnitId | modterm/components/ip_sweep_menu.py:113-128 | The unit takes a number of 0..255, else stays. |
| IpSweepMenus.IpSweepMenu.GetSubnet | modterm/components/ip_sweep_menu.py:130-142 | The subnet is replaced only when it plus ".0" is a valid address. |
| IpSweepMenus.IpSweepMenu.GetPort | modterm/components/ip_sweep_menu.py:144-159 | The port takes a number of 0..65534, else stays. |
| IpSweepMenus.IpSweepMenu.GetStartAddress | modterm/components/ip_sweep_menu.py:161-181 | The start address takes 1..255 below the end address, else stays. |
| IpSweepMenus.IpSweepMenu.GetEndAddress | modterm/components/ip_sweep_menu.py:183-203 | The end address takes 1..255 above the start address, else stays. |
| IpSweepMenus.IpSweepMenu.GetTimeout | modterm/components/ip_sweep_menu.py:205-222 | The timeout takes a float of at most 60, else stays. |
| PopupMessages.TextWidth | modterm/components/popup_message.py:6 | The text width is four less than the smaller of the popup and the screen width. |
| PopupMessages.ShowPopupMessage | modterm/components/popup_message.py:5-20 | The packing loop yields the wrapped rows, and the popup is four rows higher than their count. |
| PopupMessages.WrapEmpty | modterm/components/popup_message.py:7-18 | No rows come out only for an empty row under construction and no words. |
| PopupMessages.WrapJoin | modterm/components/popup_message.py:8-18 | Unless the message ends with a space, joining the rows with spaces gives the message back. |
| PopupMessages.EmptyMessage | modterm/components/popup_message.py:17-18 | An empty message makes no rows. |
| PopupMessages.RowsFit | modterm/components/popup_message.py:10-16 | A row of several words is narrower than the text width; a one-word row is a word of the message. |
| PopupMessages.RowsGreedy | modterm/components/popup_message.py:10-16 | Packing is greedy: the first word of each row would not have fitted on the row before. |
| PopupMessages.WrapGreedy | modterm/components/popup_message.py:10-16 | From any row under construction, each row's successor's first word does not fit after it. |
| PopupMessages.JoinWrap | modterm/components/popup_message.py:8-18 | From any row under construction, the rows joined by spaces give that row and the remaining words. |
| ExportMenus.StripAll | modterm/components/export_menu.py:108 | Every cell is stripped, in order. |
| ExportMenus.PathEndsWithName | modterm/components/export_menu.py:104-105 | os.path.join: a separator-free file name is the last component of the path. |
| ExportMenus.FileTypeSpellings | modterm/components/export_menu.py:105-115 | The "CSV" selection is named .csv but written space-separated; only the default ".csv" type writes commas, in a file named "..csv". |
| ExportMenus.CsvLineRoundTrip | modterm/components/export_menu.py:108-113 | A comma-separated line splits back into the stripped cells when no cell holds a comma. |
| ExportMenus.TextLineRoundTrip | modterm/components/export_menu.py:110-115 | A space-separated line splits back into the cells when no cell holds a space. |
| ExportMenus.LinesKeepOut | modterm/components/export_menu.py:107-115 | No line of the file holds a line break when no cell does. |
| ExportMenus.LineKeepsOut | modterm/components/export_menu.py:108-115 | A serialised line holds a character other than the separators only if a cell does. |
| ExportMenus.RowCells | modterm/components/export_menu.py:111-115 | join walks the cells of a list row and the characters of a row that is a plain string. |
| ExportMenus.JoinChars | modterm/components/export_menu.py:115 | Joining the characters of a text puts the separator between every two of them. |
| ExportMenus.LineRowSpread | modterm/components/export_menu.py:115 | A plain-string row, such as a unit sweep's exception entry, is written in a text export with a space after every character but the last. |
| ExportMenus.LineRowCsv | modterm/components/export_menu.py:113 | In a ".csv" export such a row has one field per character, and a white-space character gives an empty field. |
| ExportMenus.StripChar | modterm/components/export_menu.py:113 | A one-character cell strips to nothing exactly when the character is white space. |
| ExportMenus.FileReadsBack | modterm/components/export_menu.py:106-115 | Splitting the file at the separator gives the header line, then one line per row, then an empty tail. |
| ExportMenus.FileLinesAppend | modterm/components/export_menu.py:111-115 | One more row adds its line at the end of the file. |
| ExportMenus.ExportMenu.constructor | modterm/components/export_menu.py:43-50 | A missing directory becomes the project directory and a missing name the Unix time in decimal. |
| ExportMenus.ExportMenu.ShownFileName | modterm/components/export_menu.py:55 | The file name row shows name.type in lower case, the last component of the path that will be written. |
| ExportMenus.ExportMenu.SetFileType | modterm/components/export_menu.py:77-84 | A selection becomes the file type. |
| ExportMenus.ExportMenu.SetDirectory | modterm/components/export_menu.py:86-94 | An existing directory is kept; otherwise a warning and no change. |
| ExportMenus.ExportMenu.SetFileName | modterm/components/export_menu.py:96-99 | Whatever was typed becomes the name, even an empty one. |
| ExportMenus.ExportMenu.Action | modterm/components/export_menu.py:101-119 | Fails exactly when the path cannot be formed, the file cannot be written or the table has no header. Without a path or a writable file nothing is written. Without a header the file is left empty. Otherwise the file holds the header line and each row's line, each followed by the separator, and success is reported. |
| PyFormat.RightAlign | modterm/components/modbus_handler.py:63 | ">" alignment: width max(w, len), the text at the right end, spaces before it. |
| PyFormat.ZeroPad | modterm/components/analyse_window.py:50-54 | "0" padding: zeros before the text up to the width. |
| PyFormat.DigitsRoundTrip | modterm/components/modbus_handler.py:127 | str() and hex digits read back as the number. |
| PyFormat.PaddedDigitsExact | modterm/components/analyse_window.py:50-54 | A value below base^k printed with k zero-padded digits has exactly k digits that read back as the value. |
| PyFormat.ZeroPadValue | modterm/components/analyse_window.py:50-54 | Leading zeros do not change the value a digit string reads as. |
| PyFormat.UngroupGrouped | modterm/components/analyse_window.py:70-73 | Removing the inserted spaces gives the digits back. |
| PyFormat.GroupedBlocks | modterm/components/analyse_window.py:70-73 | Digit k of the grouped string sits at k + k/4, after one space per full group. |
| PyFormat.SplitJoin | modterm/components/header_menu.py:34 | Joining the fields of split(c) with c gives the text back. |
| PyFormat.JoinSplit | modterm/components/export_menu.py:108 | Splitting a join of separator-free parts gives the parts back. |
| PyFormat.StripLeft | modterm/components/export_menu.py:108 | The left strip removes exactly the leading characters that str.isspace() accepts, the Unicode white space included. |
| PyFormat.StripRight | modterm/components/export_menu.py:108 | The right strip removes exactly the trailing characters that str.isspace() accepts. |
| PyFormat.Lower | modterm/components/export_menu.py:105 | lower() maps the ASCII capitals A-Z to a-z and keeps every other ASCII character. |
| PyFormat.PyIndex | modterm/components/scrollable_list.py:147 | Python indexing: None exactly outside -len..len-1, the element for a non-negative index. |

## Left out

- Floating point: the F32 column, the Float32 and Float64 analysis rows, float values of a write and float timeouts. Their texts come from a function parameter (`f32`, `floatText`) that the model does not define. The float decode's bounds, pointer moves and exceptions are modelled; only the text is not.
- Drawing with curses: windows, borders, colours, refresh and resize. The model keeps only what is written where (page lines, status lines, title row).
- The pymodbus clients, connections and transport. A read is an oracle answering each request in order, a write's answer is a parameter, and `get_client` success is a boolean.
- Payload: BinaryPayloadDecoder and BinaryPayloadBuilder are not part of this model's source. Their semantics are assumed from section 4.2 of the Modbus Application Protocol Specification V1.1b3 (big-endian 16-bit registers), with word and byte order applied as pymodbus does.
- `textwrap.wrap` in add_status_text: the wrapped lines are an input of MenuBases.MenuBase.AddStatusText.
- `get_text_input` editing and CancelInput: a prompt's result is an Entry holding the stripped text and the results of int(), text_input_to_int and float() or text_input_to_float. Cancelled prompts, the "clear" variants and Unicode `isdigit` are not modelled.
- MenuBase.get_result beyond its keymap dispatch: Enter on the action row, retry after failure, backspace clearing and resize.
- The timeouts passed to clients, `curses.napms`, `nodelay` and the popup's three-second pause.
- `config_handler` persistence: load and save are represented by their dict contents (Definitions.FromDict and the asdict records); the file system is not modelled.
- IpSweepMenus.IpSweepConfig: definitions.py has no IpSweepConfig and config_handler has no load_ip_sweep_config. The record holds the attributes the menu reads and writes. `ModbusHandler.ip_sweep`, which `action` calls at ip_sweep_menu.py:226, does not exist and is not modelled.
- WriteRegistersMenus.HoldingWrite and CoilWrite stand for HOLDING_WRITE and COIL_WRITE. The menu imports them but definitions.py does not define them.
- The keyword arguments the menus pass to WindowBase, and WindowBase's is_valid check, are not modelled.
- The Waiting outcome of ReadRegistersMenus.Edit and UnitSweepMenus.Edit stands for a key loop that has not reached ESC or its start key when the events run out.
- ExportMenus.ExportMenu.Action: the configuration is saved first, and config_handler is not part of this model. os.path.join is modelled for POSIX paths. Whether the file can be opened is a parameter (`writable`), as are repr(e) of the error and os.linesep. A partial write before an exception is not modelled.
- PyFormat.Lower: only ASCII capitals are lowered. Python also lowers the other Unicode capitals, such as 'É'. This matters only for a file type outside ASCII, which the selector never offers.
- ExportMenus.ExportMenu.SetDirectory: os.path.isdir is a parameter.
- ModbusHandler.GetRegisterBlocks: requires block_size >= 1. With block_size 0 and more than zero registers the source's `while True` loop never ends. The dialog never stores 0.
- ModbusHandler.Handler.GetDataRows: requires block_size >= 1, for the same reason.
- ScrollableLists.ScrollableList.StepDown: requires a content height other than 0. The source divides by it (ZeroDivisionError) for a list window of height 2, or 3 with a header. The same requirement applies to PageDown, Apply and CheckNavigate.
- ModbusHandler.ReadBlocks: the branch `if regs is None` at modbus_handler.py:240-242 cannot be taken, because read_registers always returns a list. The model has no such branch.
- ModbusHandler.UnitSweep: with no client the source raises AttributeError on `client.read_holding_registers`; the model returns None.

## Where the code and its description differ

The model follows the code in each of these cases.

- AnalyseWindow: a failed decode does not reset its decoder, so the pointer stays past the end of the payload. Every later row of that decoder, and every bit matrix pass, then fails too. AnalyseWindows.ShortPayloadValues and AnalyseWindows.BitsOfShortPayload state the consequence: with fewer than four registers the bit matrix is only its header.
- ScrollableList: the content height is the window height minus 2, and one less again under a header. `page_up` goes to the last row of the previous page, not its first.
- Export: commas are written only when the file type is exactly ".csv", the dataclass default, which names the file "name..csv". The "CSV" choice of the type selector writes space-separated text into "name.csv" (ExportMenus.FileTypeSpellings).
- Export: a table row that is a plain string, such as the two entries a unit sweep adds for a request that raised, is joined character by character. A text export then puts a space after every character, and a ".csv" export makes each character a field (ExportMenus.LineRowSpread, ExportMenus.LineRowCsv).
- get_register_blocks: an acquisition interrupted by ESC returns None. process_words then fails on None, and process_result catches the exception, so no table is produced (ModbusHandler.Handler.ProcessResult).
- The write dialog's get_unit_id stores the raw text as the unit even when the check fails.
- The IP sweep dialog's get_unit_id stores into `unit` while the dialog shows `unit_id`.
