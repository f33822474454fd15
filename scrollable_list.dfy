/** The paginated list view and the selection window built on it. The cursor is
    a global row number `position` (1-based) and a `page` (1-based); a page
    holds `h` rows, where h is the window height minus 2, minus one more while
    a header is shown. */
module ScrollableLists {
  import opened PyFormat
  import opened Keys
  import opened Definitions

  // ---------------------------------------------------------------------------
  // The cursor and its moves, as functions of the cursor, h and the row count
  // ---------------------------------------------------------------------------

  datatype Cursor = Cursor(position: int, page: int)

  /** `int(ceil(a / b))` for a row count a and a non-zero page height b. */
  function PyCeilDiv(a: nat, b: int): int
    requires b != 0
  {
    if b > 0 then (a + b - 1) / b else -(a / -b)
  }

  /** The rows of page p >= 1 are 1 + h*(p-1) .. min(h*p, len); the cursor is on one of them. */
  predicate OnPage(c: Cursor, h: int, len: nat)
  {
    c.page >= 1 && 1 + h * (c.page - 1) <= c.position <= Min(h * c.page, len)
  }

  function StepDownOf(c: Cursor, h: int, len: nat): Cursor
    requires h != 0
  {
    if c.position < Min(h + h * (c.page - 1), len) then Cursor(c.position + 1, c.page)
    else if c.page < PyCeilDiv(len, h) then Cursor(1 + h * c.page, c.page + 1)
    else c
  }

  function StepUpOf(c: Cursor, h: int): Cursor
  {
    if c.page == 1 then
      if c.position > 1 then Cursor(c.position - 1, 1) else c
    else if c.position > 1 + h * (c.page - 1) then Cursor(c.position - 1, c.page)
    else Cursor(h + h * (c.page - 2), c.page - 1)
  }

  function PageUpOf(c: Cursor, h: int): Cursor
  {
    if c.page > 1 then Cursor(1 + (h * (c.page - 1) - 1), c.page - 1)
    else Cursor(1, c.page)
  }

  function PageDownOf(c: Cursor, h: int, len: nat): Cursor
    requires h != 0
  {
    if c.page < PyCeilDiv(len, h) then Cursor(1 + h * c.page, c.page + 1)
    else Cursor(len, c.page)
  }

  // ---------------------------------------------------------------------------
  // Arithmetic the cursor proofs share
  // ---------------------------------------------------------------------------

  lemma Distrib(h: int, p: int)
    ensures h * (p + 1) == h * p + h
    ensures h * (p - 1) == h * p - h
  {
  }

  lemma MulMonotone(h: nat, p: int, q: int)
    requires p <= q
    ensures h * p <= h * q
  {
    assert h * q - h * p == h * (q - p);
  }

  /** For x >= 0 and h >= 1: x / h >= m exactly when x >= h * m. */
  lemma DivAtLeast(x: nat, h: int, m: int)
    requires h >= 1
    ensures x / h >= m <==> x >= h * m
  {
    var q := x / h;
    assert x == h * q + x % h;
    if q >= m {
      MulMonotone(h, m, q);
    } else {
      MulMonotone(h, q + 1, m);
      Distrib(h, q);
    }
  }

  /** A page after p exists exactly when its first row does. */
  lemma NextPageExists(len: nat, h: int, p: int)
    requires h >= 1
    ensures p < PyCeilDiv(len, h) <==> h * p < len
  {
    DivAtLeast(len + h - 1, h, p + 1);
    Distrib(h, p);
  }

  // ---------------------------------------------------------------------------
  // What the moves promise
  // ---------------------------------------------------------------------------

  /** Every move keeps the cursor on a row of its page. */
  lemma {:induction false} StepDownOnPage(c: Cursor, h: int, len: nat)
    requires h >= 1 && OnPage(c, h, len)
    ensures OnPage(StepDownOf(c, h, len), h, len)
  {
    Distrib(h, c.page - 1);
    Distrib(h, c.page);
    NextPageExists(len, h, c.page);
  }

  lemma {:induction false} StepUpOnPage(c: Cursor, h: int, len: nat)
    requires h >= 1 && OnPage(c, h, len)
    ensures OnPage(StepUpOf(c, h), h, len)
  {
    Distrib(h, c.page - 1);
    Distrib(h, c.page - 2);
    if c.page != 1 && c.position <= 1 + h * (c.page - 1) {
      MulMonotone(h, c.page - 1, c.page);
    }
  }

  lemma {:induction false} PageUpOnPage(c: Cursor, h: int, len: nat)
    requires h >= 1 && OnPage(c, h, len)
    ensures OnPage(PageUpOf(c, h), h, len)
  {
    Distrib(h, c.page - 1);
    Distrib(h, c.page - 2);
    if c.page <= 1 {
      MulMonotone(h, 0, c.page - 1);
    } else {
      MulMonotone(h, 1, c.page - 1);
    }
  }

  lemma {:induction false} PageDownOnPage(c: Cursor, h: int, len: nat)
    requires h >= 1 && OnPage(c, h, len)
    ensures OnPage(PageDownOf(c, h, len), h, len)
  {
    Distrib(h, c.page - 1);
    Distrib(h, c.page);
    NextPageExists(len, h, c.page);
    NextPageExists(len, h, c.page - 1);
  }

  /** page_up from page p > 1 lands on the LAST row of page p-1; from page 1 on row 1. */
  lemma PageUpTarget(c: Cursor, h: int)
    ensures c.page > 1 ==> PageUpOf(c, h) == Cursor(h * (c.page - 1), c.page - 1)
    ensures c.page <= 1 ==> PageUpOf(c, h) == Cursor(1, c.page)
  {
  }

  /** page_down on the last page goes to the last row; on an empty list that is row 0. */
  lemma {:induction false} PageDownTarget(c: Cursor, h: int, len: nat)
    requires h >= 1 && c.page >= 1
    ensures h * c.page < len ==> PageDownOf(c, h, len) == Cursor(1 + h * c.page, c.page + 1)
    ensures h * c.page >= len ==> PageDownOf(c, h, len) == Cursor(len, c.page)
    ensures len == 0 ==> PageDownOf(c, h, len).position == 0
  {
    NextPageExists(len, h, c.page);
    MulMonotone(h, 0, c.page);
  }

  /** step_up is floored at row 1 of page 1. */
  lemma StepUpFloor(h: int)
    ensures StepUpOf(Cursor(1, 1), h) == Cursor(1, 1)
  {
  }

  /** step_down does nothing on the last row of the list. */
  lemma {:induction false} StepDownAtEnd(c: Cursor, h: int, len: nat)
    requires h >= 1 && OnPage(c, h, len) && c.position == len
    ensures StepDownOf(c, h, len) == c
  {
    NextPageExists(len, h, c.page);
    Distrib(h, c.page - 1);
  }

  /** Above the last row, step_up undoes step_down: within a page and across a page end. */
  lemma {:induction false} StepUpUndoesStepDown(c: Cursor, h: int, len: nat)
    requires h >= 1 && OnPage(c, h, len) && c.position < len
    ensures StepUpOf(StepDownOf(c, h, len), h) == c
  {
    Distrib(h, c.page - 1);
    Distrib(h, c.page);
    NextPageExists(len, h, c.page);
    MulMonotone(h, 0, c.page - 1);
  }

  /** Below the first row, step_down undoes step_up. */
  lemma {:induction false} StepDownUndoesStepUp(c: Cursor, h: int, len: nat)
    requires h >= 1 && OnPage(c, h, len) && c.position > 1
    ensures StepDownOf(StepUpOf(c, h), h, len) == c
  {
    Distrib(h, c.page - 1);
    Distrib(h, c.page - 2);
    NextPageExists(len, h, c.page - 1);
    if c.page != 1 && c.position <= 1 + h * (c.page - 1) {
      MulMonotone(h, 1, c.page - 1);
      assert c.page >= 2;
    }
  }

  // ---------------------------------------------------------------------------
  // Keys
  // ---------------------------------------------------------------------------

  datatype Move = StepDown | StepUp | PageUp | PageDown

  function MoveOf(m: Move, c: Cursor, h: int, len: nat): Cursor
    requires h != 0
  {
    match m
    case StepDown => StepDownOf(c, h, len)
    case StepUp => StepUpOf(c, h)
    case PageUp => PageUpOf(c, h)
    case PageDown => PageDownOf(c, h, len)
  }

  lemma {:induction false} MoveOnPage(m: Move, c: Cursor, h: int, len: nat)
    requires h >= 1 && OnPage(c, h, len)
    ensures OnPage(MoveOf(m, c, h, len), h, len)
  {
    match m
    case StepDown => StepDownOnPage(c, h, len);
    case StepUp => StepUpOnPage(c, h, len);
    case PageUp => PageUpOnPage(c, h, len);
    case PageDown => PageDownOnPage(c, h, len);
  }

  /** The list's keymap: arrows, page keys and the letters h, j, k, l (104, 106,
      107, 108); j steps UP and k steps DOWN. */
  function Keymap(key: Key): (m: Option<Move>)
    ensures m.Some? <==> key in {KeyDown, KeyUp, KeyLeft, KeyRight, KeyPPage, KeyNPage, 104, 106, 107, 108}
  {
    if key == KeyDown || key == 107 then Some(StepDown)
    else if key == KeyUp || key == 106 then Some(StepUp)
    else if key == KeyLeft || key == KeyPPage || key == 104 then Some(PageUp)
    else if key == KeyRight || key == KeyNPage || key == 108 then Some(PageDown)
    else None
  }

  /** The keys the selection window's loop acts on (without the letters). */
  function SelectMove(key: Key): (m: Option<Move>)
    ensures m.Some? <==> key in {KeyDown, KeyUp, KeyLeft, KeyRight, KeyPPage, KeyNPage}
    ensures m.Some? ==> Keymap(key) == m
  {
    if key == KeyDown then Some(StepDown)
    else if key == KeyUp then Some(StepUp)
    else if key == KeyLeft || key == KeyPPage then Some(PageUp)
    else if key == KeyRight || key == KeyNPage then Some(PageDown)
    else None
  }

  // ---------------------------------------------------------------------------
  // Drawing: what a page shows
  // ---------------------------------------------------------------------------

  /** A row as written into the window: list rows joined by spaces, other rows as str(). */
  function RowText(item: RowItem): string
  {
    match item
    case Cells(cells) => Join(cells, " ")
    case Line(text) => text
  }

  /** Title row: titles followed by a space, as long as each still fits (len + title < width - 2). */
  function HeaderFit(titles: seq<string>, width: int, acc: string): (s: string)
    ensures s == acc || |s| < width - 1
    decreases |titles|
  {
    if titles == [] then acc
    else if |acc| + |titles[0]| < width - 2 then HeaderFit(titles[1..], width, acc + titles[0] + " ")
    else acc
  }

  /** The title row is whole titles in order, each followed by one space. */
  lemma {:induction false} HeaderPrefix(titles: seq<string>, width: int, acc: string)
    ensures exists m :: 0 <= m <= |titles| && HeaderFit(titles, width, acc) == acc + Spaced(titles[..m])
    decreases |titles|
  {
    if titles != [] && |acc| + |titles[0]| < width - 2 {
      var acc' := acc + titles[0] + " ";
      HeaderPrefix(titles[1..], width, acc');
      var m :| 0 <= m <= |titles[1..]| && HeaderFit(titles[1..], width, acc') == acc' + Spaced(titles[1..][..m]);
      assert titles[..m + 1] == [titles[0]] + titles[1..][..m];
      SpacedCons(titles[0], titles[1..][..m]);
      assert HeaderFit(titles, width, acc) == acc + Spaced(titles[..m + 1]);
    } else {
      assert HeaderFit(titles, width, acc) == acc + Spaced(titles[..0]);
    }
  }

  function Spaced(titles: seq<string>): string
  {
    if titles == [] then "" else titles[0] + " " + Spaced(titles[1..])
  }

  lemma SpacedCons(t: string, ts: seq<string>)
    ensures Spaced([t] + ts) == t + " " + Spaced(ts)
  {
    assert ([t] + ts)[1..] == ts;
  }

  /** One row written into the window: screen line, text, highlighted or not. */
  datatype ShownRow = ShownRow(y: int, text: string, highlighted: bool)

  /** What draw() leaves in the window. */
  datatype Screen = EmptyList(message: string) | Listing(titleRow: Option<string>, lines: seq<ShownRow>)

  /** First global row of page p. */
  function PageStart(h: int, p: int): int
  {
    1 + h * (p - 1)
  }

  /** One past the last global row range(...) in draw() visits. */
  function PageStop(h: int, p: int, len: nat): int
  {
    Min(h + PageStart(h, p), len + 1)
  }

  lemma {:induction false} PageRowsInRange(h: int, p: int, len: nat, i: int)
    requires p >= 1 && PageStart(h, p) <= i < PageStop(h, p, len)
    ensures 1 <= i <= len
  {
    assert h >= 1;
    MulMonotone(h, 0, p - 1);
  }

  /** The `if i == height: break` in draw() can only fire on the last row of page 1. */
  lemma PageEndsAtHeight(h: int, p: int, len: nat, i: int)
    requires p >= 1 && PageStart(h, p) <= i < PageStop(h, p, len) && i == h
    ensures i + 1 == PageStop(h, p, len)
  {
    if p >= 2 {
      MulMonotone(h, 0, p - 2);
    }
  }

  /** The lines draw() writes for the rows of the cursor's page. */
  function PageLines(rows: seq<RowItem>, c: Cursor, h: int, startRow: int): (lines: seq<ShownRow>)
    requires c.page >= 1
    ensures |lines| == Max(PageStop(h, c.page, |rows|) - PageStart(h, c.page), 0)
  {
    var lo := PageStart(h, c.page);
    seq(Max(PageStop(h, c.page, |rows|) - lo, 0), k requires 0 <= k < Max(PageStop(h, c.page, |rows|) - lo, 0) =>
      PageRowsInRange(h, c.page, |rows|, lo + k);
      ShownRow(lo + k - h * (c.page - 1) + startRow, RowText(rows[lo + k - 1]), lo + k == c.position))
  }

  /** The page shows global rows 1 + h*(p-1) .. min(h*p, len) in order, on screen
      lines 1.. (2.. under a header), and exactly the cursor's row is highlighted. */
  lemma {:induction false} PageLinesShow(rows: seq<RowItem>, c: Cursor, h: int, startRow: int)
    requires h >= 1 && OnPage(c, h, |rows|)
    ensures var first, lines := PageStart(h, c.page) - 1, PageLines(rows, c, h, startRow);
      && first == h * (c.page - 1) && 0 <= first && |lines| == Min(first + h, |rows|) - first
      && (forall k :: 0 <= k < |lines| ==>
            lines[k] == ShownRow(1 + k + startRow, RowText(rows[first + k]), k == c.position - 1 - first))
      && 0 <= c.position - 1 - first < |lines| && lines[c.position - 1 - first].highlighted
  {
    Distrib(h, c.page - 1);
    MulMonotone(h, 0, c.page - 1);
  }

  /** The title loop of draw(). */
  method TitleRow(titles: seq<string>, width: int) returns (s: string)
    ensures s == HeaderFit(titles, width, "")
  {
    s := "";
    var idx := 0;
    while idx < |titles|
      invariant 0 <= idx <= |titles|
      invariant HeaderFit(titles, width, "") == HeaderFit(titles[idx..], width, s)
    {
      var item := titles[idx];
      if |s| + |item| < width - 2 {
        assert titles[idx..][1..] == titles[idx + 1..];
        s := s + item + " ";
      } else {
        break;
      }
      idx := idx + 1;
    }
  }

  /** The row loop of draw(), with its `break` once the row number equals h. */
  method PageRows(rows: seq<RowItem>, c: Cursor, h: int, startRow: int) returns (lines: seq<ShownRow>)
    requires c.page >= 1
    ensures lines == PageLines(rows, c, h, startRow)
  {
    var lo := PageStart(h, c.page);
    var hi := PageStop(h, c.page, |rows|);
    lines := [];
    var i := lo;
    ghost var spec := PageLines(rows, c, h, startRow);
    while i < hi
      invariant lo <= i && (i <= hi || (i == lo && hi < lo))
      invariant lines == spec[..i - lo]
    {
      PageRowsInRange(h, c.page, |rows|, i);
      var text := RowText(rows[i - 1]);
      var line := if i + h * (c.page - 1) == c.position + h * (c.page - 1)
        then ShownRow(i - h * (c.page - 1) + startRow, text, true)
        else ShownRow(i - h * (c.page - 1) + startRow, text, false);
      lines := lines + [line];
      if i == h {
        PageEndsAtHeight(h, c.page, |rows|, i);
        i := i + 1;
        break;
      }
      i := i + 1;
    }
    assert lines == spec;
  }

  // ---------------------------------------------------------------------------
  // The list
  // ---------------------------------------------------------------------------

  class ScrollableList {
    /** The constructor's height minus 2 (the border). */
    const height: int
    const width: int
    const emptyListMessage: string
    var position: int
    var page: int
    var dataRows: seq<RowItem>
    var header: Option<seq<string>>

    /** The page counter never drops below 1. */
    predicate Valid()
      reads this
    {
      page >= 1
    }

    function CursorOf(): Cursor
      reads this
    {
      Cursor(position, page)
    }

    /** Rows per page: one fewer while a header is shown. */
    function ContentHeight(): int
      reads this
    {
      if header.None? then height else height - 1
    }

    constructor (height: int, width: int, emptyListMessage: string)
      ensures this.height == height - 2 && this.width == width && this.emptyListMessage == emptyListMessage
      ensures position == 1 && page == 1 && dataRows == [] && header.None?
      ensures Valid()
    {
      this.height := height - 2;
      this.width := width;
      this.emptyListMessage := emptyListMessage;
      position := 1;
      page := 1;
      dataRows := [];
      header := None;
    }

    /** draw(table_data): takes a different header and different rows from the
        table (new rows put the cursor back on row 1 of page 1), then renders. */
    method Draw(table: Option<TableContents>) returns (screen: Screen)
      requires Valid()
      modifies this
      ensures Valid()
      ensures header == (if table.Some? && table.value.header.Some? then table.value.header else old(header))
      ensures dataRows == (if table.Some? then table.value.rows else old(dataRows))
      ensures CursorOf() == (if table.Some? && table.value.rows != old(dataRows) then Cursor(1, 1) else old(CursorOf()))
      ensures screen == Rendered()
    {
      if table.Some? && table.value.header.Some? && header != table.value.header {
        header := table.value.header;
      }
      var h := ContentHeight();
      var startRow := if header.None? then 0 else 1;
      if table.Some? && dataRows != table.value.rows {
        dataRows := table.value.rows;
        page := 1;
        position := 1;
      }
      if |dataRows| == 0 {
        return EmptyList(emptyListMessage);
      }
      var titleRow: Option<string> := None;
      if header.Some? {
        var s := TitleRow(header.value, width);
        titleRow := Some(s);
      }
      var lines := PageRows(dataRows, CursorOf(), h, startRow);
      screen := Listing(titleRow, lines);
    }

    /** What the window shows in a given state. */
    function Rendered(): Screen
      requires Valid()
      reads this
    {
      if |dataRows| == 0 then EmptyList(emptyListMessage)
      else Listing(if header.Some? then Some(HeaderFit(header.value, width, "")) else None,
                   PageLines(dataRows, CursorOf(), ContentHeight(), if header.None? then 0 else 1))
    }

    method StepDown()
      requires Valid() && ContentHeight() != 0
      modifies this
      ensures Valid() && dataRows == old(dataRows) && header == old(header)
      ensures CursorOf() == StepDownOf(old(CursorOf()), ContentHeight(), |dataRows|)
    {
      var h := ContentHeight();
      if position < Min(h + h * (page - 1), |dataRows|) {
        position := position + 1;
      } else if page < PyCeilDiv(|dataRows|, h) {
        page := page + 1;
        position := 1 + h * (page - 1);
      }
    }

    method StepUp()
      requires Valid()
      modifies this
      ensures Valid() && dataRows == old(dataRows) && header == old(header)
      ensures CursorOf() == StepUpOf(old(CursorOf()), ContentHeight())
    {
      var h := ContentHeight();
      if page == 1 {
        if position > 1 {
          position := position - 1;
        }
      } else {
        if position > 1 + h * (page - 1) {
          position := position - 1;
        } else {
          page := page - 1;
          position := h + h * (page - 1);
        }
      }
    }

    method PageUp()
      requires Valid()
      modifies this
      ensures Valid() && dataRows == old(dataRows) && header == old(header)
      ensures CursorOf() == PageUpOf(old(CursorOf()), ContentHeight())
    {
      var h := ContentHeight();
      if page > 1 {
        page := page - 1;
        position := 1 + (h * page - 1);
      } else {
        position := 1;
      }
    }

    method PageDown()
      requires Valid() && ContentHeight() != 0
      modifies this
      ensures Valid() && dataRows == old(dataRows) && header == old(header)
      ensures CursorOf() == PageDownOf(old(CursorOf()), ContentHeight(), |dataRows|)
    {
      var h := ContentHeight();
      if page < PyCeilDiv(|dataRows|, h) {
        page := page + 1;
        position := 1 + h * (page - 1);
      } else {
        position := |dataRows|;
      }
    }

    method Apply(m: Move)
      requires Valid() && ContentHeight() != 0
      modifies this
      ensures Valid() && dataRows == old(dataRows) && header == old(header)
      ensures CursorOf() == MoveOf(m, old(CursorOf()), ContentHeight(), |dataRows|)
    {
      match m
      case StepDown => StepDown();
      case StepUp => StepUp();
      case PageUp => PageUp();
      case PageDown => PageDown();
    }

    /** data_rows[position - 1], None for IndexError (position 0 reads the last row). */
    function CurrentRowData(): (r: Option<RowItem>)
      reads this
      ensures 1 <= position <= |dataRows| ==> r == Some(dataRows[position - 1])
      ensures r.Some? ==> r.value in dataRows
      ensures dataRows == [] ==> r.None?
    {
      PyIndex(dataRows, position - 1)
    }

    /** check_navigate: a mapped key moves the cursor, any other key does nothing. */
    method CheckNavigate(key: Key)
      requires Valid() && ContentHeight() != 0
      modifies this
      ensures Valid() && dataRows == old(dataRows) && header == old(header)
      ensures Keymap(key).None? ==> CursorOf() == old(CursorOf())
      ensures Keymap(key).Some? ==> CursorOf() == MoveOf(Keymap(key).value, old(CursorOf()), ContentHeight(), |dataRows|)
    {
      var m := Keymap(key);
      if m.Some? {
        Apply(m.value);
      }
    }
  }

  // ---------------------------------------------------------------------------
  // The selection window
  // ---------------------------------------------------------------------------

  /** The result of get_selection for a finite run of keystrokes: the row under
      the cursor on Enter (None when there is none), None on ESC, or still
      waiting when the keys run out before either. */
  datatype Selection = Chosen(row: Option<RowItem>) | Cancelled | Waiting

  /** The loop of get_selection from cursor c over the keys still to come. */
  function SelectFrom(rows: seq<RowItem>, h: int, c: Cursor, keys: seq<Key>): Selection
    requires h != 0
    decreases |keys|
  {
    if keys == [] then Waiting
    else if keys[0] == Esc then Cancelled
    else
      var c' := if SelectMove(keys[0]).Some? then MoveOf(SelectMove(keys[0]).value, c, h, |rows|) else c;
      if keys[0] == Enter then Chosen(PyIndex(rows, c'.position - 1))
      else SelectFrom(rows, h, c', keys[1..])
  }

  /** One key of the loop that is not ESC: the cursor moves, then Enter chooses
      and any other key goes on. */
  lemma SelectStep(rows: seq<RowItem>, h: int, c: Cursor, keys: seq<Key>, k: nat)
    requires h != 0 && k < |keys| && keys[k] != Esc
    ensures var next := if SelectMove(keys[k]).Some? then MoveOf(SelectMove(keys[k]).value, c, h, |rows|) else c;
      SelectFrom(rows, h, c, keys[k..])
      == if keys[k] == Enter then Chosen(PyIndex(rows, next.position - 1)) else SelectFrom(rows, h, next, keys[k + 1..])
  {
    assert keys[k..][0] == keys[k] && keys[k..][1..] == keys[k + 1..];
  }

  /** get_selection starts on row 1 of page 1. */
  function Selected(rows: seq<RowItem>, height: int, keys: seq<Key>): Selection
    requires height - 2 != 0
  {
    SelectFrom(rows, height - 2, Cursor(1, 1), keys)
  }

  /** A chosen row is one of the options whenever the list is not empty and a
      page holds at least one row: the cursor never leaves the rows. */
  lemma {:induction false} SelectionIsOption(rows: seq<RowItem>, h: int, c: Cursor, keys: seq<Key>)
    requires h >= 1 && OnPage(c, h, |rows|)
    ensures SelectFrom(rows, h, c, keys).Chosen? ==> SelectFrom(rows, h, c, keys).row.Some?
    ensures SelectFrom(rows, h, c, keys).Chosen? ==> SelectFrom(rows, h, c, keys).row.value in rows
    decreases |keys|
  {
    if keys != [] && keys[0] != Esc {
      if SelectMove(keys[0]).Some? {
        MoveOnPage(SelectMove(keys[0]).value, c, h, |rows|);
      }
      if keys[0] != Enter {
        var c' := if SelectMove(keys[0]).Some? then MoveOf(SelectMove(keys[0]).value, c, h, |rows|) else c;
        SelectionIsOption(rows, h, c', keys[1..]);
      }
    }
  }

  /** From a fresh window on a non-empty list every Enter picks an option. */
  lemma SelectedIsOption(rows: seq<RowItem>, height: int, keys: seq<Key>)
    requires height >= 3 && rows != []
    ensures Selected(rows, height, keys).Chosen? ==> Selected(rows, height, keys).row.Some?
    ensures Selected(rows, height, keys).Chosen? ==> Selected(rows, height, keys).row.value in rows
  {
    SelectionIsOption(rows, height - 2, Cursor(1, 1), keys);
  }

  /** ESC first cancels; Enter first takes the first option; Enter on an empty list gives None. */
  lemma SelectionExamples(rows: seq<RowItem>, height: int, rest: seq<Key>)
    requires height - 2 != 0
    ensures Selected(rows, height, [Esc] + rest) == Cancelled
    ensures rows != [] ==> Selected(rows, height, [Enter] + rest) == Chosen(Some(rows[0]))
    ensures rows == [] ==> Selected(rows, height, [Enter] + rest) == Chosen(None)
  {
  }

  class SelectWindow {
    const list: ScrollableList
    const options: seq<RowItem>

    constructor (height: int, width: int, options: seq<string>, emptyListMessage: string)
      ensures fresh(list) && list.Valid()
      ensures list.height == height - 2 && list.width == width
      ensures list.CursorOf() == Cursor(1, 1) && list.dataRows == [] && list.header.None?
      ensures this.options == seq(|options|, i requires 0 <= i < |options| => Line(options[i]))
    {
      list := new ScrollableList(height, width, emptyListMessage);
      this.options := seq(|options|, i requires 0 <= i < |options| => Line(options[i]));
    }

    /** get_selection over the keystrokes `keys`, the first key first. */
    method GetSelection(keys: seq<Key>) returns (r: Selection)
      requires list.Valid() && list.CursorOf() == Cursor(1, 1) && list.dataRows == [] && list.header.None?
      requires list.height != 0
      modifies list
      ensures r == Selected(options, list.height + 2, keys)
    {
      var _ := list.Draw(Some(TableContents(None, options)));
      var k := 0;
      while k < |keys|
        invariant 0 <= k <= |keys| && list.Valid() && list.header.None? && list.dataRows == options
        invariant SelectFrom(options, list.height, list.CursorOf(), keys[k..]) == Selected(options, list.height + 2, keys)
        decreases |keys| - k
      {
        var x := keys[k];
        if x == Esc {
          return Cancelled;
        }
        SelectStep(options, list.height, list.CursorOf(), keys, k);
        var m := SelectMove(x);
        if m.Some? {
          list.Apply(m.value);
        }
        if x == Enter {
          return Chosen(list.CurrentRowData());
        }
        var _ := list.Draw(None);
        k := k + 1;
      }
      return Waiting;
    }
  }
}
