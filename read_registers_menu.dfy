/** The "Read registers" dialog: four validated settings, a command chosen from
    a list, and the key loop that edits them until reading starts. */
module ReadRegistersMenus {
  import opened PyFormat
  import opened Keys
  import opened Definitions
  import opened TextInput
  import MenuBases

  /** MENU_LABELS has the rows 2 to 7; row 7 starts the reading. */
  const FirstRow := 2
  const ActionRow := 7

  /** The settings every setter keeps in range: the start register, the number
      of registers, the unit ID and the block size the dialog accepts. */
  predicate Accepted(c: ReadConfig)
  {
    0 <= c.start < 65535 && 0 < c.number < 10000 && 0 < c.unit < 256 && 1 <= c.blockSize <= 125
  }

  /** The ReadConfig defaults lie inside every accepted range. */
  lemma DefaultAccepted()
    ensures Accepted(DefaultReadConfig)
  {
  }

  function StoreStart(c: ReadConfig, e: Entry): ReadConfig
  {
    if IntIn(e, 0, 65535) then c.(start := e.asInt.value) else c
  }

  function StoreNumber(c: ReadConfig, e: Entry): ReadConfig
  {
    if IntIn(e, 1, 10000) then c.(number := e.asInt.value) else c
  }

  function StoreUnit(c: ReadConfig, e: Entry): ReadConfig
  {
    if IntIn(e, 1, 256) then c.(unit := e.asInt.value) else c
  }

  function StoreBlockSize(c: ReadConfig, e: Entry): ReadConfig
  {
    if IntIn(e, 1, 126) then c.(blockSize := e.asInt.value) else c
  }

  function StoreCommand(c: ReadConfig, selection: Option<string>): ReadConfig
  {
    if selection.Some? then c.(command := selection.value) else c
  }

  /** Each setter keeps an accepted configuration accepted, stores exactly the
      values of its range (65535 is refused as a start register, 125 is the
      largest block size) and refuses everything else without a change. */
  lemma SettersKeepAccepted(c: ReadConfig, e: Entry, selection: Option<string>)
    ensures Accepted(c) ==> Accepted(StoreStart(c, e)) && Accepted(StoreNumber(c, e))
    ensures Accepted(c) ==> Accepted(StoreUnit(c, e)) && Accepted(StoreBlockSize(c, e))
    ensures Accepted(c) ==> Accepted(StoreCommand(c, selection))
    ensures StoreStart(c, e).start == (if e.asInt.Some? && 0 <= e.asInt.value < 65535 then e.asInt.value else c.start)
    ensures StoreNumber(c, e).number == (if e.asInt.Some? && 0 < e.asInt.value < 10000 then e.asInt.value else c.number)
    ensures StoreUnit(c, e).unit == (if e.asInt.Some? && 0 < e.asInt.value < 256 then e.asInt.value else c.unit)
    ensures StoreBlockSize(c, e).blockSize == (if e.asInt.Some? && 1 <= e.asInt.value <= 125 then e.asInt.value else c.blockSize)
    ensures e.asInt == Some(65535) ==> StoreStart(c, e) == c
    ensures e.asInt == Some(125) ==> StoreBlockSize(c, e).blockSize == 125
    ensures e.asInt == Some(126) || e.asInt == Some(0) ==> StoreBlockSize(c, e) == c
  {
  }

  /** The setter behind a row (position_commands); the action row has none. */
  function RowCommand(c: ReadConfig, row: int, ev: Event): ReadConfig
  {
    if row == 2 then StoreCommand(c, ev.selection)
    else if row == 3 then StoreStart(c, ev.entry)
    else if row == 4 then StoreNumber(c, ev.entry)
    else if row == 5 then StoreUnit(c, ev.entry)
    else if row == 6 then StoreBlockSize(c, ev.entry)
    else c
  }

  /** One pass of the key loop that does not leave it: an F key selects its row
      and runs its setter, Down and Up step one row within 2 to 7, Home and End
      jump to the ends, and ENTER runs the setter of the current row. */
  function Step(c: ReadConfig, position: int, ev: Event): (r: (ReadConfig, int))
  {
    var x := ev.key;
    if F(2) <= x <= F(6) then (RowCommand(c, x - F(0), ev), x - F(0))
    else if x == KeyDown then (c, Min(position + 1, ActionRow))
    else if x == KeyUp then (c, Max(position - 1, FirstRow))
    else if x == KeyEnd then (c, ActionRow)
    else if x == KeyHome then (c, FirstRow)
    else if x == Enter then (RowCommand(c, position, ev), position)
    else (c, position)
  }

  /** The cursor never leaves the label rows, and the settings stay accepted. */
  lemma StepKeepsRange(c: ReadConfig, position: int, ev: Event)
    requires FirstRow <= position <= ActionRow
    ensures FirstRow <= Step(c, position, ev).1 <= ActionRow
    ensures Accepted(c) ==> Accepted(Step(c, position, ev).0)
  {
    SettersKeepAccepted(c, ev.entry, ev.selection);
  }

  /** How the key loop ends: ESC cancels, ENTER on the action row starts reading
      with the settings then held; Waiting means the keys ran out first. */
  datatype Outcome = Cancelled | Start(config: ReadConfig) | Waiting(config: ReadConfig, position: int)

  /** The key loop of read_registers over `events`, first key first. */
  function Edit(c: ReadConfig, position: int, events: seq<Event>): Outcome
    decreases |events|
  {
    if events == [] then Waiting(c, position)
    else if events[0].key == Esc then Cancelled
    else if events[0].key == Enter && position == ActionRow then Start(c)
    else
      var s := Step(c, position, events[0]);
      Edit(s.0, s.1, events[1..])
  }

  /** Reading only ever starts with settings the dialog accepts. */
  lemma {:induction false} EditStartsAccepted(c: ReadConfig, position: int, events: seq<Event>)
    requires Accepted(c) && FirstRow <= position <= ActionRow
    ensures Edit(c, position, events).Start? ==> Accepted(Edit(c, position, events).config)
    ensures Edit(c, position, events).Waiting? ==> Accepted(Edit(c, position, events).config)
    ensures Edit(c, position, events).Waiting? ==> FirstRow <= Edit(c, position, events).position <= ActionRow
    decreases |events|
  {
    if events != [] && events[0].key != Esc && !(events[0].key == Enter && position == ActionRow) {
      StepKeepsRange(c, position, events[0]);
      var s := Step(c, position, events[0]);
      EditStartsAccepted(s.0, s.1, events[1..]);
    }
  }

  /** From the initial cursor (the action row) ENTER starts at once, and ESC
      anywhere before it cancels. */
  lemma EditExamples(c: ReadConfig, rest: seq<Event>, ev: Event)
    requires ev.key == Enter
    ensures Edit(c, ActionRow, [ev] + rest) == Start(c)
    ensures Edit(c, ActionRow, [ev.(key := Esc)] + rest) == Cancelled
  {
  }

  class ReadRegistersMenu {
    const maxStatusIndex: int
    const startStatusIndex: int
    var configuration: ReadConfig
    var position: int
    var statusIndex: int

    /** The dialog's size from the screen's; the settings from load_read_config. */
    constructor (configuration: ReadConfig, screenRows: int)
      ensures this.configuration == configuration && position == ActionRow
      ensures maxStatusIndex == MenuBases.DialogHeight(screenRows) - 2
      ensures startStatusIndex == ActionRow + 2 && statusIndex == startStatusIndex
    {
      maxStatusIndex := MenuBases.DialogHeight(screenRows) - 2;
      startStatusIndex := ActionRow + 2;
      statusIndex := ActionRow + 2;
      this.configuration := configuration;
      position := ActionRow;
    }

    /** add_status_text: one line at the status index; the status area starts
        over once the index has reached the last row. */
    method AddStatusText(text: string) returns (row: int)
      modifies this
      ensures configuration == old(configuration) && position == old(position)
      ensures row == (if old(statusIndex) == maxStatusIndex then startStatusIndex else old(statusIndex))
      ensures statusIndex == row + 1
      ensures startStatusIndex < maxStatusIndex && startStatusIndex <= old(statusIndex) <= maxStatusIndex ==>
        startStatusIndex < statusIndex <= maxStatusIndex
    {
      if statusIndex == maxStatusIndex {
        statusIndex := startStatusIndex;
      }
      row := statusIndex;
      statusIndex := statusIndex + 1;
    }

    method SwitchCommand(selection: Option<string>)
      modifies this
      ensures configuration == StoreCommand(old(configuration), selection) && position == old(position)
    {
      if selection.Some? {
        configuration := configuration.(command := selection.value);
      }
    }

    method GetStartRegister(e: Entry)
      modifies this
      ensures configuration == StoreStart(old(configuration), e) && position == old(position)
    {
      if e.asInt.Some? && 0 <= e.asInt.value < 65535 {
        configuration := configuration.(start := e.asInt.value);
      }
    }

    method GetNumberOfRegisters(e: Entry)
      modifies this
      ensures configuration == StoreNumber(old(configuration), e) && position == old(position)
    {
      if e.asInt.Some? && 0 < e.asInt.value < 10000 {
        configuration := configuration.(number := e.asInt.value);
      }
    }

    method GetUnitId(e: Entry)
      modifies this
      ensures configuration == StoreUnit(old(configuration), e) && position == old(position)
    {
      if e.asInt.Some? && 0 < e.asInt.value < 256 {
        configuration := configuration.(unit := e.asInt.value);
      }
    }

    method GetBlockSize(e: Entry)
      modifies this
      ensures configuration == StoreBlockSize(old(configuration), e) && position == old(position)
    {
      if e.asInt.Some? && 1 <= e.asInt.value <= 125 {
        configuration := configuration.(blockSize := e.asInt.value);
      }
    }

    /** position_commands[row]() */
    method RunRow(row: int, ev: Event)
      modifies this
      ensures configuration == RowCommand(old(configuration), row, ev) && position == old(position)
    {
      if row == 2 {
        SwitchCommand(ev.selection);
      } else if row == 3 {
        GetStartRegister(ev.entry);
      } else if row == 4 {
        GetNumberOfRegisters(ev.entry);
      } else if row == 5 {
        GetUnitId(ev.entry);
      } else if row == 6 {
        GetBlockSize(ev.entry);
      }
    }

    /** One pass of the loop for a key other than ESC and the starting ENTER. */
    method Handle(ev: Event)
      modifies this
      ensures (configuration, position) == Step(old(configuration), old(position), ev)
    {
      var x := ev.key;
      if F(2) <= x <= F(6) {
        position := x - F(0);
        RunRow(position, ev);
      }
      if x == KeyDown {
        position := position + 1;
        if position > ActionRow {
          position := ActionRow;
        }
      }
      if x == KeyUp {
        position := position - 1;
        if position < FirstRow {
          position := FirstRow;
        }
      }
      if x == KeyEnd {
        position := ActionRow;
      }
      if x == KeyHome {
        position := FirstRow;
      }
      if x == Enter {
        RunRow(position, ev);
      }
    }

    /** The editing half of read_registers over the keystrokes `events`. Reading
        itself (get_data_rows) and the closing messages are modelled by
        ModbusHandler. */
    method ReadRegisters(events: seq<Event>) returns (outcome: Outcome)
      modifies this
      ensures outcome == Edit(old(configuration), old(position), events)
      ensures outcome.Start? ==> configuration == outcome.config
    {
      var k := 0;
      while k < |events|
        invariant 0 <= k <= |events|
        invariant Edit(configuration, position, events[k..]) == Edit(old(configuration), old(position), events)
        decreases |events| - k
      {
        var x := events[k];
        assert events[k..][0] == x && events[k..][1..] == events[k + 1..];
        if x.key == Esc {
          return Cancelled;
        }
        if x.key == Enter && position == ActionRow {
          return Start(configuration);
        }
        Handle(x);
        k := k + 1;
      }
      return Waiting(configuration, position);
    }
  }
}
