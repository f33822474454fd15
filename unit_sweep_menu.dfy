/** The "Unit sweep" dialog: the register window to read, the range of unit IDs
    to try and the timeout, edited with F keys until ENTER starts the sweep. */
module UnitSweepMenus {
  import opened PyFormat
  import opened Keys
  import opened Definitions
  import opened TextInput
  import MenuBases

  /** The first status row: the row below the "Press ENTER" line. */
  const FirstStatusRow := 11

  /** switch_command: holding registers become input registers, anything else holding. */
  function SwitchedCommand(command: string): string
  {
    if command == Holding then Input else Holding
  }

  /** The toggle alternates between the two register commands. */
  lemma SwitchedCommandAlternates(command: string)
    ensures SwitchedCommand(command) in {Holding, Input}
    ensures command in {Holding, Input} ==> SwitchedCommand(SwitchedCommand(command)) == command && SwitchedCommand(command) != command
  {
  }

  /** The settings the setters keep in range: the register window, a unit range
      with the start below the last unit, and a timeout of at most a minute. */
  predicate Accepted(c: UnitSweepConfig)
  {
    0 <= c.startRegister < 65535 && 0 < c.numberOfRegisters < 10000
    && 0 < c.startUnit < c.lastUnit < 256 && c.timeout <= 60.0
  }

  /** The UnitSweepConfig defaults lie inside every accepted range. */
  lemma DefaultAccepted()
    ensures Accepted(DefaultUnitSweepConfig)
  {
  }

  function StoreStartRegister(c: UnitSweepConfig, e: Entry): UnitSweepConfig
  {
    if IntIn(e, 0, 65535) then c.(startRegister := e.asInt.value) else c
  }

  function StoreNumber(c: UnitSweepConfig, e: Entry): UnitSweepConfig
  {
    if IntIn(e, 1, 10000) then c.(numberOfRegisters := e.asInt.value) else c
  }

  /** get_start_unit_id: a unit ID below the last unit. */
  function StoreStartUnit(c: UnitSweepConfig, e: Entry): UnitSweepConfig
  {
    if IntIn(e, 1, 256) && e.asInt.value < c.lastUnit then c.(startUnit := e.asInt.value) else c
  }

  /** get_last_unit_id: a unit ID above the start unit. */
  function StoreLastUnit(c: UnitSweepConfig, e: Entry): UnitSweepConfig
  {
    if IntIn(e, 1, 256) && c.startUnit < e.asInt.value then c.(lastUnit := e.asInt.value) else c
  }

  /** get_timeout: float(text) unless it is more than 60 seconds. */
  function StoreTimeout(c: UnitSweepConfig, e: Entry): UnitSweepConfig
  {
    if e.asReal.Some? && !(60.0 < e.asReal.value) then c.(timeout := e.asReal.value) else c
  }

  /** Each setter keeps an accepted configuration accepted; together the unit
      setters keep the start unit below the last. */
  lemma SettersKeepAccepted(c: UnitSweepConfig, e: Entry)
    requires Accepted(c)
    ensures Accepted(StoreStartRegister(c, e)) && Accepted(StoreNumber(c, e))
    ensures Accepted(StoreStartUnit(c, e)) && Accepted(StoreLastUnit(c, e))
    ensures Accepted(StoreTimeout(c, e)) && Accepted(c.(command := SwitchedCommand(c.command)))
  {
  }

  /** The unit setters accept exactly the IDs 1 to 255 on the right side of the
      other end of the range, and change nothing else. */
  lemma UnitSettersExact(c: UnitSweepConfig, e: Entry)
    ensures StoreStartUnit(c, e) != c ==> e.asInt.Some? && 0 < e.asInt.value < 256 && e.asInt.value < c.lastUnit
    ensures StoreLastUnit(c, e) != c ==> e.asInt.Some? && 0 < e.asInt.value < 256 && c.startUnit < e.asInt.value
    ensures StoreStartUnit(c, e) == c.(startUnit := StoreStartUnit(c, e).startUnit)
    ensures StoreLastUnit(c, e) == c.(lastUnit := StoreLastUnit(c, e).lastUnit)
    ensures e.asInt.Some? && e.asInt.value == c.lastUnit ==> StoreStartUnit(c, e) == c
    ensures e.asInt.Some? && e.asInt.value == c.startUnit ==> StoreLastUnit(c, e) == c
  {
  }

  /** One pass of the loop of sweep_units: F2 to F7 run their setter, any other
      key only redraws. */
  function Step(c: UnitSweepConfig, ev: Event): UnitSweepConfig
  {
    var x := ev.key;
    if x == F(2) then c.(command := SwitchedCommand(c.command))
    else if x == F(3) then StoreStartRegister(c, ev.entry)
    else if x == F(4) then StoreNumber(c, ev.entry)
    else if x == F(5) then StoreStartUnit(c, ev.entry)
    else if x == F(6) then StoreLastUnit(c, ev.entry)
    else if x == F(7) then StoreTimeout(c, ev.entry)
    else c
  }

  /** How the loop ends: ESC cancels, ENTER starts the sweep with the settings
      then held; Waiting means the keys ran out first. */
  datatype Outcome = Cancelled | Start(config: UnitSweepConfig) | Waiting(config: UnitSweepConfig)

  function Edit(c: UnitSweepConfig, events: seq<Event>): Outcome
    decreases |events|
  {
    if events == [] then Waiting(c)
    else if events[0].key == Esc then Cancelled
    else if events[0].key == Enter then Start(c)
    else Edit(Step(c, events[0]), events[1..])
  }

  /** A sweep only ever starts over an ordered, in-range unit range. */
  lemma {:induction false} EditStartsAccepted(c: UnitSweepConfig, events: seq<Event>)
    requires Accepted(c)
    ensures Edit(c, events).Start? ==> Accepted(Edit(c, events).config)
    ensures Edit(c, events).Start? ==> Edit(c, events).config.startUnit < Edit(c, events).config.lastUnit
    ensures Edit(c, events).Waiting? ==> Accepted(Edit(c, events).config)
    decreases |events|
  {
    if events != [] && events[0].key != Esc && events[0].key != Enter {
      SettersKeepAccepted(c, events[0].entry);
      EditStartsAccepted(Step(c, events[0]), events[1..]);
    }
  }

  class UnitSweepMenu {
    const maxStatusIndex: int
    var configuration: UnitSweepConfig
    var statusIndex: int

    /** The dialog's size from the screen's; the settings from load_unit_sweep_config. */
    constructor (configuration: UnitSweepConfig, screenRows: int)
      ensures this.configuration == configuration && statusIndex == FirstStatusRow
      ensures maxStatusIndex == MenuBases.DialogHeight(screenRows) - 2
    {
      maxStatusIndex := MenuBases.DialogHeight(screenRows) - 2;
      this.configuration := configuration;
      statusIndex := FirstStatusRow;
    }

    /** add_status_text: one line at the status index; once the index has reached
        the last row the area is redrawn and writing starts again at row 11. */
    method AddStatusText(text: string) returns (row: int)
      modifies this
      ensures configuration == old(configuration)
      ensures row == (if old(statusIndex) == maxStatusIndex then FirstStatusRow else old(statusIndex))
      ensures statusIndex == row + 1
      ensures FirstStatusRow < maxStatusIndex && FirstStatusRow <= old(statusIndex) <= maxStatusIndex ==>
        FirstStatusRow < statusIndex <= maxStatusIndex
    {
      if statusIndex == maxStatusIndex {
        statusIndex := FirstStatusRow;
      }
      row := statusIndex;
      statusIndex := statusIndex + 1;
    }

    method SwitchCommand()
      modifies this
      ensures configuration == old(configuration).(command := SwitchedCommand(old(configuration).command))
    {
      if configuration.command == Holding {
        configuration := configuration.(command := Input);
      } else {
        configuration := configuration.(command := Holding);
      }
    }

    method GetStartRegister(e: Entry)
      modifies this
      ensures configuration == StoreStartRegister(old(configuration), e)
    {
      if e.asInt.Some? && 0 <= e.asInt.value < 65535 {
        configuration := configuration.(startRegister := e.asInt.value);
      }
    }

    method GetNumberOfRegisters(e: Entry)
      modifies this
      ensures configuration == StoreNumber(old(configuration), e)
    {
      if e.asInt.Some? && 0 < e.asInt.value < 10000 {
        configuration := configuration.(numberOfRegisters := e.asInt.value);
      }
    }

    method GetStartUnitId(e: Entry)
      modifies this
      ensures configuration == StoreStartUnit(old(configuration), e)
    {
      if !(e.asInt.Some? && 0 < e.asInt.value < 256) {
        return;
      }
      if configuration.lastUnit <= e.asInt.value {
        return;
      }
      configuration := configuration.(startUnit := e.asInt.value);
    }

    method GetLastUnitId(e: Entry)
      modifies this
      ensures configuration == StoreLastUnit(old(configuration), e)
    {
      if !(e.asInt.Some? && 0 < e.asInt.value < 256) {
        return;
      }
      if e.asInt.value <= configuration.startUnit {
        return;
      }
      configuration := configuration.(lastUnit := e.asInt.value);
    }

    method GetTimeout(e: Entry)
      modifies this
      ensures configuration == StoreTimeout(old(configuration), e)
    {
      if e.asReal.None? {
        return;
      }
      if 60.0 < e.asReal.value {
        return;
      }
      configuration := configuration.(timeout := e.asReal.value);
    }

    /** The editing half of sweep_units over the keystrokes `events`. The sweep
        itself (unit_sweep) is modelled by ModbusHandler. */
    method SweepUnits(events: seq<Event>) returns (outcome: Outcome)
      modifies this
      ensures outcome == Edit(old(configuration), events)
      ensures outcome.Start? ==> configuration == outcome.config
    {
      var k := 0;
      while k < |events|
        invariant 0 <= k <= |events|
        invariant Edit(configuration, events[k..]) == Edit(old(configuration), events)
        decreases |events| - k
      {
        var x := events[k];
        assert events[k..][0] == x && events[k..][1..] == events[k + 1..];
        if x.key == Esc {
          return Cancelled;
        }
        if x.key == Enter {
          return Start(configuration);
        }
        if x.key == F(2) {
          SwitchCommand();
        }
        if x.key == F(3) {
          GetStartRegister(x.entry);
        }
        if x.key == F(4) {
          GetNumberOfRegisters(x.entry);
        }
        if x.key == F(5) {
          GetStartUnitId(x.entry);
        }
        if x.key == F(6) {
          GetLastUnitId(x.entry);
        }
        if x.key == F(7) {
          GetTimeout(x.entry);
        }
        k := k + 1;
      }
      return Waiting(configuration);
    }
  }
}
