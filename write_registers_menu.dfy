/** The "Write registers" dialog: the write command, the register address, the
    unit ID, the value format (locked for coil writes), multicast and the value. */
module WriteRegistersMenus {
  import opened PyFormat
  import opened Definitions
  import opened TextInput
  import MenuBases

  /** The two write commands. definitions.py does not define HOLDING_WRITE and
      COIL_WRITE although the menu imports them; these stand for them and only
      need to differ from each other and from the read commands. */
  const HoldingWrite := "Write holding registers"
  const CoilWrite := "Write coils"

  /** The menu's label rows; row 8 is the "Write!" row. */
  const Labels: seq<int> := MenuBases.Rows(2, 9)

  /** The cursor starts on the "Write!" row and the status lines at row 10. */
  lemma LabelBounds()
    ensures MenuBases.MaxOf(Labels) == 8 && MenuBases.MinOf(Labels) == 2
  {
    MenuBases.RowsBounds(2, 9);
  }

  /** get_register: text_input_to_int's number when it is a register address
      0 to 65535, otherwise None, which replaces the address either way. */
  function RegisterOf(e: Entry): (address: Option<int>)
    ensures address.Some? ==> 0 <= address.value <= 65535 && e.asNumber == address
    ensures address.None? <==> !NumberIn(e, 0, 65536)
  {
    if NumberIn(e, 0, 65536) then e.asNumber else None
  }

  /** get_value reads an int unless the format's name contains "FLOAT". */
  function TypedValue(format: string, e: Entry): (v: Option<Value>)
    ensures !Contains(format, "FLOAT") ==> (v.Some? <==> e.asNumber.Some?) && (v.Some? ==> v.value == IntV(e.asNumber.value))
    ensures Contains(format, "FLOAT") ==> (v.Some? <==> e.asReal.Some?) && (v.Some? ==> v.value == RealV(e.asReal.value))
  {
    if !Contains(format, "FLOAT") then (if e.asNumber.Some? then Some(IntV(e.asNumber.value)) else None)
    else if e.asReal.Some? then Some(RealV(e.asReal.value)) else None
  }

  /** None of the selectable formats asks for a float; "BIT", the coil format,
      does not either. */
  lemma FormatsAreIntegers()
    ensures forall i :: 0 <= i < |FormatNames()| ==> !Contains(FormatNames()[i], "FLOAT")
    ensures !Contains("BIT", "FLOAT")
  {
    forall i | 0 <= i < |FormatNames()|
      ensures !Contains(FormatNames()[i], "FLOAT")
    {
      NoFloat(FormatNames()[i]);
    }
    NoFloat("BIT");
  }

  /** A name shorter than five letters or without an 'F' contains no "FLOAT". */
  lemma {:induction false} NoFloat(t: string)
    requires 'F' !in t
    ensures !Contains(t, "FLOAT")
    decreases |t|
  {
    if |t| >= 5 {
      assert t[..5][0] == t[0];
    }
    if |t| > 0 {
      NoFloat(t[1..]);
    }
  }

  class WriteRegistersMenu {
    var configuration: WriteConfig
    /** The `command` attribute the menu adds to the configuration object; it is
        not a WriteConfig field, so it is absent (None) until set. */
    var command: Option<string>
    var formatLock: bool

    /** The format is locked exactly while the command is the coil write. */
    predicate Valid()
      reads this
    {
      formatLock <==> command == Some(CoilWrite)
    }

    /** Opened from a table row, the row's register is filled in and the command
        follows the table's read command: coils give the coil write with the
        "BIT" format locked, holding registers the holding write. The
        configurations are what load_write_config and load_read_config return. */
    constructor (configuration: WriteConfig, readConfig: ReadConfig, startRegister: Option<int>)
      ensures Valid()
      ensures this.configuration.unit == configuration.unit && this.configuration.multicast == configuration.multicast
      ensures this.configuration.value == configuration.value
      ensures this.configuration.address == if startRegister.Some? then startRegister else configuration.address
      ensures startRegister.None? || readConfig.command !in {Coil, Holding} ==>
        command.None? && !formatLock && this.configuration.format == configuration.format
      ensures startRegister.Some? && readConfig.command == Coil ==>
        command == Some(CoilWrite) && formatLock && this.configuration.format == "BIT"
      ensures startRegister.Some? && readConfig.command == Holding ==>
        command == Some(HoldingWrite) && !formatLock && this.configuration.format == configuration.format
    {
      var c := configuration;
      if startRegister.Some? {
        c := c.(address := startRegister);
      }
      var cmd: Option<string> := None;
      var lock := false;
      if startRegister.Some? {
        if readConfig.command == Coil {
          cmd := Some(CoilWrite);
          lock := true;
          c := c.(format := "BIT");
        }
        if readConfig.command == Holding {
          cmd := Some(HoldingWrite);
        }
      }
      this.configuration := c;
      command := cmd;
      formatLock := lock;
    }

    /** switch_command: a selection becomes the command, and the format lock
        follows it. */
    method SwitchCommand(selection: Option<string>)
      modifies this
      ensures old(Valid()) || selection.Some? ==> Valid()
      ensures configuration == old(configuration)
      ensures selection.Some? ==> command == selection && (formatLock <==> selection.value == CoilWrite)
      ensures selection.None? ==> command == old(command) && formatLock == old(formatLock)
    {
      if selection.Some? {
        command := selection;
        if selection.value == CoilWrite {
          formatLock := true;
        } else {
          formatLock := false;
        }
      }
    }

    method GetRegister(e: Entry)
      modifies this
      ensures configuration == old(configuration).(address := RegisterOf(e))
      ensures command == old(command) && formatLock == old(formatLock)
    {
      var address := e.asNumber;
      if address.Some? {
        if !(0 <= address.value <= 65535) {
          address := None;
        }
      }
      configuration := configuration.(address := address);
    }

    /** get_unit_id keeps the raw text as the unit whether or not it is valid.
        Its range check reads the text with int(): a number text_input_to_int
        accepts but int() does not (`raised`) ends the call with a ValueError
        before anything is stored. */
    method GetUnitId(e: Entry) returns (raised: bool)
      modifies this
      ensures raised <==> e.asNumber.Some? && e.asInt.None?
      ensures configuration == if raised then old(configuration) else old(configuration).(unit := StrV(e.text))
      ensures command == old(command) && formatLock == old(formatLock)
    {
      var value := e.asNumber;
      if value.Some? {
        if e.asInt.None? {
          return true;
        }
        if !(0 < e.asInt.value < 256) {
          value := None;
        }
      }
      configuration := configuration.(unit := StrV(e.text));
      return false;
    }

    /** get_format: nothing happens while the format is locked. */
    method GetFormat(selection: Option<string>)
      modifies this
      ensures command == old(command) && formatLock == old(formatLock)
      ensures configuration == if !formatLock && selection.Some? then old(configuration).(format := selection.value) else old(configuration)
    {
      if formatLock {
        return;
      }
      if selection.Some? {
        configuration := configuration.(format := selection.value);
      }
    }

    method SwapMulticast()
      modifies this
      ensures configuration == old(configuration).(multicast := !old(configuration).multicast)
      ensures command == old(command) && formatLock == old(formatLock)
    {
      if configuration.multicast {
        configuration := configuration.(multicast := false);
      } else {
        configuration := configuration.(multicast := true);
      }
    }

    /** get_value: a value that does not parse leaves the stored one. */
    method GetValue(e: Entry)
      modifies this
      ensures command == old(command) && formatLock == old(formatLock)
      ensures configuration == if TypedValue(old(configuration).format, e).Some? then old(configuration).(value := TypedValue(old(configuration).format, e).value) else old(configuration)
    {
      var value: Option<Value>;
      if !Contains(configuration.format, "FLOAT") {
        value := if e.asNumber.Some? then Some(IntV(e.asNumber.value)) else None;
      } else {
        value := if e.asReal.Some? then Some(RealV(e.asReal.value)) else None;
      }
      if value.None? {
        return;
      }
      configuration := configuration.(value := value.value);
    }
  }
}
