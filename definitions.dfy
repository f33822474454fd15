/** Constants, configuration records and table contents shared by all components. */
module Definitions {
  import opened PyFormat

  const ConfigDir := "modterm"

  const Holding := "Read holding registers"
  const Input := "Read input registers"
  const Coil := "Read coils"
  const Discrete := "Read discrete inputs"

  const LittleEndian := "Little endian"
  const BigEndian := "Big endian"

  const Tcp := "TCP"
  const Rtu := "RTU"

  /** The `formats` dict in insertion order: write format name to encoder suffix. */
  const Formats: seq<(string, string)> :=
    [("UINT16", "16bit_uint"), ("INT16", "16bit_int"), ("UINT32", "32bit_uint"), ("INT32", "32bit_int")]

  /** list(formats.keys()) */
  function FormatNames(): (names: seq<string>)
    ensures names == ["UINT16", "INT16", "UINT32", "INT32"]
  {
    seq(|Formats|, i requires 0 <= i < |Formats| => Formats[i].0)
  }

  /** formats[name]; None stands for the KeyError of a name that is not a key. */
  function FormatSuffix(name: string): (r: Option<string>)
    ensures r.Some? <==> name in FormatNames()
    ensures name == "UINT16" ==> r == Some("16bit_uint")
    ensures name == "INT16" ==> r == Some("16bit_int")
    ensures name == "UINT32" ==> r == Some("32bit_uint")
    ensures name == "INT32" ==> r == Some("32bit_int")
  {
    Lookup(Formats, name)
  }

  function Lookup(entries: seq<(string, string)>, key: string): (r: Option<string>)
    ensures r.Some? <==> exists i :: 0 <= i < |entries| && entries[i].0 == key
    ensures r.Some? ==> exists i :: 0 <= i < |entries| && entries[i] == (key, r.value)
  {
    if entries == [] then None
    else if entries[0].0 == key then Some(entries[0].1)
    else
      var r := Lookup(entries[1..], key);
      assert forall i :: 1 <= i < |entries| ==> entries[i] == entries[1..][i - 1];
      r
  }

  // ---------------------------------------------------------------------------
  // Configuration records and from_dict
  // ---------------------------------------------------------------------------

  /** A value held by a dataclass field or a loaded JSON dict. The dataclasses do
      not check types, so a field may hold any of these. */
  datatype Value = IntV(i: int) | StrV(s: string) | BoolV(b: bool) | RealV(r: real) | NoneV

  /** A dataclass instance or a dict, as its fields by name. */
  type Record = map<string, Value>

  /** cls.from_dict(d): keep the keys that are constructor parameters, let the
      others take the dataclass defaults, and pass values through unchecked. */
  function FromDict(defaults: Record, given: Record): (r: Record)
  {
    map k | k in defaults :: if k in given then given[k] else defaults[k]
  }

  /** The result has exactly the dataclass fields. */
  lemma FromDictFields(defaults: Record, given: Record)
    ensures FromDict(defaults, given).Keys == defaults.Keys
  {
  }

  /** An empty dict (what a missing or unreadable file loads) gives the defaults. */
  lemma FromDictEmpty(defaults: Record)
    ensures FromDict(defaults, map[]) == defaults
  {
  }

  /** Keys that are not fields are silently dropped. */
  lemma FromDictIgnoresUnknown(defaults: Record, given: Record, extra: string, v: Value)
    requires extra !in defaults
    ensures FromDict(defaults, given[extra := v]) == FromDict(defaults, given)
  {
  }

  /** A given field is taken as it is, without any range check. */
  lemma FromDictTakesGiven(defaults: Record, given: Record, k: string)
    requires k in defaults && k in given
    ensures FromDict(defaults, given)[k] == given[k]
  {
  }

  /** Loading what was saved: a record with exactly the dataclass fields (what
      asdict writes) comes back unchanged. */
  lemma FromDictSaved(defaults: Record, saved: Record)
    requires saved.Keys == defaults.Keys
    ensures FromDict(defaults, saved) == saved
  {
  }

  // ModbusConfig (field names as in the dataclass)

  datatype ModbusConfig = ModbusConfig(
    mode: string, ip: string, port: int, interface: string, baudRate: int,
    parity: string, bytesize: int, stopbits: int, wordOrder: string, byteOrder: string)

  const DefaultModbusConfig :=
    ModbusConfig(Tcp, "localhost", 502, "/dev/ttyO1", 9600, "N", 8, 1, BigEndian, BigEndian)

  /** dataclasses.asdict(config) */
  function ModbusRecord(c: ModbusConfig): (r: Record)
    ensures r.Keys == {"mode", "ip", "port", "interface", "baud_rate", "parity", "bytesize", "stopbits", "word_order", "byte_order"}
  {
    map["mode" := StrV(c.mode), "ip" := StrV(c.ip), "port" := IntV(c.port),
        "interface" := StrV(c.interface), "baud_rate" := IntV(c.baudRate),
        "parity" := StrV(c.parity), "bytesize" := IntV(c.bytesize),
        "stopbits" := IntV(c.stopbits), "word_order" := StrV(c.wordOrder),
        "byte_order" := StrV(c.byteOrder)]
  }

  // ReadConfig

  datatype ReadConfig = ReadConfig(command: string, start: int, number: int, unit: int, blockSize: int)

  const DefaultReadConfig := ReadConfig(Holding, 0, 1, 1, 125)

  function ReadRecord(c: ReadConfig): (r: Record)
    ensures r.Keys == {"command", "start", "number", "unit", "block_size"}
  {
    map["command" := StrV(c.command), "start" := IntV(c.start), "number" := IntV(c.number),
        "unit" := IntV(c.unit), "block_size" := IntV(c.blockSize)]
  }

  // WriteConfig: `address` may be set to None by the write menu and `unit`
  // may hold the raw text typed by the user, so those fields are untyped.

  datatype WriteConfig = WriteConfig(address: Option<int>, unit: Value, format: string, multicast: bool, value: Value)

  const DefaultWriteConfig := WriteConfig(Some(0), IntV(1), FormatNames()[0], false, IntV(1))

  function WriteRecord(c: WriteConfig): (r: Record)
    ensures r.Keys == {"address", "unit", "format", "multicast", "value"}
  {
    map["address" := (if c.address.Some? then IntV(c.address.value) else NoneV),
        "unit" := c.unit, "format" := StrV(c.format),
        "multicast" := BoolV(c.multicast), "value" := c.value]
  }

  // ExportConfig

  datatype ExportConfig = ExportConfig(lastDir: Option<string>, lastFileName: Option<string>, lastFileType: string)

  const DefaultExportConfig := ExportConfig(None, None, ".csv")

  function OptStr(o: Option<string>): Value
  {
    if o.Some? then StrV(o.value) else NoneV
  }

  function ExportRecord(c: ExportConfig): (r: Record)
    ensures r.Keys == {"last_dir", "last_file_name", "last_file_type"}
  {
    map["last_dir" := OptStr(c.lastDir), "last_file_name" := OptStr(c.lastFileName),
        "last_file_type" := StrV(c.lastFileType)]
  }

  // UnitSweepConfig: the timeout is a float and is kept as a real.

  datatype UnitSweepConfig = UnitSweepConfig(
    startUnit: int, lastUnit: int, command: string, startRegister: int, numberOfRegisters: int, timeout: real)

  const DefaultUnitSweepConfig := UnitSweepConfig(1, 255, Holding, 0, 1, 0.2)

  function UnitSweepRecord(c: UnitSweepConfig): (r: Record)
    ensures r.Keys == {"start_unit", "last_unit", "command", "start_register", "number_of_registers", "timeout"}
  {
    map["start_unit" := IntV(c.startUnit), "last_unit" := IntV(c.lastUnit), "command" := StrV(c.command),
        "start_register" := IntV(c.startRegister), "number_of_registers" := IntV(c.numberOfRegisters),
        "timeout" := RealV(c.timeout)]
  }

  /** A fresh installation (nothing saved) loads every configuration at its defaults,
      and the defaults are what the dataclasses declare. */
  lemma DefaultsLoaded()
    ensures FromDict(ModbusRecord(DefaultModbusConfig), map[]) == ModbusRecord(DefaultModbusConfig)
    ensures ModbusRecord(DefaultModbusConfig)["port"] == IntV(502)
    ensures FromDict(ReadRecord(DefaultReadConfig), map[]) == ReadRecord(DefaultReadConfig)
    ensures FromDict(WriteRecord(DefaultWriteConfig), map[]) == WriteRecord(DefaultWriteConfig)
    ensures WriteRecord(DefaultWriteConfig)["format"] == StrV("UINT16")
    ensures FromDict(ExportRecord(DefaultExportConfig), map[]) == ExportRecord(DefaultExportConfig)
    ensures FromDict(UnitSweepRecord(DefaultUnitSweepConfig), map[]) == UnitSweepRecord(DefaultUnitSweepConfig)
  {
    FromDictEmpty(ModbusRecord(DefaultModbusConfig));
    FromDictEmpty(ReadRecord(DefaultReadConfig));
    FromDictEmpty(WriteRecord(DefaultWriteConfig));
    FromDictEmpty(ExportRecord(DefaultExportConfig));
    FromDictEmpty(UnitSweepRecord(DefaultUnitSweepConfig));
  }

  /** The default sweep range is ordered. */
  lemma UnitSweepDefaultsOrdered()
    ensures DefaultUnitSweepConfig.startUnit < DefaultUnitSweepConfig.lastUnit
  {
  }

  // ---------------------------------------------------------------------------
  // Table contents
  // ---------------------------------------------------------------------------

  /** One entry of TableContents.rows: normally a list of cells, but the unit
      sweep also appends bare strings to the list. */
  datatype RowItem = Cells(cells: seq<string>) | Line(text: string)

  datatype TableContents = TableContents(header: Option<seq<string>>, rows: seq<RowItem>)
}
