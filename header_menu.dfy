/** The connection header: IP validation and the F-key toggles and prompts that
    edit the Modbus connection settings. */
module HeaderMenus {
  import opened PyFormat
  import opened Keys
  import opened Definitions
  import opened TextInput

  // ---------------------------------------------------------------------------
  // validate_ip
  // ---------------------------------------------------------------------------

  /** x.isdigit() for ASCII text: non-empty and decimal digits only. */
  predicate IsDecimal(x: string)
  {
    |x| >= 1 && forall i :: 0 <= i < |x| ==> '0' <= x[i] <= '9'
  }

  /** One dotted field: digits whose value int() reads as at most 255. */
  predicate Octet(x: string)
  {
    IsDecimal(x) && ValueOf(x, 10) <= 255
  }

  /** The rule validate_ip implements: four dot-separated fields, each an octet. */
  predicate ValidIp(s: string)
  {
    var a := Split(s, '.');
    |a| == 4 && forall i :: 0 <= i < 4 ==> Octet(a[i])
  }

  /** validate_ip(s): split on '.', then check the fields one by one. */
  method ValidateIp(s: string) returns (ok: bool)
    ensures ok == ValidIp(s)
  {
    var a := Split(s, '.');
    if |a| != 4 {
      return false;
    }
    var k := 0;
    while k < |a|
      invariant 0 <= k <= 4
      invariant forall i :: 0 <= i < k ==> Octet(a[i])
    {
      var x := a[k];
      if !IsDecimal(x) {
        return false;
      }
      var i := ValueOf(x, 10);
      if i < 0 || i > 255 {
        return false;
      }
      k := k + 1;
    }
    return true;
  }

  /** str(n) is a decimal digit string that int() reads back as n. */
  lemma DecDecimal(n: nat)
    ensures IsDecimal(Dec(n)) && ValueOf(Dec(n), 10) == n && '.' !in Dec(n)
  {
    var d := Dec(n);
    DigitsRoundTrip(n, 10);
    forall i | 0 <= i < |d|
      ensures '0' <= d[i] <= '9'
    {
      assert IsDigitIn(d[i], 10);
    }
  }

  /** A leading zero does not change the value int() reads. */
  lemma {:induction false} LeadingZero(x: string)
    ensures ValueOf("0" + x, 10) == ValueOf(x, 10)
    ensures IsDecimal(x) ==> IsDecimal("0" + x)
    ensures '.' !in x ==> '.' !in "0" + x
    decreases |x|
  {
    var y := "0" + x;
    assert forall i :: 1 <= i < |y| ==> y[i] == x[i - 1];
    if x == [] {
      assert y[..|y| - 1] == [];
    } else {
      assert y[..|y| - 1] == "0" + x[..|x| - 1] && y[|y| - 1] == x[|x| - 1];
      LeadingZero(x[..|x| - 1]);
    }
  }

  /** Every dotted quad of numbers 0 to 255 is accepted. */
  lemma DottedQuadValid(a: nat, b: nat, c: nat, d: nat)
    requires a <= 255 && b <= 255 && c <= 255 && d <= 255
    ensures ValidIp(Join([Dec(a), Dec(b), Dec(c), Dec(d)], "."))
  {
    DecDecimal(a);
    DecDecimal(b);
    DecDecimal(c);
    DecDecimal(d);
    JoinSplit([Dec(a), Dec(b), Dec(c), Dec(d)], '.');
  }

  /** An accepted address is four octets joined by dots, and nothing else. */
  lemma ValidIpShape(s: string)
    requires ValidIp(s)
    ensures s == Join(Split(s, '.'), ".")
    ensures forall i :: 0 <= i < 4 ==> Octet(Split(s, '.')[i]) && '.' !in Split(s, '.')[i]
  {
    SplitJoin(s, '.');
    SplitFields(s, '.');
  }

  /** Leading zeros are accepted, since int() ignores them. */
  lemma LeadingZerosValid(a: nat, b: nat, c: nat, d: nat)
    requires a <= 255 && b <= 255 && c <= 255 && d <= 255
    ensures ValidIp(Join(["0" + Dec(a), Dec(b), Dec(c), Dec(d)], "."))
  {
    DecDecimal(a);
    DecDecimal(b);
    DecDecimal(c);
    DecDecimal(d);
    LeadingZero(Dec(a));
    JoinSplit(["0" + Dec(a), Dec(b), Dec(c), Dec(d)], '.');
  }

  /** A field over 255, three fields, five fields or an empty field are refused. */
  lemma InvalidIps(a: nat, b: nat, c: nat, d: nat)
    ensures a > 255 ==> !ValidIp(Join([Dec(a), Dec(b), Dec(c), Dec(d)], "."))
    ensures !ValidIp(Join([Dec(b), Dec(c), Dec(d)], "."))
    ensures !ValidIp(Join([Dec(a), Dec(b), Dec(c), Dec(d), "0"], "."))
    ensures !ValidIp(Join([Dec(b), "", Dec(c), Dec(d)], "."))
  {
    DecDecimal(a);
    DecDecimal(b);
    DecDecimal(c);
    DecDecimal(d);
    JoinSplit([Dec(a), Dec(b), Dec(c), Dec(d)], '.');
    JoinSplit([Dec(b), Dec(c), Dec(d)], '.');
    JoinSplit([Dec(a), Dec(b), Dec(c), Dec(d), "0"], '.');
    JoinSplit([Dec(b), "", Dec(c), Dec(d)], '.');
  }

  // ---------------------------------------------------------------------------
  // The toggles
  // ---------------------------------------------------------------------------

  /** switch_protocol: RTU becomes TCP, anything else RTU. */
  function SwitchedProtocol(mode: string): string
  {
    if mode == Rtu then Tcp else Rtu
  }

  /** swap_wordorder and swap_byteorder: big endian becomes little, anything else big. */
  function SwappedOrder(order: string): string
  {
    if order == BigEndian then LittleEndian else BigEndian
  }

  /** swap_parity: N, O, E in turn; anything else goes back to N. */
  function SwappedParity(parity: string): string
  {
    if parity == "N" then "O" else if parity == "O" then "E" else "N"
  }

  /** swap_bytesize: 7 becomes 8, anything else 7. */
  function SwappedBytesize(bytesize: int): int
  {
    if bytesize == 7 then 8 else 7
  }

  /** swap_stopbits: 0 becomes 1, anything else 0. */
  function SwappedStopbits(stopbits: int): int
  {
    if stopbits == 0 then 1 else 0
  }

  /** Each two-way toggle lands in its pair and undoes itself there. */
  lemma TogglesInvolutive(mode: string, order: string, bytesize: int, stopbits: int)
    ensures SwitchedProtocol(mode) in {Tcp, Rtu}
    ensures mode in {Tcp, Rtu} ==> SwitchedProtocol(SwitchedProtocol(mode)) == mode && SwitchedProtocol(mode) != mode
    ensures SwappedOrder(order) in {BigEndian, LittleEndian}
    ensures order in {BigEndian, LittleEndian} ==> SwappedOrder(SwappedOrder(order)) == order && SwappedOrder(order) != order
    ensures SwappedBytesize(bytesize) in {7, 8}
    ensures bytesize in {7, 8} ==> SwappedBytesize(SwappedBytesize(bytesize)) == bytesize
    ensures SwappedStopbits(stopbits) in {0, 1}
    ensures stopbits in {0, 1} ==> SwappedStopbits(SwappedStopbits(stopbits)) == stopbits
  {
  }

  /** Parity cycles through N, O, E with period three; any other value joins the cycle at N. */
  lemma ParityCycle(parity: string)
    ensures SwappedParity("N") == "O" && SwappedParity("O") == "E" && SwappedParity("E") == "N"
    ensures SwappedParity(parity) in {"N", "O", "E"}
    ensures parity in {"N", "O", "E"} ==> SwappedParity(SwappedParity(SwappedParity(parity))) == parity
    ensures parity in {"N", "O", "E"} ==> SwappedParity(parity) != parity && SwappedParity(SwappedParity(parity)) != parity
    ensures parity !in {"N", "O"} ==> SwappedParity(parity) == "N"
  {
  }

  // ---------------------------------------------------------------------------
  // Prompts
  // ---------------------------------------------------------------------------

  /** get_ip_address: the typed text is kept only when it is a valid address. */
  function StoreIp(c: ModbusConfig, text: string): ModbusConfig
  {
    if ValidIp(text) then c.(ip := text) else c
  }

  /** get_tcp_port: int(text) is kept only when 0 < port < 65535. */
  function StorePort(c: ModbusConfig, e: Entry): ModbusConfig
  {
    if IntIn(e, 1, 65535) then c.(port := e.asInt.value) else c
  }

  /** Settings every toggle and prompt keeps in range once they are in range:
      a known protocol, byte and word order, parity, byte size and stop bits,
      and a usable TCP port. */
  predicate Settled(c: ModbusConfig)
  {
    c.mode in {Tcp, Rtu} && c.wordOrder in {BigEndian, LittleEndian} && c.byteOrder in {BigEndian, LittleEndian}
    && c.parity in {"N", "O", "E"} && c.bytesize in {7, 8} && c.stopbits in {0, 1} && 0 < c.port < 65535
  }

  /** The dataclass defaults are settled. */
  lemma DefaultSettled()
    ensures Settled(DefaultModbusConfig)
  {
  }

  /** After a prompt the address is valid whenever it was before, and the port
      is in range whenever it was before; a refused entry changes nothing. */
  lemma PromptsKeepValid(c: ModbusConfig, text: string, e: Entry)
    ensures ValidIp(c.ip) ==> ValidIp(StoreIp(c, text).ip)
    ensures StoreIp(c, text) == c || (ValidIp(text) && StoreIp(c, text) == c.(ip := text))
    ensures Settled(c) ==> Settled(StorePort(c, e))
    ensures StorePort(c, e) == c <==> !IntIn(e, 1, 65535) || e.asInt.value == c.port
  {
  }

  /** What the prompts opened from the header return: the typed address, the typed
      port, and the selection windows' choices (None when cancelled). */
  datatype Responses = Responses(ip: string, port: Entry, interface: Option<string>, baudRate: Option<int>)

  class HeaderMenu {
    var configuration: ModbusConfig

    /** The configuration comes from load_modbus_config. */
    constructor (configuration: ModbusConfig)
      ensures this.configuration == configuration
    {
      this.configuration := configuration;
    }

    method SwitchProtocol()
      modifies this
      ensures configuration == old(configuration).(mode := SwitchedProtocol(old(configuration).mode))
    {
      if configuration.mode == Rtu {
        configuration := configuration.(mode := Tcp);
      } else {
        configuration := configuration.(mode := Rtu);
      }
    }

    method GetIpAddress(ipAddress: string)
      modifies this
      ensures configuration == StoreIp(old(configuration), ipAddress)
    {
      var ok := ValidateIp(ipAddress);
      if ok {
        configuration := configuration.(ip := ipAddress);
      }
    }

    method GetTcpPort(port: Entry)
      modifies this
      ensures configuration == StorePort(old(configuration), port)
    {
      if port.asInt.Some? && 0 < port.asInt.value < 65535 {
        configuration := configuration.(port := port.asInt.value);
      }
    }

    method SwapWordorder()
      modifies this
      ensures configuration == old(configuration).(wordOrder := SwappedOrder(old(configuration).wordOrder))
    {
      if configuration.wordOrder == BigEndian {
        configuration := configuration.(wordOrder := LittleEndian);
      } else {
        configuration := configuration.(wordOrder := BigEndian);
      }
    }

    method SwapByteorder()
      modifies this
      ensures configuration == old(configuration).(byteOrder := SwappedOrder(old(configuration).byteOrder))
    {
      if configuration.byteOrder == BigEndian {
        configuration := configuration.(byteOrder := LittleEndian);
      } else {
        configuration := configuration.(byteOrder := BigEndian);
      }
    }

    /** get_interface: the selection window's choice, if any. */
    method GetInterface(selection: Option<string>)
      modifies this
      ensures configuration == if selection.Some? then old(configuration).(interface := selection.value) else old(configuration)
    {
      if selection.Some? {
        configuration := configuration.(interface := selection.value);
      }
    }

    /** get_baud_rate: the selection window's choice, if any. */
    method GetBaudRate(selection: Option<int>)
      modifies this
      ensures configuration == if selection.Some? then old(configuration).(baudRate := selection.value) else old(configuration)
    {
      if selection.Some? {
        configuration := configuration.(baudRate := selection.value);
      }
    }

    method SwapParity()
      modifies this
      ensures configuration == old(configuration).(parity := SwappedParity(old(configuration).parity))
    {
      if configuration.parity == "N" {
        configuration := configuration.(parity := "O");
      } else if configuration.parity == "O" {
        configuration := configuration.(parity := "E");
      } else {
        configuration := configuration.(parity := "N");
      }
    }

    method SwapBytesize()
      modifies this
      ensures configuration == old(configuration).(bytesize := SwappedBytesize(old(configuration).bytesize))
    {
      if configuration.bytesize == 7 {
        configuration := configuration.(bytesize := 8);
      } else {
        configuration := configuration.(bytesize := 7);
      }
    }

    method SwapStopbits()
      modifies this
      ensures configuration == old(configuration).(stopbits := SwappedStopbits(old(configuration).stopbits))
    {
      if configuration.stopbits == 0 {
        configuration := configuration.(stopbits := 1);
      } else {
        configuration := configuration.(stopbits := 0);
      }
    }

    /** check_navigate: F2 switches the protocol; F8 and F9 swap the byte and word
        order and are the only keys reported as handled; F3 and F4 prompt for the
        address and port over TCP, for the interface and baud rate over RTU; F5 to
        F7 toggle parity, byte size and stop bits over RTU only. */
    method CheckNavigate(key: Key, answers: Responses) returns (handled: bool)
      modifies this
      ensures handled <==> key == F(8) || key == F(9)
      ensures key == F(2) ==> configuration == old(configuration).(mode := SwitchedProtocol(old(configuration).mode))
      ensures key == F(8) ==> configuration == old(configuration).(byteOrder := SwappedOrder(old(configuration).byteOrder))
      ensures key == F(9) ==> configuration == old(configuration).(wordOrder := SwappedOrder(old(configuration).wordOrder))
      ensures old(configuration).mode == Tcp ==>
        && (key == F(3) ==> configuration == StoreIp(old(configuration), answers.ip))
        && (key == F(4) ==> configuration == StorePort(old(configuration), answers.port))
        && (key in {F(5), F(6), F(7)} ==> configuration == old(configuration))
      ensures old(configuration).mode != Tcp ==>
        && (key == F(3) ==> configuration == if answers.interface.Some? then old(configuration).(interface := answers.interface.value) else old(configuration))
        && (key == F(4) ==> configuration == if answers.baudRate.Some? then old(configuration).(baudRate := answers.baudRate.value) else old(configuration))
        && (key == F(5) ==> configuration == old(configuration).(parity := SwappedParity(old(configuration).parity)))
        && (key == F(6) ==> configuration == old(configuration).(bytesize := SwappedBytesize(old(configuration).bytesize)))
        && (key == F(7) ==> configuration == old(configuration).(stopbits := SwappedStopbits(old(configuration).stopbits)))
      ensures key !in {F(2), F(3), F(4), F(5), F(6), F(7), F(8), F(9)} ==> configuration == old(configuration)
      ensures Settled(old(configuration)) ==> Settled(configuration)
    {
      if key == F(2) {
        SwitchProtocol();
      }
      if key == F(8) {
        SwapByteorder();
        return true;
      }
      if key == F(9) {
        SwapWordorder();
        return true;
      }
      if configuration.mode == Tcp {
        if key == F(3) {
          GetIpAddress(answers.ip);
        }
        if key == F(4) {
          GetTcpPort(answers.port);
        }
        return false;
      }
      if key == F(3) {
        GetInterface(answers.interface);
      }
      if key == F(4) {
        GetBaudRate(answers.baudRate);
      }
      if key == F(5) {
        SwapParity();
      }
      if key == F(6) {
        SwapBytesize();
      }
      if key == F(7) {
        SwapStopbits();
      }
      return false;
    }
  }
}
