/** The "Sweep IP addresses" dialog: the register window, the unit, the subnet,
    the port, the range of host addresses and the timeout. */
module IpSweepMenus {
  import opened PyFormat
  import opened TextInput
  import HeaderMenus
  import MenuBases

  /** The settings the dialog edits. definitions.py has no IpSweepConfig; these
      are the attributes the menu reads and writes. `unitId` is the one shown
      in the menu and `unit` the one get_unit_id stores. */
  datatype IpSweepConfig = IpSweepConfig(
    command: string, startRegister: int, numberOfRegisters: int, unitId: int, unit: int,
    subnet: string, port: int, startAddress: int, endAddress: int, timeout: real)

  /** The menu's label rows; row 11 starts the sweep. */
  const Labels: seq<int> := MenuBases.Rows(2, 12)

  /** The cursor starts on the start row, 11, and the status lines at row 13. */
  lemma LabelBounds()
    ensures MenuBases.MaxOf(Labels) == 11 && MenuBases.MinOf(Labels) == 2
  {
    MenuBases.RowsBounds(2, 12);
  }

  /** get_subnet's test: the text followed by ".0" must be a valid address. */
  predicate ValidSubnet(subnet: string)
  {
    HeaderMenus.ValidIp(subnet + ".0")
  }

  /** A subnet is accepted exactly when it is three dot-separated octets. */
  lemma SubnetIsThreeOctets(subnet: string)
    ensures ValidSubnet(subnet) <==>
      |Split(subnet, '.')| == 3 && forall i :: 0 <= i < 3 ==> HeaderMenus.Octet(Split(subnet, '.')[i])
  {
    SplitAppendField(subnet, '.', "0");
    assert subnet + ".0" == subnet + ['.'] + "0";
    var fields := Split(subnet, '.');
    var a := Split(subnet + ".0", '.');
    assert a == fields + ["0"];
    assert HeaderMenus.Octet(a[|a| - 1]) by {
      assert "0"[..0] == [];
    }
    assert forall i :: 0 <= i < |fields| ==> a[i] == fields[i];
  }

  /** The settings the setters keep: a host range with the start below the end. */
  predicate Ordered(c: IpSweepConfig)
  {
    0 < c.startAddress < c.endAddress < 256
  }

  function StoreStartRegister(c: IpSweepConfig, e: Entry): IpSweepConfig
  {
    if NumberIn(e, 0, 65535) then c.(startRegister := e.asNumber.value) else c
  }

  function StoreNumber(c: IpSweepConfig, e: Entry): IpSweepConfig
  {
    if NumberIn(e, 0, 65535) then c.(numberOfRegisters := e.asNumber.value) else c
  }

  /** get_unit_id stores into `unit`, not into the displayed `unitId`. */
  function StoreUnit(c: IpSweepConfig, e: Entry): IpSweepConfig
  {
    if NumberIn(e, 0, 256) then c.(unit := e.asNumber.value) else c
  }

  function StoreSubnet(c: IpSweepConfig, subnet: string): IpSweepConfig
  {
    if ValidSubnet(subnet) then c.(subnet := subnet) else c
  }

  function StorePort(c: IpSweepConfig, e: Entry): IpSweepConfig
  {
    if NumberIn(e, 0, 65535) then c.(port := e.asNumber.value) else c
  }

  function StoreStartAddress(c: IpSweepConfig, e: Entry): IpSweepConfig
  {
    if NumberIn(e, 1, 256) && e.asNumber.value < c.endAddress then c.(startAddress := e.asNumber.value) else c
  }

  function StoreEndAddress(c: IpSweepConfig, e: Entry): IpSweepConfig
  {
    if NumberIn(e, 1, 256) && c.startAddress < e.asNumber.value then c.(endAddress := e.asNumber.value) else c
  }

  function StoreTimeout(c: IpSweepConfig, e: Entry): IpSweepConfig
  {
    if e.asReal.Some? && !(60.0 < e.asReal.value) then c.(timeout := e.asReal.value) else c
  }

  /** The integer setters store exactly the values of their range (0 included,
      65535 and 256 excluded) and nothing else; the unit goes to `unit` only. */
  lemma IntegerSettersExact(c: IpSweepConfig, e: Entry)
    ensures StoreStartRegister(c, e) != c ==> NumberIn(e, 0, 65535) && StoreStartRegister(c, e) == c.(startRegister := e.asNumber.value)
    ensures StoreNumber(c, e) != c ==> NumberIn(e, 0, 65535) && StoreNumber(c, e) == c.(numberOfRegisters := e.asNumber.value)
    ensures StorePort(c, e) != c ==> NumberIn(e, 0, 65535) && StorePort(c, e) == c.(port := e.asNumber.value)
    ensures StoreUnit(c, e) != c ==> NumberIn(e, 0, 256) && StoreUnit(c, e) == c.(unit := e.asNumber.value)
    ensures StoreUnit(c, e).unitId == c.unitId
    ensures e.asNumber == Some(0) ==> StoreNumber(c, e).numberOfRegisters == 0 && StoreUnit(c, e).unit == 0
    ensures e.asNumber == Some(65535) ==> StorePort(c, e) == c && StoreStartRegister(c, e) == c
  {
  }

  /** Each setter keeps the host range ordered and a valid subnet valid. */
  lemma SettersKeepOrdered(c: IpSweepConfig, e: Entry, subnet: string, selection: Option<string>)
    requires Ordered(c)
    ensures Ordered(StoreStartRegister(c, e)) && Ordered(StoreNumber(c, e)) && Ordered(StoreUnit(c, e))
    ensures Ordered(StoreSubnet(c, subnet)) && Ordered(StorePort(c, e)) && Ordered(StoreTimeout(c, e))
    ensures Ordered(StoreStartAddress(c, e)) && Ordered(StoreEndAddress(c, e))
    ensures selection.Some? ==> Ordered(c.(command := selection.value))
    ensures ValidSubnet(c.subnet) ==> ValidSubnet(StoreSubnet(c, subnet).subnet)
  {
  }

  class IpSweepMenu {
    var configuration: IpSweepConfig

    /** The settings come from load_ip_sweep_config, which is not part of this model. */
    constructor (configuration: IpSweepConfig)
      ensures this.configuration == configuration
    {
      this.configuration := configuration;
    }

    /** switch_command: only a selection changes the command. */
    method SwitchCommand(selection: Option<string>)
      modifies this
      ensures configuration == if selection.Some? then old(configuration).(command := selection.value) else old(configuration)
    {
      if selection.Some? {
        configuration := configuration.(command := selection.value);
      }
    }

    method GetStartRegister(e: Entry)
      modifies this
      ensures configuration == StoreStartRegister(old(configuration), e)
    {
      var v := e.asNumber;
      if v.Some? && !(0 <= v.value < 65535) {
        v := None;
      }
      if v.Some? {
        configuration := configuration.(startRegister := v.value);
      }
    }

    method GetNumberOfRegisters(e: Entry)
      modifies this
      ensures configuration == StoreNumber(old(configuration), e)
    {
      var v := e.asNumber;
      if v.Some? && !(0 <= v.value < 65535) {
        v := None;
      }
      if v.Some? {
        configuration := configuration.(numberOfRegisters := v.value);
      }
    }

    method GetUnitId(e: Entry)
      modifies this
      ensures configuration == StoreUnit(old(configuration), e)
    {
      var v := e.asNumber;
      if v.Some? && !(0 <= v.value <= 255) {
        v := None;
      }
      if v.Some? {
        configuration := configuration.(unit := v.value);
      }
    }

    method GetSubnet(subnet: string)
      modifies this
      ensures configuration == StoreSubnet(old(configuration), subnet)
    {
      var ok := HeaderMenus.ValidateIp(subnet + ".0");
      if ok {
        configuration := configuration.(subnet := subnet);
      }
    }

    method GetPort(e: Entry)
      modifies this
      ensures configuration == StorePort(old(configuration), e)
    {
      var v := e.asNumber;
      if v.Some? && !(0 <= v.value < 65535) {
        v := None;
      }
      if v.Some? {
        configuration := configuration.(port := v.value);
      }
    }

    method GetStartAddress(e: Entry)
      modifies this
      ensures configuration == StoreStartAddress(old(configuration), e)
    {
      var v := e.asNumber;
      if v.Some? && !(0 < v.value < 256) {
        v := None;
      }
      if v.Some? {
        if configuration.endAddress <= v.value {
          return;
        }
        configuration := configuration.(startAddress := v.value);
      }
    }

    method GetEndAddress(e: Entry)
      modifies this
      ensures configuration == StoreEndAddress(old(configuration), e)
    {
      var v := e.asNumber;
      if v.Some? && !(0 < v.value < 256) {
        v := None;
      }
      if v.Some? {
        if v.value <= configuration.startAddress {
          return;
        }
        configuration := configuration.(endAddress := v.value);
      }
    }

    method GetTimeout(e: Entry)
      modifies this
      ensures configuration == StoreTimeout(old(configuration), e)
    {
      var t := e.asReal;
      if t.Some? {
        if 60.0 < t.value {
          return;
        }
        configuration := configuration.(timeout := t.value);
      }
    }
  }
}
