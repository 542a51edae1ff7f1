/**
 * The reboot button entity of the Huawei mesh router integration: how its
 * display name and its unique id are built, and which device it is bound to.
 *
 * The coordinator is reduced to the three strings the entity reads from it:
 * its own unique id, the primary router's serial number, and the primary
 * router's display name.
 */
module Button {
  import opened Wrappers
  import opened Ascii

  /** Label appended to the device name in the button's display name. */
  const FUNCTION_DISPLAYED_NAME_REBOOT: string := "Reboot"
  /** Function id placed in the middle of the button's unique id. */
  const FUNCTION_UID_REBOOT: string := "button_reboot"

  /** The action a button asks the coordinator to execute; reboot is the only one, so every button's action is fixed by this type. */
  datatype Action = Reboot

  /** The parts of the update coordinator that naming depends on. */
  datatype Coordinator = Coordinator(uniqueId: string, serialNumber: string, primaryRouterName: string)

  /** A satellite router discovered on the mesh. */
  datatype ConnectedDevice = ConnectedDevice(mac: string, name: string)

  /**
   * A button entity as it stands after construction; `deviceMac == None`
   * means the primary router. Nothing here changes after construction.
   */
  datatype Button = Button(action: Action, deviceMac: Option<string>, name: string, uniqueId: string)

  /** `_generate_button_name`: the device name, one space, the function label. */
  function ButtonName(functionLabel: string, deviceName: string): (r: string)
    ensures |r| == |deviceName| + 1 + |functionLabel|
    ensures r[..|deviceName|] == deviceName
    ensures r[|deviceName|] == ' '
    ensures r[|deviceName| + 1..] == functionLabel
  {
    deviceName + " " + functionLabel
  }

  /** With the label fixed, the display name determines the device name. */
  lemma ButtonNameDeterminesDevice(functionLabel: string, d1: string, d2: string)
    ensures ButtonName(functionLabel, d1) == ButtonName(functionLabel, d2) <==> d1 == d2
  {
    if ButtonName(functionLabel, d1) == ButtonName(functionLabel, d2) {
      assert |d1| == |d2|;
      assert d1 == ButtonName(functionLabel, d1)[..|d1|];
    }
  }

  /** Python truthiness of an optional MAC: `None` and `""` are both false. */
  predicate IsFalsy(mac: Option<string>) {
    mac.None? || mac.value == ""
  }

  /** The part of the unique id that identifies the device, before lowering. */
  function UniqueIdSuffix(c: Coordinator, deviceMac: Option<string>): (suffix: string) {
    if IsFalsy(deviceMac) then c.serialNumber else deviceMac.value
  }

  /**
   * `_generate_button_unique_id`: coordinator unique id, `_`, function id,
   * `_`, then the lowered serial number (no MAC) or the lowered MAC. Only the
   * last part is lowered.
   */
  function ButtonUniqueId(c: Coordinator, functionId: string, deviceMac: Option<string>): (r: string)
    ensures |r| == |c.uniqueId| + 1 + |functionId| + 1 + |UniqueIdSuffix(c, deviceMac)|
    ensures r[..|c.uniqueId|] == c.uniqueId
    ensures r[|c.uniqueId|] == '_'
    ensures r[|c.uniqueId| + 1..|c.uniqueId| + 1 + |functionId|] == functionId
    ensures r[|c.uniqueId| + 1 + |functionId|] == '_'
    ensures IsFalsy(deviceMac) ==> r[|c.uniqueId| + |functionId| + 2..] == Lower(c.serialNumber)
    ensures !IsFalsy(deviceMac) ==> r[|c.uniqueId| + |functionId| + 2..] == Lower(deviceMac.value)
    ensures IsLowercase(r[|c.uniqueId| + |functionId| + 2..])
  {
    var suffix := UniqueIdSuffix(c, deviceMac);
    var r := c.uniqueId + "_" + functionId + "_" + Lower(suffix);
    assert r[|c.uniqueId| + |functionId| + 2..] == Lower(suffix);
    r
  }

  /**
   * For one coordinator and one function id, two unique ids agree exactly
   * when their lowered suffixes agree.
   */
  lemma UniqueIdInjective(c: Coordinator, functionId: string, m1: Option<string>, m2: Option<string>)
    ensures ButtonUniqueId(c, functionId, m1) == ButtonUniqueId(c, functionId, m2)
        <==> Lower(UniqueIdSuffix(c, m1)) == Lower(UniqueIdSuffix(c, m2))
  {
    var k := |c.uniqueId| + |functionId| + 2;
    var r1, r2 := ButtonUniqueId(c, functionId, m1), ButtonUniqueId(c, functionId, m2);
    assert r1[k..] == Lower(UniqueIdSuffix(c, m1));
    assert r2[k..] == Lower(UniqueIdSuffix(c, m2));
    if Lower(UniqueIdSuffix(c, m1)) == Lower(UniqueIdSuffix(c, m2)) {
      assert r1 == r1[..k] + r1[k..];
      assert r2 == r2[..k] + r2[k..];
      assert r1[..k] == r2[..k];
    }
  }

  /**
   * `HuaweiRebootButton.__init__`: a reboot button for `device`, or for the
   * primary router when `device` is `None`.
   */
  function NewRebootButton(c: Coordinator, device: Option<ConnectedDevice>): (b: Button)
    ensures device.None? ==> b.deviceMac == None
    ensures device.Some? ==> b.deviceMac == Some(device.value.mac)
    ensures device.None? ==> b.name == c.primaryRouterName + " Reboot"
    ensures device.Some? ==> b.name == device.value.name + " Reboot"
  {
    var mac := if device.Some? then Some(device.value.mac) else None;
    var deviceName := if device.Some? then device.value.name else c.primaryRouterName;
    Button(Reboot, mac, ButtonName(FUNCTION_DISPLAYED_NAME_REBOOT, deviceName),
           ButtonUniqueId(c, FUNCTION_UID_REBOOT, mac))
  }

  lemma RebootInfix(prefix: string, tail: string)
    ensures prefix + "_" + FUNCTION_UID_REBOOT + "_" + tail == prefix + "_button_reboot_" + tail
  {
    assert "_" + FUNCTION_UID_REBOOT + "_" == "_button_reboot_";
    assert prefix + "_" + FUNCTION_UID_REBOOT + "_" + tail == prefix + ("_" + FUNCTION_UID_REBOOT + "_") + tail;
  }

  /** The primary router's button: no MAC, "<router name> Reboot", id from the serial number. */
  lemma PrimaryRebootButton(c: Coordinator)
    ensures NewRebootButton(c, None).deviceMac == None
    ensures NewRebootButton(c, None).name == c.primaryRouterName + " Reboot"
    ensures NewRebootButton(c, None).uniqueId == c.uniqueId + "_button_reboot_" + Lower(c.serialNumber)
  {
    RebootInfix(c.uniqueId, Lower(c.serialNumber));
  }

  /** A satellite's button: bound to its MAC, "<device name> Reboot", id from the lowered MAC. */
  lemma SatelliteRebootButton(c: Coordinator, d: ConnectedDevice)
    requires d.mac != ""
    ensures NewRebootButton(c, Some(d)).deviceMac == Some(d.mac)
    ensures NewRebootButton(c, Some(d)).name == d.name + " Reboot"
    ensures NewRebootButton(c, Some(d)).uniqueId == c.uniqueId + "_button_reboot_" + Lower(d.mac)
  {
    RebootInfix(c.uniqueId, Lower(d.mac));
  }

  /** Two satellites get the same unique id exactly when their MACs agree up to case. */
  lemma SatelliteUniqueIdsAgreeUpToCase(c: Coordinator, d1: ConnectedDevice, d2: ConnectedDevice)
    requires d1.mac != "" && d2.mac != ""
    ensures NewRebootButton(c, Some(d1)).uniqueId == NewRebootButton(c, Some(d2)).uniqueId
        <==> Lower(d1.mac) == Lower(d2.mac)
  {
    UniqueIdInjective(c, FUNCTION_UID_REBOOT, Some(d1.mac), Some(d2.mac));
  }

  /** A satellite shares the primary router's unique id exactly when its MAC equals the serial number up to case. */
  lemma SatelliteVersusPrimaryUniqueId(c: Coordinator, d: ConnectedDevice)
    requires d.mac != ""
    ensures NewRebootButton(c, Some(d)).uniqueId == NewRebootButton(c, None).uniqueId
        <==> Lower(d.mac) == Lower(c.serialNumber)
  {
    UniqueIdInjective(c, FUNCTION_UID_REBOOT, Some(d.mac), None);
  }

  /**
   * A satellite whose MAC is the empty string is treated like the primary
   * router when its id is built, so the two buttons share one unique id.
   */
  lemma EmptyMacSharesPrimaryUniqueId(c: Coordinator, d: ConnectedDevice)
    requires d.mac == ""
    ensures NewRebootButton(c, Some(d)).deviceMac == Some("")
    ensures NewRebootButton(c, Some(d)).uniqueId == NewRebootButton(c, None).uniqueId
  {
  }
}
