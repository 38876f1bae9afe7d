/** Xbox classification, heuristic status defaults and the battery fallback chain. */
module Xbox {
  import opened Wrappers
  import opened Devices

  const MS_VENDOR_ID: u16 := 0x045e

  const XBOX_ONE_S_CONTROLLER_USB_PRODUCT_ID: u16 := 0x02ea
  const XBOX_ONE_S_CONTROLLER_BT_PRODUCT_ID: u16 := 0x02df
  /** The One S controller after the firmware update that aligned it with Series X/S. */
  const XBOX_ONE_S_LATEST_FW_PRODUCT_ID: u16 := 0x0b20
  const XBOX_WIRELESS_CONTROLLER_USB_PRODUCT_ID: u16 := 0x0b12
  const XBOX_WIRELESS_CONTROLLER_BT_PRODUCT_ID: u16 := 0x0b13
  const XBOX_WIRELESS_ELITE_CONTROLLER_USB_PRODUCT_ID: u16 := 0x0b00
  const XBOX_WIRELESS_ELITE_CONTROLLER_BT_PRODUCT_ID: u16 := 0x0b05
  const XBOX_WIRELESS_ELITE_CONTROLLER_BTLE_PRODUCT_ID: u16 := 0x0b22
  const XBOX_ACCESSORY_PID: u16 := 0x02fe

  /** The model string the UPower lookup searches for. */
  const UPOWER_XBOX_MODEL: string := "Microsoft Xbox Controller"

  /** Every product id the name table knows. */
  const KNOWN_PRODUCT_IDS: set<u16> := {
    XBOX_ONE_S_CONTROLLER_USB_PRODUCT_ID, XBOX_ONE_S_CONTROLLER_BT_PRODUCT_ID,
    XBOX_ONE_S_LATEST_FW_PRODUCT_ID, XBOX_WIRELESS_CONTROLLER_USB_PRODUCT_ID,
    XBOX_WIRELESS_CONTROLLER_BT_PRODUCT_ID, XBOX_WIRELESS_ELITE_CONTROLLER_USB_PRODUCT_ID,
    XBOX_WIRELESS_ELITE_CONTROLLER_BT_PRODUCT_ID, XBOX_WIRELESS_ELITE_CONTROLLER_BTLE_PRODUCT_ID,
    XBOX_ACCESSORY_PID }

  /** `get_xbox_controller_name`: the display name for a product id. */
  function ControllerName(productId: u16): (name: string)
    ensures name == "Xbox One S" <==> productId in {0x02ea, 0x02df, 0x0b20}
    ensures name == "Xbox Series X/S" <==> productId in {0x0b12, 0x0b13}
    ensures name == "Xbox Elite 2" <==> productId in {0x0b00, 0x0b05, 0x0b22}
    ensures name == "Xbox Accessory" <==> productId == 0x02fe
    ensures name == "Xbox Unknown" <==> productId !in KNOWN_PRODUCT_IDS
  {
    match productId
    case XBOX_ONE_S_CONTROLLER_USB_PRODUCT_ID => "Xbox One S"
    case XBOX_ONE_S_CONTROLLER_BT_PRODUCT_ID => "Xbox One S"
    case XBOX_ONE_S_LATEST_FW_PRODUCT_ID => "Xbox One S"
    case XBOX_WIRELESS_CONTROLLER_USB_PRODUCT_ID => "Xbox Series X/S"
    case XBOX_WIRELESS_CONTROLLER_BT_PRODUCT_ID => "Xbox Series X/S"
    case XBOX_WIRELESS_ELITE_CONTROLLER_USB_PRODUCT_ID => "Xbox Elite 2"
    case XBOX_WIRELESS_ELITE_CONTROLLER_BT_PRODUCT_ID => "Xbox Elite 2"
    case XBOX_WIRELESS_ELITE_CONTROLLER_BTLE_PRODUCT_ID => "Xbox Elite 2"
    case XBOX_ACCESSORY_PID => "Xbox Accessory"
    case _ => "Xbox Unknown"
  }

  /** `is_xbox_controller`: the vendor id is Microsoft's. */
  predicate IsXboxController(vendorId: u16): (b: bool)
    ensures b <==> vendorId == 0x045e
  {
    vendorId == MS_VENDOR_ID
  }

  /**
   * The status heuristic: a Bluetooth unit reports nothing known, a USB unit
   * is taken to be plugged in, full and charging.
   */
  function HeuristicDefault(bluetooth: bool): (d: (u8, Status))
    ensures 0 <= d.0 <= 100
    ensures d == (0, Unknown) || d == (100, Charging)
    ensures d.1 == Charging <==> !bluetooth
  {
    if bluetooth then (0, Unknown) else (100, Charging)
  }

  /** `update_xbox_controller`: name from the table, capacity and status from the heuristic. */
  method UpdateXboxController(controller: Controller, bluetooth: bool)
    modifies controller`name, controller`capacity, controller`status
    ensures controller.name == ControllerName(controller.productId)
    ensures (controller.capacity, controller.status) == HeuristicDefault(bluetooth)
  {
    controller.name := ControllerName(controller.productId);
    controller.capacity := if bluetooth then 0 else 100;
    controller.status := if bluetooth then Unknown else Charging;
  }

  /** Why the UPower device list could not be obtained. */
  datatype UpowerFailure = NoSystemBus | NoUpowerProxy | EnumerateFailed

  /**
   * One object path returned by `EnumerateDevices`: whether its device proxy
   * could be built, and its `Model` and `Percentage` properties (None when
   * the property read fails).
   */
  datatype UpowerEntry = UpowerEntry(proxy: bool, model: Option<string>, percentage: Option<u8>)

  /** What the UPower service answers: the device list, or the step that failed. */
  type UpowerService = Result<seq<UpowerEntry>, UpowerFailure>

  /** The entry is the wanted model and its percentage could be read. */
  predicate Reports(entry: UpowerEntry, model: string) {
    entry.proxy && entry.model == Some(model) && entry.percentage.Some?
  }

  /** Position of the first entry that reports `model`, or `|entries|` when none does. */
  function FirstReporting(entries: seq<UpowerEntry>, model: string): (i: nat)
    ensures i <= |entries|
    ensures i < |entries| ==> Reports(entries[i], model)
    ensures forall j :: 0 <= j < i ==> !Reports(entries[j], model)
    decreases |entries|
  {
    if entries == [] then 0
    else if Reports(entries[0], model) then 0
    else 1 + FirstReporting(entries[1..], model)
  }

  /** `get_battery_percentage_from_upower`, as a value: the first reporting entry's percentage. */
  function UpowerPercentage(service: UpowerService, model: string): (p: Option<u8>)
    ensures p.Some? <==> service.Ok? && exists i :: 0 <= i < |service.value| && Reports(service.value[i], model)
    ensures p.Some? ==>
              exists i ::
                && 0 <= i < |service.value|
                && Reports(service.value[i], model)
                && p == service.value[i].percentage
                && forall j :: 0 <= j < i ==> !Reports(service.value[j], model)
  {
    match service
    case Err(_) => None
    case Ok(entries) =>
      var i := FirstReporting(entries, model);
      if i < |entries| then entries[i].percentage else None
  }

  /**
   * `get_battery_percentage_from_upower`: walk the device list in order,
   * skipping entries whose proxy or `Model` read fails and matching entries
   * whose `Percentage` read fails; return the first percentage found.
   */
  method BatteryPercentageFromUpower(service: UpowerService, model: string) returns (p: Option<u8>)
    ensures p == UpowerPercentage(service, model)
    ensures p.Some? <==> service.Ok? && exists i :: 0 <= i < |service.value| && Reports(service.value[i], model)
  {
    if service.Err? {
      return None;
    }
    var devices := service.value;
    for i := 0 to |devices|
      invariant forall j :: 0 <= j < i ==> !Reports(devices[j], model)
    {
      var entry := devices[i];
      if entry.proxy {
        if entry.model.Some? {
          if entry.model.value == model {
            if entry.percentage.Some? {
              return Some(entry.percentage.value);
            }
          }
        }
      }
    }
    return None;
  }

  /**
   * The Bluetooth step of the chain: the address lookup and then the battery
   * query; either failing makes the step report nothing.
   */
  function BluetoothProbe(address: Result<string, Error>, battery: string -> Result<u8, Error>): Option<u8> {
    match address
    case Err(_) => None
    case Ok(a) => battery(a).ToOption()
  }

  /** An ordered chain of probes: the first that reports a value wins, else `default`. */
  function FirstReported(probes: seq<Option<u8>>, default: u8): (v: u8)
    ensures (forall k :: 0 <= k < |probes| ==> probes[k].None?) ==> v == default
    ensures forall k :: 0 <= k < |probes| && probes[k].Some? && (forall j :: 0 <= j < k ==> probes[j].None?) ==>
              v == probes[k].value
    decreases |probes|
  {
    if probes == [] then default
    else if probes[0].Some? then probes[0].value
    else FirstReported(probes[1..], default)
  }

  /**
   * The capacity computed by `parse_xbox_controller_data`: the Bluetooth
   * battery if address and query both succeed, otherwise the UPower
   * percentage, otherwise 0.
   */
  function XboxCapacity(address: Result<string, Error>, battery: string -> Result<u8, Error>, upower: Option<u8>): (capacity: u8)
    ensures capacity == FirstReported([BluetoothProbe(address, battery), upower], 0)
  {
    match address
    case Ok(a) =>
      (match battery(a)
       case Ok(percentage) => percentage
       case Err(_) => upower.GetOr(0))
    case Err(_) => upower.GetOr(0)
  }

  /** The two failure points of the Bluetooth step fall back identically. */
  lemma BluetoothFailuresFallBackAlike(address: Result<string, Error>, battery: string -> Result<u8, Error>, upower: Option<u8>)
    requires address.Err? || battery(address.value).Err?
    ensures XboxCapacity(address, battery, upower) == upower.GetOr(0)
    ensures XboxCapacity(address, battery, upower) == XboxCapacity(Err(Error("")), battery, upower)
  {
  }

  /** The foreign lookups `parse_xbox_controller_data` relies on. */
  datatype XboxLookups<C> = XboxLookups(
    bluetoothAddress: HidDevice -> Result<string, Error>,
    bluetoothBattery: string -> Result<u8, Error>,
    upower: UpowerService,
    fromHidapi: (HidDevice, string, u8, Status) -> C)

  /**
   * `parse_xbox_controller_data`: never fails; the controller has the table
   * name, status Unknown and the capacity of the fallback chain.
   */
  function ParseXboxControllerData<C>(device: HidDevice, lookups: XboxLookups<C>): (r: Result<C, Error>)
    ensures r.Ok?
    ensures r.value == lookups.fromHidapi(
              device, ControllerName(device.productId),
              FirstReported([BluetoothProbe(lookups.bluetoothAddress(device), lookups.bluetoothBattery),
                             UpowerPercentage(lookups.upower, UPOWER_XBOX_MODEL)], 0),
              Unknown)
  {
    var capacity := XboxCapacity(
      lookups.bluetoothAddress(device), lookups.bluetoothBattery,
      UpowerPercentage(lookups.upower, UPOWER_XBOX_MODEL));
    var name := ControllerName(device.productId);
    Ok(lookups.fromHidapi(device, name, capacity, Unknown))
  }
}
