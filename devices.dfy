/**
 * The records the two enumeration sources hand to the discovery pipeline,
 * and the `Controller` entity it produces.
 */
module Devices {
  import opened Wrappers

  type u8 = x: int | 0 <= x < 0x100
  type u16 = x: int | 0 <= x < 0x1_0000

  /** Charging state of a controller (the variants the discovery core produces). */
  datatype Status = Unknown | Charging

  /**
   * An `anyhow::Error` from a foreign call (HID access, report parsing, udev,
   * Bluetooth): only its message is carried.
   */
  datatype Error = Error(message: string)

  /**
   * One entry of `HidApi::device_list()`: identifiers, the optional serial
   * number and the USB interface number (-1 when the record is not a USB interface).
   */
  datatype HidDevice = HidDevice(
    vendorId: u16,
    productId: u16,
    serialNumber: Option<string>,
    interfaceNumber: int)

  /** One entry of the udev `input` subsystem scan, with its `gip` token. */
  datatype UdevDevice = UdevDevice(vendorId: u16, productId: u16, gip: string)

  /** The controller entity returned by discovery; its fields are updated in place. */
  class Controller {
    var name: string
    var vendorId: u16
    var productId: u16
    var capacity: u8
    var status: Status
    var gip: string
    var isFake: bool

    /** `Controller::from_udev`: identifiers and gip from the record, the rest as given. */
    constructor FromUdev(device: UdevDevice, name: string, capacity: u8, status: Status, isFake: bool)
      ensures this.vendorId == device.vendorId && this.productId == device.productId
      ensures this.gip == device.gip
      ensures this.name == name && this.capacity == capacity && this.status == status
      ensures this.isFake == isFake
    {
      this.name := name;
      this.vendorId := device.vendorId;
      this.productId := device.productId;
      this.capacity := capacity;
      this.status := status;
      this.gip := device.gip;
      this.isFake := isFake;
    }
  }
}
