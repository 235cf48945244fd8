/** The Device schema: a declarative record shape with required fields and defaults. */
module DeviceModel {
  import opened Wrappers

  /** Each location subfield is independently optional. */
  datatype Location = Location(address: Option<string>, latitude: Option<string>, longitude: Option<string>)

  /** The owning customer's ObjectId and a copy of that customer's uuid. */
  datatype RegisteredWith = RegisteredWith(customerId: ObjectId, uuid: string)

  /** A stored device. The schema declares no `last_seen` path, so the value
      the controller assigns to it is not part of the stored record. */
  datatype Device = Device(
    deviceId: string,
    model: string,
    location: Location,
    status: string,
    firmwareVersion: string,
    registeredWith: RegisteredWith,
    registeredAt: nat)

  const DefaultStatus := "active"
  const DefaultFirmwareVersion := "1.0.0"

  /** Mongoose's `required` validators: a required string must be non-empty. */
  predicate Valid(d: Device) {
    d.deviceId != "" && d.model != "" && d.registeredWith.uuid != ""
  }
}
