/** The device handlers: registration, listing, update, deletion and the
    device "login" lookup, over the Device collection and the User collection. */
module DeviceController {
  import opened Wrappers
  import opened JsString
  import DeviceModel
  import UserModel
  import Store

  /** The JSON body of the register and update requests. */
  datatype DeviceBody = DeviceBody(
    deviceId: Option<string>,
    model: Option<string>,
    address: Option<string>,
    latitude: Option<string>,
    longitude: Option<string>,
    customerId: Option<ObjectId>,
    status: Option<string>,
    firmwareVersion: Option<string>)

  /** The owner as `populate('registered_with.customer_id', 'user uuid')`
      expands it. */
  datatype OwnerSummary = OwnerSummary(id: ObjectId, user: string, uuid: string)

  /** One entry of the device list: the device and its expanded owner, which
      is null when the reference no longer resolves. */
  datatype DeviceListing = DeviceListing(id: ObjectId, device: DeviceModel.Device, owner: Option<OwnerSummary>)

  /** The 400 guard shared by register and update. */
  predicate RequiredPresent(b: DeviceBody) {
    Truthy(b.deviceId) && Truthy(b.model) && b.customerId.Some?
  }

  /** The record register and update write: upper-cased id, defaults for
      missing optional fields, and the owner's id and current uuid. */
  function DeviceRecord(b: DeviceBody, owner: ObjectId, ownerUuid: string, registeredAt: nat): (d: DeviceModel.Device)
    requires RequiredPresent(b)
    ensures d.deviceId == Upper(b.deviceId.value) && d.model == b.model.value
    ensures d.registeredWith == DeviceModel.RegisteredWith(owner, ownerUuid)
    ensures d.status == (if Truthy(b.status) then b.status.value else DeviceModel.DefaultStatus)
    ensures d.firmwareVersion == (if Truthy(b.firmwareVersion) then b.firmwareVersion.value else DeviceModel.DefaultFirmwareVersion)
    ensures d.location.address.Some? && d.location.latitude.Some? && d.location.longitude.Some?
    ensures Truthy(b.address) ==> d.location.address == b.address
    ensures Truthy(b.latitude) ==> d.location.latitude == b.latitude
    ensures Truthy(b.longitude) ==> d.location.longitude == b.longitude
    ensures !Truthy(b.address) ==> d.location.address == Some("")
    ensures !Truthy(b.latitude) ==> d.location.latitude == Some("")
    ensures !Truthy(b.longitude) ==> d.location.longitude == Some("")
    ensures d.registeredAt == registeredAt
    ensures DeviceModel.Valid(d) <==> ownerUuid != ""
  {
    DeviceModel.Device(
      Upper(b.deviceId.value),
      b.model.value,
      DeviceModel.Location(Some(Or(b.address, "")), Some(Or(b.latitude, "")), Some(Or(b.longitude, ""))),
      Or(b.status, DeviceModel.DefaultStatus),
      Or(b.firmwareVersion, DeviceModel.DefaultFirmwareVersion),
      DeviceModel.RegisteredWith(owner, ownerUuid),
      registeredAt)
  }

  /** Every stored device id is upper-case: both write paths upper-case it. */
  ghost predicate Normalised(devices: Store.DeviceCollection)
    reads devices
  {
    forall id :: id in devices.docs ==> IsUpperCase(devices.docs[id].deviceId)
  }

  /** Every stored device passes the schema's required validators. */
  ghost predicate AllValid(devices: Store.DeviceCollection)
    reads devices
  {
    forall id :: id in devices.docs ==> DeviceModel.Valid(devices.docs[id])
  }

  /** `registerDevice`: the 400 guard, then the duplicate check on the id as
      submitted, then the owner lookup, then the save, whose unique index on
      the upper-cased id can still fail with 500. */
  method RegisterDevice(devices: Store.DeviceCollection, users: Store.UserCollection, body: DeviceBody, now: nat)
    returns (r: Reply<DeviceModel.Device>)
    requires devices.Valid() && users.Valid() && Normalised(devices) && AllValid(devices)
    modifies devices
    ensures devices.Valid() && Normalised(devices) && AllValid(devices)
    ensures !RequiredPresent(body) ==>
      r == Err(400, "Device ID, model, and customer are required")
      && devices.docs == old(devices.docs) && devices.nextId == old(devices.nextId)
    ensures RequiredPresent(body) && old(devices.FindByDeviceId(body.deviceId.value)).Some? ==>
      r == Err(409, "Device ID already exists")
      && devices.docs == old(devices.docs) && devices.nextId == old(devices.nextId)
    ensures RequiredPresent(body) && old(devices.FindByDeviceId(body.deviceId.value)).None?
            && body.customerId.value !in users.docs ==>
      r == Err(404, "Customer not found")
      && devices.docs == old(devices.docs) && devices.nextId == old(devices.nextId)
    ensures RequiredPresent(body) && old(devices.FindByDeviceId(body.deviceId.value)).None?
            && body.customerId.value in users.docs ==>
      var owner := body.customerId.value;
      var rec := DeviceRecord(body, owner, users.docs[owner].uuid, now);
      if Store.DeviceIndexAllows(old(devices.docs), old(devices.nextId), rec) then
        && r == Ok(201, "Device registered successfully", rec)
        && devices.docs == old(devices.docs)[old(devices.nextId) := rec]
        && devices.nextId == old(devices.nextId) + 1
      else
        r == Err(500, "Internal server error")
        && devices.docs == old(devices.docs) && devices.nextId == old(devices.nextId)
  {
    if !RequiredPresent(body) {
      return Err(400, "Device ID, model, and customer are required");
    }
    if devices.FindByDeviceId(body.deviceId.value).Some? {
      return Err(409, "Device ID already exists");
    }
    var owner := body.customerId.value;
    if owner !in users.docs {
      return Err(404, "Customer not found");
    }
    var customer := users.docs[owner];
    var rec := DeviceRecord(body, owner, customer.uuid, now);
    UpperNormalises(body.deviceId.value);
    var id := devices.Insert(rec);
    if id.None? {
      return Err(500, "Internal server error");
    }
    r := Ok(201, "Device registered successfully", rec);
  }

  /** `getRegisteredDevices`: every device once, in natural order, with its
      owner expanded; a device whose owner was deleted lists a null owner. */
  function GetRegisteredDevices(devices: Store.DeviceCollection, users: Store.UserCollection): (r: Reply<seq<DeviceListing>>)
    requires devices.Valid()
    reads devices, users
    ensures r.Ok? && r.status == 200
    ensures forall i :: 0 <= i < |r.value| ==>
      var e := r.value[i];
      && e.id in devices.docs && e.device == devices.docs[e.id]
      && e.owner == Owner(users.docs, e.device.registeredWith.customerId)
    ensures forall id :: id in devices.docs ==> exists i :: 0 <= i < |r.value| && r.value[i].id == id
    ensures forall i, j :: 0 <= i < j < |r.value| ==> r.value[i].id < r.value[j].id
  {
    var docs := devices.docs;
    var ks := Store.KeysInOrder(docs, devices.nextId);
    var listing := Listings(docs, users.docs, ks);
    assert forall id :: id in docs ==> listing[Store.IndexOf(ks, id)].id == id;
    Ok(200, "", listing)
  }

  function Listings(docs: map<ObjectId, DeviceModel.Device>, owners: map<ObjectId, UserModel.User>, ks: seq<ObjectId>)
    : (r: seq<DeviceListing>)
    requires forall k :: k in ks ==> k in docs
    ensures |r| == |ks|
    ensures forall i :: 0 <= i < |ks| ==>
      r[i] == DeviceListing(ks[i], docs[ks[i]], Owner(owners, docs[ks[i]].registeredWith.customerId))
  {
    seq(|ks|, i requires 0 <= i < |ks| =>
      DeviceListing(ks[i], docs[ks[i]], Owner(owners, docs[ks[i]].registeredWith.customerId)))
  }

  function Owner(owners: map<ObjectId, UserModel.User>, id: ObjectId): (r: Option<OwnerSummary>)
    ensures r.Some? <==> id in owners
    ensures r.Some? ==> r.value.id == id && r.value.user == owners[id].user && r.value.uuid == owners[id].uuid
  {
    if id in owners then Some(OwnerSummary(id, owners[id].user, owners[id].uuid)) else None
  }

  /** `updateDevice`: the 400 guard, then the owner lookup (before the device
      itself is looked up), then `findByIdAndUpdate`. There is no duplicate
      pre-check; the unique index rejects an id another device holds. The
      registration time is kept; everything else is rewritten. */
  method UpdateDevice(devices: Store.DeviceCollection, users: Store.UserCollection, id: ObjectId, body: DeviceBody)
    returns (r: Reply<DeviceModel.Device>)
    requires devices.Valid() && users.Valid() && Normalised(devices) && AllValid(devices)
    modifies devices`docs
    ensures devices.Valid() && Normalised(devices) && AllValid(devices)
    ensures !RequiredPresent(body) ==>
      r == Err(400, "Device ID, model, and customer are required") && devices.docs == old(devices.docs)
    ensures RequiredPresent(body) && body.customerId.value !in users.docs ==>
      r == Err(404, "Customer not found") && devices.docs == old(devices.docs)
    ensures RequiredPresent(body) && body.customerId.value in users.docs && id !in old(devices.docs) ==>
      r == Err(404, "Device not found") && devices.docs == old(devices.docs)
    ensures RequiredPresent(body) && body.customerId.value in users.docs && id in old(devices.docs) ==>
      var owner := body.customerId.value;
      var rec := DeviceRecord(body, owner, users.docs[owner].uuid, old(devices.docs)[id].registeredAt);
      if Store.DeviceIndexAllows(old(devices.docs), id, rec) then
        r == Ok(200, "Device updated successfully", rec) && devices.docs == old(devices.docs)[id := rec]
      else
        r == Err(500, "Internal server error") && devices.docs == old(devices.docs)
  {
    if !RequiredPresent(body) {
      return Err(400, "Device ID, model, and customer are required");
    }
    var owner := body.customerId.value;
    if owner !in users.docs {
      return Err(404, "Customer not found");
    }
    var customer := users.docs[owner];
    if id !in devices.docs {
      return Err(404, "Device not found");
    }
    var rec := DeviceRecord(body, owner, customer.uuid, devices.docs[id].registeredAt);
    UpperNormalises(body.deviceId.value);
    var ok := devices.Replace(id, rec);
    if !ok {
      return Err(500, "Internal server error");
    }
    r := Ok(200, "Device updated successfully", rec);
  }

  /** `deleteDevice`: removes only the named device. */
  method DeleteDevice(devices: Store.DeviceCollection, id: ObjectId) returns (r: Reply<()>)
    requires devices.Valid() && Normalised(devices) && AllValid(devices)
    modifies devices`docs
    ensures devices.Valid() && Normalised(devices) && AllValid(devices)
    ensures id in old(devices.docs) ==> r == Ok(200, "Device deleted successfully", ())
    ensures id !in old(devices.docs) ==> r == Err(404, "Device not found")
    ensures devices.docs == old(devices.docs) - {id}
  {
    var found := devices.Remove(id);
    if !found {
      return Err(404, "Device not found");
    }
    r := Ok(200, "Device deleted successfully", ());
  }

  /** `loginDevice`: 400 without an id, 404 unless a device has exactly the
      submitted id (no upper-casing), otherwise that device. Changes nothing. */
  function LoginDevice(devices: Store.DeviceCollection, deviceId: Option<string>): (r: Reply<DeviceModel.Device>)
    requires devices.Valid()
    reads devices
    ensures r.status == 400 <==> !Truthy(deviceId)
    ensures r.status == 404 <==>
      Truthy(deviceId) && forall id :: id in devices.docs ==> devices.docs[id].deviceId != deviceId.value
    ensures r.Err? ==> r.status in {400, 404}
    ensures r.Ok? ==>
      r.status == 200 && r.value.deviceId == deviceId.value &&
      exists id :: id in devices.docs && devices.docs[id] == r.value
  {
    if !Truthy(deviceId) then Err(400, "Device ID is required")
    else match devices.FindByDeviceId(deviceId.value)
      case None => Err(404, "Device not found")
      case Some(id) => Ok(200, "Login successful", devices.docs[id])
  }

  /** With every stored id upper-case, an id submitted with a lower-case letter
      never matches the raw duplicate check or the device lookup. */
  lemma LowerCaseIdNeverMatches(devices: Store.DeviceCollection, raw: string, i: nat)
    requires devices.Valid() && Normalised(devices)
    requires i < |raw| && 'a' <= raw[i] <= 'z'
    ensures devices.FindByDeviceId(raw).None?
    ensures LoginDevice(devices, Some(raw)) == Err(404, "Device not found")
  {
    forall id | id in devices.docs ensures devices.docs[id].deviceId != raw {
      assert IsUpperCase(devices.docs[id].deviceId);
    }
  }

  /** Registering an id that differs from a stored one only by case passes the
      409 check and is then rejected by the unique index: the reply is 500,
      not 409. */
  lemma CaseVariantDuplicateIsInternalError(devices: Store.DeviceCollection, users: Store.UserCollection,
                                                                 body: DeviceBody, now: nat, other: ObjectId, i: nat)
    requires devices.Valid() && Normalised(devices)
    requires RequiredPresent(body) && body.customerId.value in users.docs
    requires i < |body.deviceId.value| && 'a' <= body.deviceId.value[i] <= 'z'
    requires other in devices.docs && devices.docs[other].deviceId == Upper(body.deviceId.value)
    ensures devices.FindByDeviceId(body.deviceId.value).None?
    ensures !Store.DeviceIndexAllows(devices.docs, devices.nextId, DeviceRecord(body, body.customerId.value, users.docs[body.customerId.value].uuid, now))
  {
    LowerCaseIdNeverMatches(devices, body.deviceId.value, i);
    assert other < devices.nextId;
  }
}
