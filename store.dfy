/** The two Mongo collections behind the Mongoose models: documents keyed by
    ObjectId, ids handed out in increasing order (so natural order is id
    order), and the unique indexes the schemas declare. */
module Store {
  import opened Wrappers
  import UserModel
  import DeviceModel

  /** `findOne(filter)`: the first key below `bound`, in natural order, whose
      document passes the filter. */
  function FirstKey<V>(m: map<ObjectId, V>, matches: V -> bool, bound: nat): (r: Option<ObjectId>)
    ensures r.Some? ==> r.value < bound && r.value in m && matches(m[r.value])
    ensures r.Some? ==> forall k :: k < r.value && k in m ==> !matches(m[k])
    ensures r.None? ==> forall k :: k < bound && k in m ==> !matches(m[k])
  {
    if bound == 0 then None
    else match FirstKey(m, matches, bound - 1)
      case Some(k) => Some(k)
      case None => if bound - 1 in m && matches(m[bound - 1]) then Some(bound - 1) else None
  }

  /** `find()`: the keys below `bound`, in natural order. */
  function KeysInOrder<V>(m: map<ObjectId, V>, bound: nat): (ks: seq<ObjectId>)
    ensures forall k :: k in ks <==> k in m && k < bound
    ensures forall i, j :: 0 <= i < j < |ks| ==> ks[i] < ks[j]
  {
    if bound == 0 then []
    else
      var front := KeysInOrder(m, bound - 1);
      forall i | 0 <= i < |front| ensures front[i] < bound - 1 {
        assert front[i] in front;
      }
      if bound - 1 in m then front + [bound - 1] else front
  }

  /** A position of `k` in `ks`. */
  function IndexOf(ks: seq<ObjectId>, k: ObjectId): (i: nat)
    requires k in ks
    ensures i < |ks| && ks[i] == k
  {
    if ks[0] == k then 0 else 1 + IndexOf(ks[1..], k)
  }

  /** Whether writing `rec` under `id` into the users collection keeps its
      unique indexes: no other document holds its phoneNo or uuid. */
  predicate UserIndexAllows(docs: map<ObjectId, UserModel.User>, id: ObjectId, rec: UserModel.User) {
    forall k :: k in docs && k != id ==> docs[k].phoneNo != rec.phoneNo && docs[k].uuid != rec.uuid
  }

  /** Whether writing `rec` under `id` into the devices collection keeps its
      `device_id` index. */
  predicate DeviceIndexAllows(docs: map<ObjectId, DeviceModel.Device>, id: ObjectId, rec: DeviceModel.Device) {
    forall k :: k in docs && k != id ==> docs[k].deviceId != rec.deviceId
  }

  class UserCollection {
    var docs: map<ObjectId, UserModel.User>
    var nextId: ObjectId

    /** Ids come from the counter; `phoneNo` and `uuid` are unique indexes;
        `uuid` passed the required validator when the document was saved and
        no update path writes it. */
    ghost predicate Valid()
      reads this
    {
      && (forall id :: id in docs ==> id < nextId)
      && (forall a, b :: a in docs && b in docs && a != b ==>
            docs[a].phoneNo != docs[b].phoneNo && docs[a].uuid != docs[b].uuid)
      && (forall id :: id in docs ==> docs[id].uuid != "")
    }

    constructor ()
      ensures Valid() && docs == map[] && nextId == 0
    {
      docs := map[];
      nextId := 0;
    }

    /** `User.findOne({ phoneNo })`: an exact comparison with the stored value. */
    function FindByPhone(phoneNo: string): (r: Option<ObjectId>)
      reads this
      ensures r.Some? ==> r.value in docs && docs[r.value].phoneNo == phoneNo
      ensures r.Some? ==> forall k :: k in docs && k < r.value ==> docs[k].phoneNo != phoneNo
      ensures r.None? ==> forall k :: k in docs && k < nextId ==> docs[k].phoneNo != phoneNo
    {
      FirstKey(docs, (u: UserModel.User) => u.phoneNo == phoneNo, nextId)
    }

    /** `doc.save()` of a new, validated document: fails with a duplicate-key
        error, changing nothing, when an index would be broken. */
    method Insert(rec: UserModel.User) returns (id: Option<ObjectId>)
      requires Valid() && rec.uuid != ""
      modifies this
      ensures Valid()
      ensures id.Some? <==> UserIndexAllows(old(docs), old(nextId), rec)
      ensures id.Some? ==> id.value == old(nextId) && docs == old(docs)[id.value := rec] && nextId == old(nextId) + 1
      ensures id.None? ==> docs == old(docs) && nextId == old(nextId)
    {
      if UserIndexAllows(docs, nextId, rec) {
        id := Some(nextId);
        docs := docs[nextId := rec];
        nextId := nextId + 1;
      } else {
        id := None;
      }
    }

    /** The write of `findByIdAndUpdate` on an existing document: replaces it
        unless an index would be broken. No validators run. */
    method Replace(id: ObjectId, rec: UserModel.User) returns (ok: bool)
      requires Valid() && id in docs && rec.uuid == docs[id].uuid
      modifies this`docs
      ensures Valid()
      ensures ok == UserIndexAllows(old(docs), id, rec)
      ensures docs == if ok then old(docs)[id := rec] else old(docs)
    {
      ok := UserIndexAllows(docs, id, rec);
      if ok {
        docs := docs[id := rec];
      }
    }

    /** `findByIdAndDelete`: removes the document if there is one. */
    method Remove(id: ObjectId) returns (found: bool)
      requires Valid()
      modifies this`docs
      ensures Valid()
      ensures found == (id in old(docs))
      ensures docs == old(docs) - {id}
    {
      found := id in docs;
      docs := docs - {id};
    }
  }

  class DeviceCollection {
    var docs: map<ObjectId, DeviceModel.Device>
    var nextId: ObjectId

    /** Ids come from the counter; `device_id` is a unique index. */
    ghost predicate Valid()
      reads this
    {
      && (forall id :: id in docs ==> id < nextId)
      && (forall a, b :: a in docs && b in docs && a != b ==> docs[a].deviceId != docs[b].deviceId)
    }

    constructor ()
      ensures Valid() && docs == map[] && nextId == 0
    {
      docs := map[];
      nextId := 0;
    }

    /** `Device.findOne({ device_id })`: an exact comparison with the stored value. */
    function FindByDeviceId(deviceId: string): (r: Option<ObjectId>)
      reads this
      ensures r.Some? ==> r.value in docs && docs[r.value].deviceId == deviceId
      ensures r.Some? ==> forall k :: k in docs && k < r.value ==> docs[k].deviceId != deviceId
      ensures r.None? ==> forall k :: k in docs && k < nextId ==> docs[k].deviceId != deviceId
    {
      FirstKey(docs, (d: DeviceModel.Device) => d.deviceId == deviceId, nextId)
    }

    /** `doc.save()` of a new document. */
    method Insert(rec: DeviceModel.Device) returns (id: Option<ObjectId>)
      requires Valid()
      modifies this
      ensures Valid()
      ensures id.Some? <==> DeviceIndexAllows(old(docs), old(nextId), rec)
      ensures id.Some? ==> id.value == old(nextId) && docs == old(docs)[id.value := rec] && nextId == old(nextId) + 1
      ensures id.None? ==> docs == old(docs) && nextId == old(nextId)
    {
      if DeviceIndexAllows(docs, nextId, rec) {
        id := Some(nextId);
        docs := docs[nextId := rec];
        nextId := nextId + 1;
      } else {
        id := None;
      }
    }

    /** The write of `findByIdAndUpdate` on an existing document. */
    method Replace(id: ObjectId, rec: DeviceModel.Device) returns (ok: bool)
      requires Valid() && id in docs
      modifies this`docs
      ensures Valid()
      ensures ok == DeviceIndexAllows(old(docs), id, rec)
      ensures docs == if ok then old(docs)[id := rec] else old(docs)
    {
      ok := DeviceIndexAllows(docs, id, rec);
      if ok {
        docs := docs[id := rec];
      }
    }

    /** `findByIdAndDelete`. */
    method Remove(id: ObjectId) returns (found: bool)
      requires Valid()
      modifies this`docs
      ensures Valid()
      ensures found == (id in old(docs))
      ensures docs == old(docs) - {id}
    {
      found := id in docs;
      docs := docs - {id};
    }
  }
}
