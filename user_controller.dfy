/** The customer handlers: registration, login, listing, lookup, partial
    update and deletion over the User collection. */
module UserController {
  import opened Wrappers
  import opened JsString
  import Crypto
  import UserModel
  import Store

  /** The JSON body of the register and update requests. */
  datatype UserBody = UserBody(user: Option<string>, phoneNo: Option<string>, password: Option<string>, location: Option<string>)

  /** The JSON body of the login request. */
  datatype Credentials = Credentials(phoneNo: Option<string>, password: Option<string>)

  /** A customer as every read path returns it: all paths except `password`. */
  datatype PublicUser = PublicUser(id: ObjectId, user: string, uuid: string, phoneNo: string, location: string, registeredAt: nat)

  /** The body of a successful login: the signed token and the customer. */
  datatype LoginData = LoginData(token: Crypto.Token, user: PublicUser)

  /** The fields of one `findByIdAndUpdate` call; absent ones are left alone. */
  datatype UpdateFields = UpdateFields(user: Option<string>, phoneNo: Option<string>, location: Option<string>, password: Option<string>)

  /** Every stored phone number is in trimmed form: both write paths trim it. */
  ghost predicate Trimmed(users: Store.UserCollection)
    reads users
  {
    forall id :: id in users.docs ==> Bounded(users.docs[id].phoneNo)
  }

  function Public(id: ObjectId, u: UserModel.User): PublicUser {
    PublicUser(id, u.user, u.uuid, u.phoneNo, u.location, u.registeredAt)
  }

  /** `x?.trim()` is truthy. */
  predicate Filled(s: Option<string>) {
    s.Some? && Trim(s.value) != ""
  }

  /** The 400 guard of registration: name, phone and location must be
      non-blank after trimming; the password need only be non-empty. */
  predicate RegisterFieldsPresent(b: UserBody) {
    Filled(b.user) && Filled(b.phoneNo) && Truthy(b.password) && Filled(b.location)
  }

  /** The record a registration saves: the trimmed fields, the fresh uuid, the
      creation time, and the password hashed by the controller and then once
      more by the pre-save hook. */
  function RegisteredRecord(b: UserBody, uuid: string, now: nat): (u: UserModel.User)
    requires RegisterFieldsPresent(b)
    ensures u.phoneNo != "" && u.user != "" && u.location != ""
    ensures u.user == Trim(b.user.value) && u.phoneNo == Trim(b.phoneNo.value) && u.location == Trim(b.location.value)
    ensures u.uuid == uuid && u.registeredAt == now
    ensures u.password == Crypto.Hash(Crypto.Hash(b.password.value))
    ensures UserModel.Valid(u) <==> uuid != ""
  {
    TrimEmptyIff(b.user.value);
    UserModel.User(Trim(b.user.value), uuid, Trim(b.phoneNo.value), Trim(b.location.value),
                   Crypto.Hash(Crypto.Hash(b.password.value)), now)
  }

  /** The record after a partial update: each name, phone or location that is
      supplied truthy replaces the stored one, trimmed; a truthy password is
      stored hashed once (no save middleware runs); nothing else changes. */
  function UpdatedRecord(u: UserModel.User, b: UserBody): UserModel.User {
    u.(user := if Truthy(b.user) then Trim(b.user.value) else u.user,
       phoneNo := if Truthy(b.phoneNo) then Trim(b.phoneNo.value) else u.phoneNo,
       location := if Truthy(b.location) then Trim(b.location.value) else u.location,
       password := if Truthy(b.password) then Crypto.Hash(b.password.value) else u.password)
  }

  /** Mongo's `$set` of the given fields onto a stored record. */
  function SetFields(u: UserModel.User, f: UpdateFields): (r: UserModel.User)
    ensures r.uuid == u.uuid && r.registeredAt == u.registeredAt
    ensures r.user == (if f.user.Some? then f.user.value else u.user)
    ensures r.phoneNo == (if f.phoneNo.Some? then f.phoneNo.value else u.phoneNo)
    ensures r.location == (if f.location.Some? then f.location.value else u.location)
    ensures r.password == (if f.password.Some? then f.password.value else u.password)
    ensures f == UpdateFields(None, None, None, None) ==> r == u
  {
    u.(user := if f.user.Some? then f.user.value else u.user,
       phoneNo := if f.phoneNo.Some? then f.phoneNo.value else u.phoneNo,
       location := if f.location.Some? then f.location.value else u.location,
       password := if f.password.Some? then f.password.value else u.password)
  }

  /** `doc.save()` of a new customer document: the required validators, then
      the pre-save hook, then the insert, which the unique indexes may refuse.
      Either way the document is left as the hook made it. */
  method Save(users: Store.UserCollection, doc: UserModel.UserDocument) returns (id: Option<ObjectId>)
    requires users.Valid() && Trimmed(users) && Bounded(doc.phoneNo)
    modifies users, doc`password
    ensures users.Valid() && Trimmed(users)
    ensures var saved := UserModel.Hooked(old(doc.Record()), old(doc.passwordModified));
      if UserModel.Valid(old(doc.Record())) && Store.UserIndexAllows(old(users.docs), old(users.nextId), saved) then
        && id == Some(old(users.nextId))
        && users.docs == old(users.docs)[old(users.nextId) := saved]
        && users.nextId == old(users.nextId) + 1
      else
        id.None? && users.docs == old(users.docs) && users.nextId == old(users.nextId)
  {
    if !UserModel.Valid(doc.Record()) {
      return None;
    }
    doc.PreSave();
    id := users.Insert(doc.Record());
  }

  /** `new User({...})` as registration fills it in: the trimmed fields, the
      password hashed once by the controller, the fresh uuid. The pre-save
      hook will turn it into the registered record. */
  method NewRegistration(body: UserBody, freshUuid: string, now: nat) returns (doc: UserModel.UserDocument)
    requires RegisterFieldsPresent(body)
    ensures fresh(doc) && doc.passwordModified
    ensures UserModel.Hooked(doc.Record(), doc.passwordModified) == RegisteredRecord(body, freshUuid, now)
    ensures UserModel.Valid(doc.Record()) <==> freshUuid != ""
    ensures Bounded(doc.phoneNo)
  {
    ghost var rec := RegisteredRecord(body, freshUuid, now);
    var hashed := Crypto.Hash(body.password.value);
    doc := new UserModel.UserDocument(Trim(body.user.value), Trim(body.phoneNo.value), hashed,
                                      Trim(body.location.value), freshUuid, now);
    assert doc.Record() == rec.(password := hashed);
    assert doc.phoneNo == doc.Record().phoneNo == rec.phoneNo;
    TrimIsBounded(body.phoneNo.value);
  }

  /** `registerUser`. `freshUuid` is what `uuidv4()` returned and `now` the clock. */
  method RegisterUser(users: Store.UserCollection, body: UserBody, freshUuid: string, now: nat) returns (r: Reply<string>)
    requires users.Valid() && Trimmed(users)
    modifies users
    ensures users.Valid() && Trimmed(users)
    ensures !RegisterFieldsPresent(body) ==>
      r == Err(400, "All fields are required") && users.docs == old(users.docs) && users.nextId == old(users.nextId)
    ensures RegisterFieldsPresent(body) && old(users.FindByPhone(body.phoneNo.value)).Some? ==>
      r == Err(409, "Phone number already registered") && users.docs == old(users.docs) && users.nextId == old(users.nextId)
    ensures RegisterFieldsPresent(body) && old(users.FindByPhone(body.phoneNo.value)).None? ==>
      var rec := RegisteredRecord(body, freshUuid, now);
      if freshUuid != "" && Store.UserIndexAllows(old(users.docs), old(users.nextId), rec) then
        && r == Ok(201, "User registered successfully", freshUuid)
        && users.docs == old(users.docs)[old(users.nextId) := rec]
        && users.nextId == old(users.nextId) + 1
      else
        r == Err(500, "Server error during registration") && users.docs == old(users.docs) && users.nextId == old(users.nextId)
  {
    if !RegisterFieldsPresent(body) {
      return Err(400, "All fields are required");
    }
    var phoneNo := body.phoneNo.value;
    if users.FindByPhone(phoneNo).Some? {
      return Err(409, "Phone number already registered");
    }
    r := CreateUser(users, body, freshUuid, now);
  }

  /** The second half of `registerUser`: hash the password, build the
      document from the trimmed fields, and save it. */
  method CreateUser(users: Store.UserCollection, body: UserBody, freshUuid: string, now: nat) returns (r: Reply<string>)
    requires users.Valid() && Trimmed(users) && RegisterFieldsPresent(body)
    modifies users
    ensures users.Valid() && Trimmed(users)
    ensures var rec := RegisteredRecord(body, freshUuid, now);
      if freshUuid != "" && Store.UserIndexAllows(old(users.docs), old(users.nextId), rec) then
        && r == Ok(201, "User registered successfully", freshUuid)
        && users.docs == old(users.docs)[old(users.nextId) := rec]
        && users.nextId == old(users.nextId) + 1
      else
        r == Err(500, "Server error during registration") && users.docs == old(users.docs) && users.nextId == old(users.nextId)
  {
    var doc := NewRegistration(body, freshUuid, now);
    var id := Save(users, doc);
    if id.None? {
      return Err(500, "Server error during registration");
    }
    r := Ok(201, "User registered successfully", doc.uuid);
  }

  /** `loginUser`: 400 for a missing field, 404 when no customer has exactly
      this phone number, 401 when the password does not verify, otherwise the
      token and the customer without its password. */
  function LoginUser(users: Store.UserCollection, c: Credentials): (r: Reply<LoginData>)
    requires users.Valid()
    reads users
    ensures r.Err? ==> r.status in {400, 404, 401}
    ensures r.status == 400 <==> !Truthy(c.phoneNo) || !Truthy(c.password)
    ensures r.status == 404 <==>
      Truthy(c.phoneNo) && Truthy(c.password) &&
      forall id :: id in users.docs ==> users.docs[id].phoneNo != c.phoneNo.value
    ensures r.status == 401 <==>
      Truthy(c.phoneNo) && Truthy(c.password) &&
      exists id :: id in users.docs && users.docs[id].phoneNo == c.phoneNo.value &&
                   !Crypto.Verify(c.password.value, users.docs[id].password)
    ensures r.Ok? ==>
      var id := r.value.user.id;
      && r.status == 200
      && id in users.docs
      && users.docs[id].phoneNo == c.phoneNo.value
      && Crypto.Verify(c.password.value, users.docs[id].password)
      && r.value == LoginData(Crypto.Token(id, users.docs[id].phoneNo), Public(id, users.docs[id]))
  {
    if !Truthy(c.phoneNo) || !Truthy(c.password) then
      Err(400, "Phone number and password are required")
    else
      var phoneNo := c.phoneNo.value;
      match users.FindByPhone(phoneNo)
      case None =>
        Err(404, "User not found")
      case Some(id) =>
        var u := users.docs[id];
        assert forall k :: k in users.docs && users.docs[k].phoneNo == phoneNo ==> k == id;
        if !Crypto.Verify(c.password.value, u.password) then
          Err(401, "Invalid credentials")
        else
          Ok(200, "Login successful", LoginData(Crypto.Token(id, u.phoneNo), Public(id, u)))
  }

  function Views(docs: map<ObjectId, UserModel.User>, ks: seq<ObjectId>): seq<PublicUser>
    requires forall k :: k in ks ==> k in docs
  {
    seq(|ks|, i requires 0 <= i < |ks| => Public(ks[i], docs[ks[i]]))
  }

  /** `getAllUsers`: every customer once, in natural order, without passwords. */
  function GetAllUsers(users: Store.UserCollection): (r: Reply<seq<PublicUser>>)
    requires users.Valid()
    reads users
    ensures r.Ok? && r.status == 200
    ensures forall i :: 0 <= i < |r.value| ==>
      r.value[i].id in users.docs && r.value[i] == Public(r.value[i].id, users.docs[r.value[i].id])
    ensures forall id :: id in users.docs ==> exists i :: 0 <= i < |r.value| && r.value[i].id == id
    ensures forall i, j :: 0 <= i < j < |r.value| ==> r.value[i].id < r.value[j].id
  {
    ViewsInOrder(users.docs, users.nextId);
    Ok(200, "", Views(users.docs, Store.KeysInOrder(users.docs, users.nextId)))
  }

  /** The views of the keys below `bound`, in key order, list each document
      of `docs` once, in ascending id order, without its password. */
  lemma ViewsInOrder(docs: map<ObjectId, UserModel.User>, bound: nat)
    requires forall id :: id in docs ==> id < bound
    ensures var vs := Views(docs, Store.KeysInOrder(docs, bound));
      && (forall i :: 0 <= i < |vs| ==> vs[i].id in docs && vs[i] == Public(vs[i].id, docs[vs[i].id]))
      && (forall id :: id in docs ==> exists i :: 0 <= i < |vs| && vs[i].id == id)
      && (forall i, j :: 0 <= i < j < |vs| ==> vs[i].id < vs[j].id)
  {
    var ks := Store.KeysInOrder(docs, bound);
    var vs := Views(docs, ks);
    forall id | id in docs ensures exists i :: 0 <= i < |vs| && vs[i].id == id {
      assert vs[Store.IndexOf(ks, id)].id == id;
    }
  }

  /** `getSingleUser`: the customer without its password, or 404. */
  function GetSingleUser(users: Store.UserCollection, id: ObjectId): (r: Reply<PublicUser>)
    reads users
    ensures r.Ok? <==> id in users.docs
    ensures r.Ok? ==> r.status == 200 && r.value.id == id && r.value == Public(id, users.docs[id])
    ensures r.Err? ==> r == Err(404, "User not found")
  {
    if id in users.docs then Ok(200, "", Public(id, users.docs[id])) else Err(404, "User not found")
  }

  /** `updateUser`: builds the update from the truthy fields, then
      `findByIdAndUpdate`; the reply carries the new record without its password. */
  method UpdateUser(users: Store.UserCollection, id: ObjectId, body: UserBody) returns (r: Reply<PublicUser>)
    requires users.Valid() && Trimmed(users)
    modifies users`docs
    ensures users.Valid() && Trimmed(users)
    ensures id !in old(users.docs) ==> r == Err(404, "User not found") && users.docs == old(users.docs)
    ensures id in old(users.docs) ==>
      var rec := UpdatedRecord(old(users.docs)[id], body);
      if Store.UserIndexAllows(old(users.docs), id, rec) then
        r == Ok(200, "User updated successfully", Public(id, rec)) && users.docs == old(users.docs)[id := rec]
      else
        r == Err(500, "Server error updating user") && users.docs == old(users.docs)
  {
    var fields := UpdateFields(None, None, None, None);
    if Truthy(body.user) {
      fields := fields.(user := Some(Trim(body.user.value)));
    }
    if Truthy(body.phoneNo) {
      fields := fields.(phoneNo := Some(Trim(body.phoneNo.value)));
    }
    if Truthy(body.location) {
      fields := fields.(location := Some(Trim(body.location.value)));
    }
    if Truthy(body.password) {
      fields := fields.(password := Some(Crypto.Hash(body.password.value)));
    }
    if id !in users.docs {
      return Err(404, "User not found");
    }
    var rec := SetFields(users.docs[id], fields);
    var ok := users.Replace(id, rec);
    if !ok {
      return Err(500, "Server error updating user");
    }
    r := Ok(200, "User updated successfully", Public(id, rec));
  }

  /** `deleteUser`: removes the customer only; devices are not consulted or touched. */
  method DeleteUser(users: Store.UserCollection, id: ObjectId) returns (r: Reply<()>)
    requires users.Valid() && Trimmed(users)
    modifies users`docs
    ensures users.Valid() && Trimmed(users)
    ensures id in old(users.docs) ==> r == Ok(200, "User deleted successfully", ())
    ensures id !in old(users.docs) ==> r == Err(404, "User not found")
    ensures users.docs == old(users.docs) - {id}
  {
    var found := users.Remove(id);
    if !found {
      return Err(404, "User not found");
    }
    r := Ok(200, "User deleted successfully", ());
  }

  /** A customer's phone number finds exactly that customer. */
  lemma FindByPhoneUnique(users: Store.UserCollection, id: ObjectId)
    requires users.Valid() && id in users.docs
    ensures users.FindByPhone(users.docs[id].phoneNo) == Some(id)
  {
    var p := users.docs[id].phoneNo;
    assert !(forall k :: k < users.nextId && k in users.docs ==> users.docs[k].phoneNo != p);
  }

  /** A registration stores the password hashed twice, so logging in with the
      registered phone number and the same password is refused with 401. */
  lemma RegisteredPasswordIsRejected(users: Store.UserCollection, id: ObjectId, body: UserBody, uuid: string, now: nat)
    requires users.Valid() && RegisterFieldsPresent(body)
    requires id in users.docs && users.docs[id] == RegisteredRecord(body, uuid, now)
    ensures LoginUser(users, Credentials(Some(users.docs[id].phoneNo), body.password)) == Err(401, "Invalid credentials")
  {
    FindByPhoneUnique(users, id);
    Crypto.RehashRejectsPassword(body.password.value);
  }

  /** After an update that supplies a password, that password logs the
      customer in with their stored phone number. */
  lemma UpdatedPasswordIsAccepted(users: Store.UserCollection, id: ObjectId, before: UserModel.User, body: UserBody)
    requires users.Valid() && Truthy(body.password)
    requires id in users.docs && users.docs[id] == UpdatedRecord(before, body)
    requires users.docs[id].phoneNo != ""
    ensures LoginUser(users, Credentials(Some(users.docs[id].phoneNo), body.password)).Ok?
  {
    FindByPhoneUnique(users, id);
    Crypto.VerifyHash(body.password.value);
  }

  /** The 409 check compares the phone number as submitted, but the record
      stores it trimmed: a registration whose trimmed number is already taken
      is refused by the unique index. With every stored number trimmed, a
      padded number never matches the raw check, so the reply is 500, not 409. */
  lemma PaddedDuplicatePhoneIsInternalError(users: Store.UserCollection, id: ObjectId, body: UserBody, uuid: string, now: nat)
    requires users.Valid() && RegisterFieldsPresent(body)
    requires id in users.docs && Trim(body.phoneNo.value) == users.docs[id].phoneNo
    ensures !Store.UserIndexAllows(users.docs, users.nextId, RegisteredRecord(body, uuid, now))
    ensures Trimmed(users) && Trim(body.phoneNo.value) != body.phoneNo.value ==>
      users.FindByPhone(body.phoneNo.value).None?
  {
    assert id < users.nextId;
    if Trimmed(users) && Trim(body.phoneNo.value) != body.phoneNo.value {
      PaddedPhoneNeverMatches(users, body.phoneNo.value);
    }
  }

  /** In a collection whose phone numbers are all trimmed, a raw phone number
      that trimming would change matches no document exactly. */
  lemma PaddedPhoneNeverMatches(users: Store.UserCollection, raw: string)
    requires Trimmed(users) && Trim(raw) != raw
    ensures users.FindByPhone(raw).None?
  {
    var r := users.FindByPhone(raw);
    if r.Some? {
      TrimOfTrimmed(users.docs[r.value].phoneNo);
      assert false;
    }
  }
}
