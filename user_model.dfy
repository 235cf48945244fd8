/** The User schema and its pre-save hook. */
module UserModel {
  import Crypto

  /** A stored customer. `password` holds whatever the save pipeline left in it. */
  datatype User = User(
    user: string,
    uuid: string,
    phoneNo: string,
    location: string,
    password: string,
    registeredAt: nat)

  /** Mongoose's `required` validators: every required string is non-empty. */
  predicate Valid(u: User) {
    u.user != "" && u.uuid != "" && u.phoneNo != "" && u.location != "" && u.password != ""
  }

  /** The record as the `pre('save')` hook leaves it: the password hashed
      once more when it was modified. */
  function Hooked(u: User, passwordModified: bool): (r: User)
    ensures passwordModified ==> r.password == Crypto.Hash(u.password) && Crypto.Verify(u.password, r.password)
    ensures !passwordModified ==> r == u
    ensures r.(password := u.password) == u
  {
    if passwordModified then u.(password := Crypto.Hash(u.password)) else u
  }

  /** A document being saved: the record's paths plus the modified flag the
      pre-save hook consults. */
  class UserDocument {
    var user: string
    var uuid: string
    var phoneNo: string
    var location: string
    var password: string
    var registeredAt: nat
    var passwordModified: bool

    /** `new User({...})`: every path given is marked modified; `registeredAt`
        takes its default, the creation time. */
    constructor (user: string, phoneNo: string, password: string, location: string, uuid: string, now: nat)
      ensures Record() == User(user, uuid, phoneNo, location, password, now)
      ensures passwordModified
    {
      this.user := user;
      this.uuid := uuid;
      this.phoneNo := phoneNo;
      this.location := location;
      this.password := password;
      this.registeredAt := now;
      this.passwordModified := true;
    }

    function Record(): User
      reads this
    {
      User(user, uuid, phoneNo, location, password, registeredAt)
    }

    /** The `pre('save')` hook: hashes the password in place when it was modified. */
    method PreSave()
      modifies this`password
      ensures password == if passwordModified then Crypto.Hash(old(password)) else old(password)
      ensures Record() == Hooked(old(Record()), passwordModified)
    {
      if passwordModified {
        password := Crypto.Hash(password);
      }
    }
  }
}
