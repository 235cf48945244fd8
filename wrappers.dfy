/** Small value wrappers shared by the backend and frontend models. */
module Wrappers {

  datatype Option<+T> = None | Some(value: T)

  /** An HTTP reply as the Express handlers send it: a status code and a
      message, plus a body value on success. */
  datatype Reply<+T> =
    | Ok(status: nat, message: string, value: T)
    | Err(status: nat, message: string)

  /** Mongo ObjectIds, abstracted to naturals handed out in increasing order. */
  type ObjectId = nat
}
