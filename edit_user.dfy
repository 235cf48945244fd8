/** The edit-customer form's submit: the password confirmation check and the
    update payload. */
module EditUser {
  import opened Wrappers
  import opened JsString

  /** The form state. */
  datatype EditForm = EditForm(user: string, phoneNo: string, location: string, password: string, confirmPassword: string)

  /** The body sent with the update request. */
  datatype Payload = Payload(user: string, phoneNo: string, location: string, password: Option<string>)

  datatype UpdateAction = PasswordMismatch | Send(payload: Payload)

  /** `handleUpdate`: a non-empty password must equal its confirmation (as
      typed); the payload carries the three profile fields as entered and the
      trimmed password only when it is not blank. */
  method HandleUpdate(form: EditForm) returns (r: UpdateAction)
    ensures r == PasswordMismatch <==> form.password != "" && form.password != form.confirmPassword
    ensures r.Send? ==> r.payload.user == form.user && r.payload.phoneNo == form.phoneNo && r.payload.location == form.location
    ensures r.Send? ==> (r.payload.password.Some? <==> !AllSpace(form.password))
    ensures r.Send? && r.payload.password.Some? ==> r.payload.password.value == Trim(form.password)
  {
    if form.password != "" && form.password != form.confirmPassword {
      return PasswordMismatch;
    }
    var payload := Payload(form.user, form.phoneNo, form.location, None);
    TrimEmptyIff(form.password);
    if Trim(form.password) != "" {
      payload := payload.(password := Some(Trim(form.password)));
    }
    r := Send(payload);
  }
}
