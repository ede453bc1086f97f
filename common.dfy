/** Values shared by every controller: optional request fields, JavaScript
    truthiness of those fields, and the error kinds the handlers answer with. */
module Common {

  datatype Option<T> = None | Some(value: T)

  /** A handler either succeeds with a payload or fails with an error. */
  datatype Result<T, E> = Ok(value: T) | Err(error: E)

  /** Which `400` message a handler sent; the text itself is not modelled. */
  datatype Reason =
    | SelfFollow           // "You can not follow/unfollow yourself"
    | NotOwner             // "You are not authorized to delete this ..."
    | MissingContent       // "Text or image must be provided"
    | EmptyComment         // "Text must be required"
    | MissingField         // "All fields are required"
    | InvalidEmail         // "Invalid email"
    | UsernameTaken        // "Username already exists"
    | EmailTaken           // "Email already taken"
    | PasswordTooShort     // "Password must be at least 6 characters"
    | PasswordMismatch     // "Passwords do not match"
    | InvalidCredentials   // "Invalid username or password"
    | PasswordPairIncomplete  // "Please provide both the new password and current password."
    | WrongCurrentPassword    // "Current password is incorrect"
    | NewPasswordTooShort     // "New password must be at least 6 characters long."

  /** The HTTP error classes the controllers answer with (404, 400, 500). */
  datatype Failure = NotFound | BadRequest(reason: Reason) | ServerError

  /** The outcome of a handler whose success carries no payload. */
  datatype Outcome = Done | Failed(failure: Failure)

  /** A request field that JavaScript treats as true: present and not the empty string. */
  predicate Truthy(field: Option<string>)
  {
    field.Some? && field.value != ""
  }

  /** `field || fallback` for a string request field. */
  function OrElse(field: Option<string>, fallback: string): (r: string)
    ensures Truthy(field) ==> r == field.value
    ensures !Truthy(field) ==> r == fallback
    ensures r == "" ==> fallback == "" && !Truthy(field)
  {
    if Truthy(field) then field.value else fallback
  }
}
