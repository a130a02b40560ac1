/** The request/response surface shared by both variants: JSON body fields,
    which may be absent, and the responses the handlers send. */
module Http {
  import opened Wrappers

  /** A field of a JSON request body: `undefined` (None) or a string. */
  type Field = Option<string>

  /** JavaScript truthiness of a field: present and not the empty string. */
  predicate Truthy(f: Field) {
    f.Some? && f.value != ""
  }

  datatype Body =
    | ErrorBody(messageError: string)
    | Registered(message: string, name: Field)
    | LoggedIn(token: string, name: Field)
    | Plain(text: string)

  datatype Response = Response(status: nat, body: Body)

  const MissingFields := "Email, password, and name are required"
  const UserExists := "User already exists"
  const RegisteredText := "User registered successfully"
  const InvalidCredentials := "Invalid email or password"

  /** The first response the register handler sends: the two guards in order,
      then 201 with the name echoed back. */
  function RegisterReply(email: Field, password: Field, name: Field, known: bool): (r: Response)
    ensures r.status == 201 <==> Truthy(email) && Truthy(password) && Truthy(name) && !known
    ensures !(Truthy(email) && Truthy(password) && Truthy(name)) ==> r == Response(400, ErrorBody(MissingFields))
    ensures r.status == 201 ==> r.body == Registered(RegisteredText, name)
    ensures r.status != 201 ==> r.status == 400 && r.body.ErrorBody?
    ensures r.body == ErrorBody(UserExists) <==> Truthy(email) && Truthy(password) && Truthy(name) && known
  {
    if !Truthy(email) || !Truthy(password) || !Truthy(name) then Response(400, ErrorBody(MissingFields))
    else if known then Response(400, ErrorBody(UserExists))
    else Response(201, Registered(RegisteredText, name))
  }

  /** The one error both login failures share. */
  const InvalidCredentialsReply := Response(400, ErrorBody(InvalidCredentials))
}
