/**
 The unit tests of the authentication service, each as a lemma over the
 account store the mocked repository stands for.
 */
module AuthenticationScenarios {
  import opened Wrappers
  import opened AuthenticationService

  const Email := "test@email.com"
  const Password := "testpassword"
  const Name := "testusername"

  /** The account the tests keep around, stored with its password as given. */
  function Stored(): Account {
    Account(Email, Password, Name, User)
  }

  lemma RegisterSucceeds(encode: string -> string, sign: Account -> string)
    ensures var r := Register([], RegisterRequest(Some(Email), Some(Password), Some(Name)), encode, sign);
            && r.Success?
            && r.value.0 == [Account(Email, encode(Password), Name, User)]
  {
  }

  lemma LoginSucceeds(sign: Account -> string)
    ensures Login([Stored()], AuthRequest(Some(Email), Some(Password)), (e, p) => true, sign)
            == Success(AuthResponse(sign(Stored())))
  {
  }

  /** Every register request with an empty or a missing field, the empty request included. */
  lemma RegisterWithBlankCredentials(encode: string -> string, sign: Account -> string)
    ensures forall request :: request in {
                RegisterRequest(Some(""), Some(Password), Some(Name)),
                RegisterRequest(Some(Email), Some(""), Some(Name)),
                RegisterRequest(Some(Email), Some(Password), Some("")),
                RegisterRequest(None, Some(Password), Some(Name)),
                RegisterRequest(Some(Email), None, Some(Name)),
                RegisterRequest(Some(Email), Some(Password), None),
                RegisterRequest(None, None, None)} ==>
              var r := Register([Stored()], request, encode, sign);
              r.Failure? && Message(r.error) == "Credentials cannot be empty"
  {
  }

  lemma RegisterEmailAlreadyExists(encode: string -> string, sign: Account -> string)
    ensures var r := Register([Stored()], RegisterRequest(Some(Email), Some(Password), Some(Name)), encode, sign);
            r.Failure? && Message(r.error) == "Email already taken"
  {
  }

  /** Only the username is on record: the mock answers the email lookup with nothing. */
  lemma RegisterUsernameAlreadyExists(encode: string -> string, sign: Account -> string)
    ensures var other := Account("other@email.com", Password, Name, User);
            var r := Register([other], RegisterRequest(Some(Email), Some(Password), Some(Name)), encode, sign);
            r.Failure? && Message(r.error) == "Username already taken"
  {
  }

  /** Every login request with an empty or a missing field, the empty request included. */
  lemma LoginWithBlankCredentials(authenticate: (string, string) -> bool, sign: Account -> string)
    ensures forall request :: request in {
                AuthRequest(Some(""), Some(Password)),
                AuthRequest(Some(Email), Some("")),
                AuthRequest(None, None)} ==>
              var r := Login([Stored()], request, authenticate, sign);
              r.Failure? && Message(r.error) == "Credentials cannot be empty"
  {
  }

  /** An email with no account is reported as such, whatever the authentication manager says. */
  lemma LoginUnknownEmail(authenticate: (string, string) -> bool, sign: Account -> string)
    ensures var r := Login([], AuthRequest(Some(Email), Some(Password)), authenticate, sign);
            r.Failure? && Message(r.error) == "User not found"
  {
  }
}
