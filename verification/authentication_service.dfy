/**
 Registration and login of the security service: the credential checks, in
 the order they run, over an abstract account store. Password encoding, token
 signing and the authentication manager are not modelled; they are passed in
 as functions.
 */
module AuthenticationService {
  import opened Wrappers

  /** The one role registration hands out. */
  datatype Role = User

  /** A stored account; `password` holds the encoded password. */
  datatype Account = Account(email: string, password: string, username: string, role: Role)

  /** The body of a register call; a missing JSON field is `None`. */
  datatype RegisterRequest = RegisterRequest(email: Option<string>, password: Option<string>, username: Option<string>)

  /** The body of a login call. */
  datatype AuthRequest = AuthRequest(email: Option<string>, password: Option<string>)

  datatype AuthResponse = AuthResponse(token: string)

  /** Why a call was rejected; each kind carries one fixed message. */
  datatype AuthError = CredentialsEmpty | EmailTaken | UsernameTaken | UserNotFound | InvalidCredentials

  function Message(e: AuthError): string {
    match e
    case CredentialsEmpty => "Credentials cannot be empty"
    case EmailTaken => "Email already taken"
    case UsernameTaken => "Username already taken"
    case UserNotFound => "User not found"
    case InvalidCredentials => "Invalid credentials"
  }

  /** The two account columns the repository looks accounts up by. */
  datatype Column = EmailColumn | UsernameColumn

  function KeyOf(a: Account, c: Column): string {
    match c
    case EmailColumn => a.email
    case UsernameColumn => a.username
  }

  /** A credential that is null or the empty string. */
  predicate Blank(field: Option<string>) {
    field.None? || field.value == ""
  }

  /** findByEmail / findByUsername: the first stored account with that key, if any. */
  function FindBy(store: seq<Account>, c: Column, key: string): (found: Option<Account>)
    ensures found.Some? ==> found.value in store && KeyOf(found.value, c) == key
    ensures found.None? <==> forall a :: a in store ==> KeyOf(a, c) != key
  {
    if store == [] then None
    else if KeyOf(store[0], c) == key then Some(store[0])
    else
      assert store == [store[0]] + store[1..];
      FindBy(store[1..], c, key)
  }

  /** No two accounts share an email or a username. */
  ghost predicate Unique(store: seq<Account>) {
    forall i, j :: 0 <= i < j < |store| ==>
      store[i].email != store[j].email && store[i].username != store[j].username
  }

  /**
   register: reject blank credentials, then a taken email, then a taken
   username; otherwise store the account with the encoded password and the
   user role, and answer with a token signed for it.
   */
  function Register(store: seq<Account>, request: RegisterRequest,
                    encode: string -> string, sign: Account -> string): (r: Result<(seq<Account>, AuthResponse), AuthError>)
    ensures Blank(request.email) || Blank(request.password) || Blank(request.username)
            ==> r == Failure(CredentialsEmpty)
    ensures !Blank(request.email) && !Blank(request.password) && !Blank(request.username) ==>
              var email, username := request.email.value, request.username.value;
              && ((exists a :: a in store && a.email == email) ==> r == Failure(EmailTaken))
              && (((forall a :: a in store ==> a.email != email)
                   && (exists a :: a in store && a.username == username)) ==> r == Failure(UsernameTaken))
    ensures r.Success? <==>
              && !Blank(request.email) && !Blank(request.password) && !Blank(request.username)
              && (forall a :: a in store ==> a.email != request.email.value && a.username != request.username.value)
    ensures r.Success? ==>
              var account := Account(request.email.value, encode(request.password.value), request.username.value, User);
              r.value == (store + [account], AuthResponse(sign(account)))
  {
    if Blank(request.email) || Blank(request.password) || Blank(request.username) then
      Failure(CredentialsEmpty)
    else if FindBy(store, EmailColumn, request.email.value).Some? then
      Failure(EmailTaken)
    else if FindBy(store, UsernameColumn, request.username.value).Some? then
      Failure(UsernameTaken)
    else
      var account := Account(request.email.value, encode(request.password.value), request.username.value, User);
      Success((store + [account], AuthResponse(sign(account))))
  }

  /**
   login: reject blank credentials, then an unknown email, then credentials
   the authentication manager turns down; otherwise answer with a token signed
   for the stored account.
   */
  function Login(store: seq<Account>, request: AuthRequest,
                 authenticate: (string, string) -> bool, sign: Account -> string): (r: Result<AuthResponse, AuthError>)
    ensures Blank(request.email) || Blank(request.password) ==> r == Failure(CredentialsEmpty)
    ensures !Blank(request.email) && !Blank(request.password) ==>
              && ((forall a :: a in store ==> a.email != request.email.value) <==> r == Failure(UserNotFound))
              && (r == Failure(InvalidCredentials) <==>
                    (exists a :: a in store && a.email == request.email.value)
                    && !authenticate(request.email.value, request.password.value))
    ensures r.Success? <==>
              && !Blank(request.email) && !Blank(request.password)
              && (exists a :: a in store && a.email == request.email.value)
              && authenticate(request.email.value, request.password.value)
    ensures r.Success? ==>
              exists a :: a in store && a.email == request.email.value && r.value == AuthResponse(sign(a))
  {
    if Blank(request.email) || Blank(request.password) then
      Failure(CredentialsEmpty)
    else
      match FindBy(store, EmailColumn, request.email.value)
      case None => Failure(UserNotFound)
      case Some(user) =>
        if !authenticate(request.email.value, request.password.value) then Failure(InvalidCredentials)
        else Success(AuthResponse(sign(user)))
  }

  /** Lookups in a store that grew by one account find old accounts first. */
  lemma {:induction false} FindInAppended(store: seq<Account>, account: Account, c: Column, key: string)
    ensures FindBy(store + [account], c, key) ==
              if FindBy(store, c, key).Some? then FindBy(store, c, key)
              else if KeyOf(account, c) == key then Some(account)
              else None
  {
    if store == [] {
      assert store + [account] == [account];
    } else {
      assert (store + [account])[1..] == store[1..] + [account];
      FindInAppended(store[1..], account, c, key);
    }
  }

  /** In a store without duplicates, the lookup finds the only account with the key. */
  lemma FindUnique(store: seq<Account>, c: Column, i: nat)
    requires Unique(store) && i < |store|
    ensures FindBy(store, c, KeyOf(store[i], c)) == Some(store[i])
  {
    var found := FindBy(store, c, KeyOf(store[i], c));
    var j :| 0 <= j < |store| && store[j] == found.value;
    assert KeyOf(store[j], c) == KeyOf(store[i], c);
  }

  /** With unique emails, a login that passes every check is signed for the account of that email. */
  lemma LoginSignsOwnAccount(store: seq<Account>, i: nat, password: string,
                             authenticate: (string, string) -> bool, sign: Account -> string)
    requires Unique(store) && i < |store|
    requires store[i].email != "" && password != ""
    requires authenticate(store[i].email, password)
    ensures Login(store, AuthRequest(Some(store[i].email), Some(password)), authenticate, sign)
            == Success(AuthResponse(sign(store[i])))
  {
    FindUnique(store, EmailColumn, i);
  }

  /** A successful registration keeps emails and usernames unique. */
  lemma RegisterKeepsUnique(store: seq<Account>, request: RegisterRequest,
                            encode: string -> string, sign: Account -> string)
    requires Unique(store)
    requires Register(store, request, encode, sign).Success?
    ensures Unique(Register(store, request, encode, sign).value.0)
  {
    var grown := Register(store, request, encode, sign).value.0;
    forall i, j | 0 <= i < j < |grown|
      ensures grown[i].email != grown[j].email && grown[i].username != grown[j].username
    {
      if j == |store| {
        assert grown[i] in store;
      }
    }
  }

  /** The same registration a second time is turned down: the email is now taken. */
  lemma RegisterTwice(store: seq<Account>, request: RegisterRequest,
                      encode: string -> string, sign: Account -> string)
    requires Register(store, request, encode, sign).Success?
    ensures Register(Register(store, request, encode, sign).value.0, request, encode, sign) == Failure(EmailTaken)
  {
    var grown := Register(store, request, encode, sign).value.0;
    assert grown[|store|] in grown;
  }

  /**
   The email check comes first: a request whose email and username are both
   taken is told about the email.
   */
  lemma EmailCheckedBeforeUsername(store: seq<Account>, request: RegisterRequest,
                                   encode: string -> string, sign: Account -> string, i: nat, j: nat)
    requires !Blank(request.email) && !Blank(request.password) && !Blank(request.username)
    requires i < |store| && store[i].email == request.email.value
    requires j < |store| && store[j].username == request.username.value
    ensures Register(store, request, encode, sign) == Failure(EmailTaken)
  {
    assert store[i] in store;
  }

  /**
   Register then login: the new account is found by its email and, once the
   authentication manager accepts the password, the token is signed for it.
   */
  lemma RegisterThenLogin(store: seq<Account>, email: string, password: string, username: string,
                          encode: string -> string, sign: Account -> string, authenticate: (string, string) -> bool)
    requires Register(store, RegisterRequest(Some(email), Some(password), Some(username)), encode, sign).Success?
    requires authenticate(email, password)
    ensures var account := Account(email, encode(password), username, User);
            var grown := Register(store, RegisterRequest(Some(email), Some(password), Some(username)), encode, sign).value.0;
            Login(grown, AuthRequest(Some(email), Some(password)), authenticate, sign) == Success(AuthResponse(sign(account)))
  {
    var account := Account(email, encode(password), username, User);
    FindInAppended(store, account, EmailColumn, email);
  }
}
