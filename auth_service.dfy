/** Registration and login. The password encoder, the token generator and the
    authentication manager are outside this model: they are passed in as
    functions, and the model states what the service does with their answers. */
module AuthService {
  import opened Wrappers
  import opened Entities
  import opened GlobalExceptionHandler
  import opened Store

  const BearerType := "Bearer"

  /** The message `Optional.orElseThrow()` raises on an empty optional. */
  const NoValuePresent := "No value present"

  /** Spring Security's message when the authentication manager rejects the
      credentials. */
  const BadCredentialsMessage := "Bad credentials"

  function AlreadyRegistered(email: string): string
  {
    "Email " + email + " is already registered."
  }

  /** `login`: the authentication manager's verdict on the credentials comes
      first; the user is then read back by email, and the token is issued for
      the stored email and password hash. */
  function Login(db: Database, email: string, password: string,
                 authenticate: (string, string) -> bool,
                 generateToken: (string, string) -> string): (r: Result<AuthResponse, Exception>)
    reads db
    ensures !authenticate(email, password) ==> r == Failure(BadCredentials(BadCredentialsMessage))
    ensures authenticate(email, password) && email !in db.users ==> r == Failure(OtherException(Some(NoValuePresent)))
    ensures r.Success? <==> authenticate(email, password) && email in db.users
    ensures r.Success? ==>
              var u := db.users[email];
              r.value == AuthResponse(generateToken(u.email, u.password), BearerType, u.id)
  {
    if !authenticate(email, password) then Failure(BadCredentials(BadCredentialsMessage))
    else if email !in db.users then Failure(OtherException(Some(NoValuePresent)))
    else
      var u := db.users[email];
      Success(AuthResponse(generateToken(u.email, u.password), BearerType, u.id))
  }

  /** `register`: a new user under a fresh identifier, with the encoded
      password; an email already in use is refused and nothing is stored. */
  method Register(db: Database, fullName: Option<string>, email: string, password: string,
                  encode: string -> string, generateToken: (string, string) -> string,
                  authenticate: (string, string) -> bool)
    returns (r: Result<AuthResponse, Exception>)
    requires db.Valid()
    modifies db
    ensures db.Valid()
    ensures email in old(db.users) ==>
              r == Failure(UserAlreadyExists(AlreadyRegistered(email))) && unchanged(db)
    ensures email !in old(db.users) ==>
              var id := old(db.nextUserId);
              && db.users == old(db.users)[email := User(id, fullName, email, encode(password))]
              && (forall e :: e in old(db.users) ==> old(db.users)[e].id != id)
              && db.projects == old(db.projects) && db.tasks == old(db.tasks)
              && db.nextUserId == id + 1
              && db.nextProjectId == old(db.nextProjectId) && db.nextTaskId == old(db.nextTaskId)
              && r == Success(AuthResponse(generateToken(email, encode(password)), BearerType, id))
              && (authenticate(email, password) ==>
                    Login(db, email, password, authenticate, generateToken) == r)
  {
    if email in db.users {
      return Failure(UserAlreadyExists(AlreadyRegistered(email)));
    }
    var id := db.nextUserId;
    var user := User(id, fullName, email, encode(password));
    AddUserKeepsConsistent(db.users, db.projects, db.tasks, db.nextUserId, db.nextProjectId, db.nextTaskId, user);
    db.users := db.users[email := user];
    db.nextUserId := id + 1;
    r := Success(AuthResponse(generateToken(user.email, user.password), BearerType, user.id));
  }
}
