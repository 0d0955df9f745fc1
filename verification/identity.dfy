/**
 * Registration (POST /api/v1/register) and login (POST /api/v1/login) over
 * the `users` collection, keyed here by email.
 */
module Identity {
  import opened Common

  type Email = string

  /** A stored user; `password` holds the salted bcrypt hash, never the plaintext. */
  datatype UserDoc = UserDoc(name: string, email: Email, image: string, location: string, password: string)

  /** The payload `{email}` of the signed token `generateToken(email)` issues. */
  datatype Token = Token(email: Email)

  /** The `user` object of a reply: the full public profile after registration,
      name and email after login. Neither carries the password hash. */
  datatype PublicUser =
    | Profile(name: string, email: Email, image: string, location: string)
    | Credentials(name: string, email: Email)

  /** An HTTP status with its JSON body; absent body fields are `None`. */
  datatype Reply = Reply(status: nat, success: Option<bool>, message: string, token: Option<Token>, user: Option<PublicUser>)

  const UserExists: Reply := Reply(400, Some(false), "User already exists", None, None)

  /** The one reply for an unknown email and for a wrong password alike. */
  const InvalidCredentials: Reply := Reply(401, None, "Invalid email or password", None, None)

  /** The `users` collection. */
  class UserCollection {
    var users: map<Email, UserDoc>

    /** Each user is stored under its own email, so no email has two users. */
    ghost predicate Valid()
      reads this
    {
      forall e :: e in users ==> users[e].email == e
    }

    constructor ()
      ensures Valid() && users == map[]
    {
      users := map[];
    }

    /**
     * Registers a user. `hashed` is `bcrypt.hash(password, 10)`, a salted hash
     * computed outside the model. An email already present is refused and
     * nothing is inserted.
     */
    method Register(name: string, email: Email, image: string, location: string, hashed: string) returns (reply: Reply)
      requires Valid()
      modifies this
      ensures Valid()
      ensures email in old(users) ==> reply == UserExists && users == old(users)
      ensures email !in old(users) ==>
        && users == old(users)[email := UserDoc(name, email, image, location, hashed)]
        && reply == Reply(201, Some(true), "User registered successfully", Some(Token(email)),
                          Some(Profile(name, email, image, location)))
    {
      if email in users {
        return UserExists;
      }
      users := users[email := UserDoc(name, email, image, location, hashed)];
      reply := Reply(201, Some(true), "User registered successfully", Some(Token(email)),
                     Some(Profile(name, email, image, location)));
    }

    /**
     * Logs a user in. `verify(password, hash)` is `bcrypt.compare`. Both ways
     * to fail give the same reply; success issues a token for the user's email.
     */
    function Login(email: Email, password: string, verify: (string, string) -> bool): (reply: Reply)
      reads this
      ensures reply.status == 401 <==> !(email in users && verify(password, users[email].password))
      ensures reply.status == 401 ==> reply == InvalidCredentials
      ensures reply.status != 401 ==>
        && reply.status == 200
        && reply.success == Some(true)
        && reply.message == "Login successful"
        && reply.token == Some(Token(users[email].email))
        && reply.user == Some(Credentials(users[email].name, email))
    {
      if email !in users then InvalidCredentials
      else
        var user := users[email];
        if !verify(password, user.password) then InvalidCredentials
        else Reply(200, Some(true), "Login successful", Some(Token(user.email)), Some(Credentials(user.name, email)))
    }
  }

  /** The two failure paths of login cannot be told apart by their reply. */
  lemma LoginFailuresIndistinguishable(coll: UserCollection, unknown: Email, p1: string,
                                       known: Email, p2: string, verify: (string, string) -> bool)
    requires unknown !in coll.users
    requires known in coll.users && !verify(p2, coll.users[known].password)
    ensures coll.Login(unknown, p1, verify) == coll.Login(known, p2, verify)
  {
  }

  /** In a valid collection a successful login's token names the email that logged in. */
  lemma LoginTokenNamesEmail(coll: UserCollection, email: Email, password: string, verify: (string, string) -> bool)
    requires coll.Valid()
    requires email in coll.users && verify(password, coll.users[email].password)
    ensures coll.Login(email, password, verify).token == Some(Token(email))
  {
  }
}
