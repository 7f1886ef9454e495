/**
 * Signup and login over the user table. The table is a sequence of rows in
 * row-id order (the order an unordered `select ... first()` sees them).
 * Password hashing, password verification and token creation live in a
 * module that is not part of this model; they are functions given to each
 * call.
 */
module Auth {
  import opened Wrappers

  /** A row of the user table; its creation time is left out. */
  datatype User = User(id: nat, email: string, hashedPassword: string)

  /** The claims a token is created from: `{"sub": email, "user_id": id}`. */
  datatype Claims = Claims(sub: string, userId: nat)

  datatype AuthResponse =
    | Issued(accessToken: string, tokenType: string)
    | Refused(status: nat, detail: string)

  const Bearer: string := "bearer"
  const EmailTaken: string := "Email already registered"
  const InvalidCredentials: string := "Invalid credentials"

  /** `select(User).where(User.email == email).first()`, as a row position. */
  function FirstWithEmail(users: seq<User>, email: string): (r: Option<nat>)
    ensures r.Some? ==> r.value < |users| && users[r.value].email == email
    ensures r.Some? ==> forall j :: 0 <= j < r.value ==> users[j].email != email
    ensures r.None? <==> forall j :: 0 <= j < |users| ==> users[j].email != email
    decreases |users|
  {
    if users == [] then None
    else if users[0].email == email then Some(0)
    else
      match FirstWithEmail(users[1..], email)
      case None => None
      case Some(i) => Some(i + 1)
  }

  /** The largest id in the table, 0 when it is empty. */
  function MaxId(users: seq<User>): (m: nat)
    ensures forall j :: 0 <= j < |users| ==> users[j].id <= m
    decreases |users|
  {
    if users == [] then 0
    else
      var rest := MaxId(users[1..]);
      if users[0].id > rest then users[0].id else rest
  }

  /** The id the database gives the next row: one past the largest row id. */
  function NextId(users: seq<User>): (id: nat)
    ensures id > 0
    ensures forall j :: 0 <= j < |users| ==> users[j].id < id
  {
    MaxId(users) + 1
  }

  /** Rows are kept in row-id order, the order in which the table is scanned; so ids are also distinct. */
  predicate AscendingIds(users: seq<User>)
  {
    forall i, j :: 0 <= i < j < |users| ==> users[i].id < users[j].id
  }

  predicate UniqueEmails(users: seq<User>)
  {
    forall i, j :: 0 <= i < j < |users| ==> users[i].email != users[j].email
  }

  /** The table after a signup request, and the response to it. */
  datatype SignupStep = SignupStep(users: seq<User>, response: AuthResponse)

  /** `signup`: refuse a registered email, otherwise commit one new row and issue its token. */
  function SignupOn(users: seq<User>, email: string, password: string,
                    hash: string -> string, createToken: Claims -> string): (step: SignupStep)
  {
    if FirstWithEmail(users, email).Some? then
      SignupStep(users, Refused(400, EmailTaken))
    else
      var row := User(NextId(users), email, hash(password));
      SignupStep(users + [row], Issued(createToken(Claims(row.email, row.id)), Bearer))
  }

  /** `login`: the first row with the email must accept the password. */
  function LoginOn(users: seq<User>, email: string, password: string,
                   verify: (string, string) -> bool, createToken: Claims -> string): (response: AuthResponse)
  {
    match FirstWithEmail(users, email)
    case None => Refused(401, InvalidCredentials)
    case Some(i) =>
      if !verify(password, users[i].hashedPassword) then Refused(401, InvalidCredentials)
      else Issued(createToken(Claims(users[i].email, users[i].id)), Bearer)
  }

  /**
   * Signup with a registered email is refused with 400 and changes nothing;
   * with a new email it appends exactly one row, holding the email and the
   * hash of the password under a fresh id, leaves every existing row as it
   * was, and issues a bearer token for that email and id.
   */
  lemma SignupSpec(users: seq<User>, email: string, password: string,
                   hash: string -> string, createToken: Claims -> string)
    ensures var step := SignupOn(users, email, password, hash, createToken);
      && ((exists j :: 0 <= j < |users| && users[j].email == email) ==>
            step == SignupStep(users, Refused(400, EmailTaken)))
      && ((forall j :: 0 <= j < |users| ==> users[j].email != email) ==>
            && |step.users| == |users| + 1
            && step.users[..|users|] == users
            && var row := step.users[|users|];
            && row.email == email && row.hashedPassword == hash(password)
            && (forall j :: 0 <= j < |users| ==> users[j].id != row.id)
            && step.response == Issued(createToken(Claims(email, row.id)), Bearer))
  {
    var step := SignupOn(users, email, password, hash, createToken);
    if forall j :: 0 <= j < |users| ==> users[j].email != email {
      assert step.users[..|users|] == users;
    }
  }

  /**
   * Login is refused with 401 when no row has the email, and when the first
   * row with it does not accept the password (even if a later row with the
   * same email would); otherwise it issues a bearer token for that row.
   */
  lemma LoginSpec(users: seq<User>, email: string, password: string,
                  verify: (string, string) -> bool, createToken: Claims -> string)
    ensures var r := LoginOn(users, email, password, verify, createToken);
      && ((forall j :: 0 <= j < |users| ==> users[j].email != email) ==> r == Refused(401, InvalidCredentials))
      && (forall i :: 0 <= i < |users| && users[i].email == email && (forall j :: 0 <= j < i ==> users[j].email != email) ==>
            r == (if verify(password, users[i].hashedPassword)
                  then Issued(createToken(Claims(email, users[i].id)), Bearer)
                  else Refused(401, InvalidCredentials)))
      && (r.Issued? ==> r.tokenType == Bearer && exists i :: 0 <= i < |users| && users[i].email == email && verify(password, users[i].hashedPassword))
  {
    match FirstWithEmail(users, email)
    case None =>
    case Some(k) =>
      forall i | 0 <= i < |users| && users[i].email == email && (forall j :: 0 <= j < i ==> users[j].email != email)
        ensures i == k
      {
        assert !(i < k) && !(k < i);
      }
  }

  /** A signup never introduces a second row for an email, and keeps the rows in row-id order. */
  lemma SignupKeepsUnique(users: seq<User>, email: string, password: string,
                          hash: string -> string, createToken: Claims -> string)
    ensures var after := SignupOn(users, email, password, hash, createToken).users;
      && (UniqueEmails(users) ==> UniqueEmails(after))
      && (AscendingIds(users) ==> AscendingIds(after))
  {
    SignupSpec(users, email, password, hash, createToken);
  }

  /**
   * With the rows in row-id order, the row the lookup finds is, of all rows
   * with the email, the one with the smallest id.
   */
  lemma {:induction false} FirstWithEmailLowestId(users: seq<User>, email: string)
    requires AscendingIds(users)
    ensures match FirstWithEmail(users, email)
      case None => true
      case Some(k) => forall j :: 0 <= j < |users| && users[j].email == email ==> users[k].id <= users[j].id
  {
    match FirstWithEmail(users, email)
    case None =>
    case Some(k) =>
      forall j | 0 <= j < |users| && users[j].email == email ensures users[k].id <= users[j].id {
        assert !(j < k);
      }
  }

  /** One signup request: an email and a password. */
  datatype Credentials = Credentials(email: string, password: string)

  /** The table after a sequence of signups, each through the endpoint. */
  function SignupAll(users: seq<User>, requests: seq<Credentials>,
                     hash: string -> string, createToken: Claims -> string): (after: seq<User>)
    decreases |requests|
  {
    if requests == [] then users
    else
      var after := SignupOn(users, requests[0].email, requests[0].password, hash, createToken).users;
      SignupAll(after, requests[1..], hash, createToken)
  }

  /**
   * The table has no uniqueness constraint on emails; the lookup in signup
   * is the only guard. From a table with unique emails, any sequence of
   * signups keeps them unique.
   */
  lemma {:induction false} SignupsKeepEmailsUnique(users: seq<User>, requests: seq<Credentials>,
                                                 hash: string -> string, createToken: Claims -> string)
    requires UniqueEmails(users)
    ensures UniqueEmails(SignupAll(users, requests, hash, createToken))
    decreases |requests|
  {
    if requests != [] {
      var after := SignupOn(users, requests[0].email, requests[0].password, hash, createToken).users;
      SignupKeepsUnique(users, requests[0].email, requests[0].password, hash, createToken);
      SignupsKeepEmailsUnique(after, requests[1..], hash, createToken);
    }
  }

  /**
   * Signing up and then logging in with the same email and password issues
   * a bearer token created from the same claims, the email and the new
   * row's id, provided the verifier accepts a password against its own
   * hash. The two calls may use different token creators (one that stamps
   * the time, say), so the tokens themselves need not be equal.
   */
  lemma SignupThenLogin(users: seq<User>, email: string, password: string,
                        hash: string -> string, verify: (string, string) -> bool,
                        tokenAtSignup: Claims -> string, tokenAtLogin: Claims -> string)
    requires SignupOn(users, email, password, hash, tokenAtSignup).response.Issued?
    requires verify(password, hash(password))
    ensures var step := SignupOn(users, email, password, hash, tokenAtSignup);
      && step.response == Issued(tokenAtSignup(Claims(email, NextId(users))), Bearer)
      && LoginOn(step.users, email, password, verify, tokenAtLogin)
         == Issued(tokenAtLogin(Claims(email, NextId(users))), Bearer)
  {
    var step := SignupOn(users, email, password, hash, tokenAtSignup);
    assert FirstWithEmail(users, email).None?;
    var after := step.users;
    assert after == users + [User(NextId(users), email, hash(password))];
    assert forall j :: 0 <= j < |users| ==> after[j].email != email;
    assert after[|users|].email == email;
    assert FirstWithEmail(after, email) == Some(|users|);
  }

  /** The user table of the database, updated in place by signups. */
  class UserStore {
    var users: seq<User>

    /** Row ids are the primary key, and the rows are held in row-id order. */
    ghost predicate Valid()
      reads this
    {
      AscendingIds(users)
    }

    constructor (rows: seq<User>)
      requires AscendingIds(rows)
      ensures Valid() && users == rows
    {
      users := rows;
    }

    /** The signup endpoint: look the email up, and commit a new row if it is not there. */
    method Signup(email: string, password: string, hash: string -> string, createToken: Claims -> string)
      returns (r: AuthResponse)
      requires Valid()
      modifies this
      ensures Valid()
      ensures SignupStep(users, r) == SignupOn(old(users), email, password, hash, createToken)
      ensures UniqueEmails(old(users)) ==> UniqueEmails(users)
    {
      SignupKeepsUnique(users, email, password, hash, createToken);
      var found := FirstWithEmail(users, email);
      if found.Some? {
        return Refused(400, EmailTaken);
      }
      var hashed := hash(password);
      var row := User(NextId(users), email, hashed);
      users := users + [row];
      r := Issued(createToken(Claims(row.email, row.id)), Bearer);
    }

    /** The login endpoint: a lookup that reads the table and never changes it. */
    method Login(email: string, password: string, verify: (string, string) -> bool, createToken: Claims -> string)
      returns (r: AuthResponse)
      requires Valid()
      ensures r == LoginOn(users, email, password, verify, createToken)
      ensures r.Refused? ==> r == Refused(401, InvalidCredentials)
    {
      var found := FirstWithEmail(users, email);
      if found.None? || !verify(password, users[found.value].hashedPassword) {
        return Refused(401, InvalidCredentials);
      }
      var row := users[found.value];
      r := Issued(createToken(Claims(row.email, row.id)), Bearer);
    }
  }
}
