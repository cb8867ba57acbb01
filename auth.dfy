/** Sign-up and login (backend/controllers/authController.js) over the
    account store: the required fields, the IIIT e-mail domains and the
    order of the login guards. Password hashing is a parameter (`hash`),
    password comparison the function parameter `compare`; the token a
    successful login signs is represented by the session it names. */
module Auth {
  import opened Common
  import opened Text
  import opened UserModel
  import opened Accounts

  /** The domains an IIIT participant's e-mail must end with. */
  const IiitDomains: seq<string> := ["@iiit.ac.in", "@students.iiit.ac.in", "@research.iiit.ac.in"]

  /** `allowedDomains.some(domain => email.endsWith(domain))`, on the
      e-mail as sent. */
  predicate OnIiitDomain(email: string) {
    exists i :: 0 <= i < |IiitDomains| && EndsWith(email, IiitDomains[i])
  }

  /** Trimming keeps a suffix that starts and ends with a non-space
      character. */
  lemma TrimKeepsSuffix(e: string, d: string)
    requires EndsWith(e, d) && d != [] && !IsSpace(d[0]) && !IsSpace(d[|d| - 1])
    ensures EndsWith(Trim(e), d)
  {
    var s := TrimStart(e);
    assert !IsSpace(e[|e| - |d|]);
    assert s[|s| - |d|..] == d;
    assert TrimEnd(s) == s;
  }

  /** Lower-casing keeps a suffix without upper-case letters. */
  lemma LowerKeepsSuffix(s: string, d: string)
    requires EndsWith(s, d) && forall k :: 0 <= k < |d| ==> !('A' <= d[k] <= 'Z')
    ensures EndsWith(ToLower(s), d)
  {
    var l := ToLower(s);
    forall k | 0 <= k < |d|
      ensures l[|l| - |d| + k] == d[k]
    {
      assert s[|s| - |d| + k] == d[k];
    }
  }

  /** A suffix that starts and ends with a non-space character and has no
      upper-case letter survives the e-mail setters. */
  lemma EndsWithNormalized(e: string, d: string)
    requires EndsWith(e, d) && d != [] && !IsSpace(d[0]) && !IsSpace(d[|d| - 1])
    requires forall k :: 0 <= k < |d| ==> !('A' <= d[k] <= 'Z')
    ensures EndsWith(NormalizeEmail(e), d)
  {
    TrimKeepsSuffix(e, d);
    LowerKeepsSuffix(Trim(e), d);
  }

  /** Each IIIT domain starts with `@`, ends with a letter and has no
      upper-case letter. */
  lemma DomainIsLower(i: nat)
    requires i < |IiitDomains|
    ensures var d := IiitDomains[i];
            && d != [] && d[0] == '@' && d[|d| - 1] == 'n'
            && forall k :: 0 <= k < |d| ==> !('A' <= d[k] <= 'Z')
  {
  }

  /** The domain test is made on the e-mail as sent, but an accepted
      e-mail is still on an IIIT domain once stored. */
  lemma StoredEmailOnIiitDomain(email: string)
    requires OnIiitDomain(email)
    ensures OnIiitDomain(NormalizeEmail(email))
  {
    var i :| 0 <= i < |IiitDomains| && EndsWith(email, IiitDomains[i]);
    DomainIsLower(i);
    EndsWithNormalized(email, IiitDomains[i]);
  }

  /** What `registerParticipant` reads from the body; `None` is a field
      left out or sent as null. */
  datatype SignupBody = SignupBody(
    firstName: Option<string>,
    lastName: Option<string>,
    email: Option<string>,
    password: Option<string>,
    participantType: Option<string>,
    collegeOrOrg: Option<string>,
    contactNumber: Option<string>)

  /** One of the five required fields is missing or empty. */
  predicate MissingField(b: SignupBody) {
    !Truthy(b.firstName) || !Truthy(b.lastName) || !Truthy(b.email) || !Truthy(b.password) || !Truthy(b.participantType)
  }

  /** The participant `registerParticipant` creates: the body's fields
      through their setters, the password's hash, role participant,
      active, and the other defaults. */
  function NewParticipant(b: SignupBody, hash: string): (u: User)
    requires !MissingField(b)
    ensures u.role == Participant && u.isActive && !u.mustChangePassword
    ensures u.email == NormalizeEmail(b.email.value) && u.password == hash
    ensures u.participantType == ParseParticipantType(b.participantType.value)
    ensures u.firstName == Trimmed(b.firstName) && u.lastName == Trimmed(b.lastName)
    ensures u.interests == [] && u.followedOrganizers == [] && u.discordWebhook == ""
  {
    User(NormalizeEmail(b.email.value), hash, Participant,
         Trimmed(b.firstName), Trimmed(b.lastName), ParseParticipantType(b.participantType.value),
         Trimmed(b.collegeOrOrg), Trimmed(b.contactNumber), [], [],
         None, None, None, None, "", true, false)
  }

  /** What `registerParticipant` decides, in order: the required fields,
      an e-mail not yet registered, the IIIT domain for an IIIT
      participant (Non-IIIT participants have no domain rule), then the
      validators. */
  function SignupCheck(users: map<UserId, User>, b: SignupBody, hash: string): (r: Result<User>)
    ensures MissingField(b) ==> r == Err(BadRequest("Missing required fields"))
    ensures !MissingField(b) && EmailTaken(users, NormalizeEmail(b.email.value)) ==>
              r == Err(BadRequest("Email already registered"))
    ensures !MissingField(b) && !EmailTaken(users, NormalizeEmail(b.email.value))
            && b.participantType.value == "IIIT" && !OnIiitDomain(b.email.value) ==>
              r == Err(BadRequest("IIIT participants must use an official IIIT email ID"))
    ensures r.Ok? <==>
              && !MissingField(b) && !EmailTaken(users, NormalizeEmail(b.email.value))
              && (b.participantType.value == "IIIT" ==> OnIiitDomain(b.email.value))
              && UserValid(NewParticipant(b, hash))
    ensures r.Ok? ==> r.value == NewParticipant(b, hash) && !EmailTaken(users, r.value.email)
    ensures r.Ok? && r.value.participantType == Some(Iiit) ==> OnIiitDomain(r.value.email)
  {
    if MissingField(b) then Err(BadRequest("Missing required fields"))
    else if EmailTaken(users, NormalizeEmail(b.email.value)) then Err(BadRequest("Email already registered"))
    else if b.participantType.value == "IIIT" && !OnIiitDomain(b.email.value) then
      Err(BadRequest("IIIT participants must use an official IIIT email ID"))
    else
      var u := NewParticipant(b, hash);
      if !UserValid(u) then Err(ServerError(ValidationFailed))
      else if u.participantType == Some(Iiit) then
        StoredEmailOnIiitDomain(b.email.value);
        Ok(u)
      else Ok(u)
  }

  /** `registerParticipant`: `SignupCheck` decides, and the participant it
      accepts is stored under the fresh `id`. */
  method RegisterParticipant(store: AccountStore, id: UserId, b: SignupBody, hash: string) returns (r: Result<UserId>)
    requires store.Valid() && id !in store.users
    modifies store
    ensures store.Valid() && store.resetRequests == old(store.resetRequests)
    ensures var c := SignupCheck(old(store.users), b, hash);
            && (c.Err? ==> r == Err(c.error) && store.users == old(store.users))
            && (c.Ok? ==> r == Ok(id) && store.users == old(store.users)[id := c.value])
  {
    var c := SignupCheck(store.users, b, hash);
    if c.Err? {
      return Err(c.error);
    }
    store.InsertUser(id, c.value);
    r := Ok(id);
  }

  /** Who a successful login signs a token for. */
  datatype Session = Session(userId: UserId, role: Role)

  /** `loginUser`: both fields required; an unknown e-mail and a wrong
      password give the same answer; a disabled account is refused before
      its password is compared. */
  method LoginUser(store: AccountStore, email: Option<string>, password: Option<string>,
                   compare: (string, string) -> bool) returns (r: Result<Session>)
    requires store.Valid()
    ensures !Truthy(email) || !Truthy(password) ==> r == Err(BadRequest("Email and password required"))
    ensures Truthy(email) && Truthy(password) && !EmailTaken(store.users, NormalizeEmail(email.value)) ==>
              r == Err(BadRequest("Invalid credentials"))
    ensures Truthy(email) && Truthy(password) ==>
              forall id :: id in store.users && store.users[id].email == NormalizeEmail(email.value) ==>
                && (!store.users[id].isActive ==> r == Err(Forbidden("Account is disabled. Contact admin.")))
                && (store.users[id].isActive && !compare(password.value, store.users[id].password) ==>
                      r == Err(BadRequest("Invalid credentials")))
                && (store.users[id].isActive && compare(password.value, store.users[id].password) ==>
                      r == Ok(Session(id, store.users[id].role)))
  {
    if !Truthy(email) || !Truthy(password) {
      return Err(BadRequest("Email and password required"));
    }
    var users := store.users;
    var e := NormalizeEmail(email.value);
    if !EmailTaken(users, e) {
      return Err(BadRequest("Invalid credentials"));
    }
    var id :| id in users && users[id].email == e;
    forall other | other in users && users[other].email == e
      ensures other == id
    {
      assert EmailsApart(users, id, other);
    }
    var u := users[id];
    if !u.isActive {
      return Err(Forbidden("Account is disabled. Contact admin."));
    }
    if !compare(password.value, u.password) {
      return Err(BadRequest("Invalid credentials"));
    }
    r := Ok(Session(id, u.role));
  }
}
