/** The account handlers of backend/controllers/userController.js over an
    in-memory user collection and reset-request collection: profile and
    password changes, organizer administration by the admin, following
    organizers, and the password-reset requests. Random passwords and their
    bcrypt hashes are passed in; comparing a password with a hash is the
    function parameter `compare`. */
module Accounts {
  import opened Common
  import opened Text
  import opened UserModel
  import opened ResetRequestModel

  // ---------------------------------------------------------------------
  // The user collection

  /** Some stored user has this (already normalised) e-mail. */
  predicate EmailTaken(users: map<UserId, User>, email: string) {
    exists id :: id in users && users[id].email == email
  }

  /** Users `a` and `b` are two users with different e-mails. */
  predicate EmailsApart(users: map<UserId, User>, a: UserId, b: UserId)
    requires a in users && b in users
  {
    a != b ==> users[a].email != users[b].email
  }

  /** Every stored user passes the validators, and the unique index on
      `email` holds. */
  ghost predicate UsersOk(users: map<UserId, User>) {
    && (forall id :: id in users ==> UserValid(users[id]))
    && (forall a, b {:trigger EmailsApart(users, a, b)} :: a in users && b in users ==> EmailsApart(users, a, b))
  }

  /** Saving a valid user under its own e-mail. */
  lemma SaveUserKeeps(users: map<UserId, User>, id: UserId, u: User)
    requires UsersOk(users) && id in users && UserValid(u) && u.email == users[id].email
    ensures UsersOk(users[id := u])
  {
    var m := users[id := u];
    forall a, b | a in m && b in m
      ensures EmailsApart(m, a, b)
    {
      assert EmailsApart(users, a, b);
    }
  }

  /** Inserting a valid user whose e-mail no one has. */
  lemma InsertUserKeeps(users: map<UserId, User>, id: UserId, u: User)
    requires UsersOk(users) && id !in users && UserValid(u) && !EmailTaken(users, u.email)
    ensures UsersOk(users[id := u])
  {
    var m := users[id := u];
    forall a, b | a in m && b in m
      ensures EmailsApart(m, a, b)
    {
      if a != id && b != id {
        assert EmailsApart(users, a, b);
      }
    }
  }

  // ---------------------------------------------------------------------
  // updateProfile

  /** The fields `updateProfile` reads from the body; `None` is a field
      sent as null or left out. `interests` and `followedOrganizers` are
      `Absent`/`None` when falsy; `discordWebhook` is `None` unless it is a
      string. */
  datatype ProfileBody = ProfileBody(
    firstName: Option<string>,
    lastName: Option<string>,
    contactNumber: Option<string>,
    collegeOrOrg: Option<string>,
    interests: ListInput<string>,
    followedOrganizers: Option<seq<UserId>>,
    organizerName: Option<string>,
    category: Option<string>,
    description: Option<string>,
    contactEmail: Option<string>,
    discordWebhook: Option<string>)

  /** `sent ?? current`, through the field's `trim` setter. */
  function Merge(sent: Option<string>, current: Option<string>): (r: Option<string>)
    ensures sent.None? ==> r == current
    ensures sent.Some? ==> r == Some(Trim(sent.value))
  {
    if sent.Some? then Trimmed(sent) else current
  }

  /** The user `updateProfile` saves: a participant's own fields or an
      organizer's own fields merged from the body, an admin's record as it
      was. The account's identity (e-mail, password, role, activity and
      participant type) never changes, a field sent as null keeps its
      value, and neither role touches the other role's fields. */
  function MergeProfile(u: User, b: ProfileBody): (r: User)
    ensures r.email == u.email && r.password == u.password && r.role == u.role
    ensures r.isActive == u.isActive && r.participantType == u.participantType
    ensures r.mustChangePassword == u.mustChangePassword
    ensures u.role == Admin ==> r == u
    ensures u.role != Participant ==>
              && r.firstName == u.firstName && r.lastName == u.lastName && r.collegeOrOrg == u.collegeOrOrg
              && r.interests == u.interests && r.followedOrganizers == u.followedOrganizers
    ensures u.role != Organizer ==>
              && r.organizerName == u.organizerName && r.category == u.category && r.description == u.description
              && r.contactEmail == u.contactEmail && r.discordWebhook == u.discordWebhook
    ensures u.role != Admin ==>
              r.contactNumber == Merge(b.contactNumber, u.contactNumber)
    ensures u.role == Participant ==>
              && r.firstName == Merge(b.firstName, u.firstName) && r.lastName == Merge(b.lastName, u.lastName)
              && r.collegeOrOrg == Merge(b.collegeOrOrg, u.collegeOrOrg)
              && r.interests == (if b.interests.Absent? then u.interests else NormalizeList(b.interests))
              && r.followedOrganizers == (if b.followedOrganizers.None? then u.followedOrganizers
                                          else b.followedOrganizers.value)
    ensures u.role == Organizer ==>
              && r.organizerName == Merge(b.organizerName, u.organizerName)
              && r.category == Merge(b.category, u.category)
              && r.description == Merge(b.description, u.description)
              && r.contactEmail == (if b.contactEmail.None? then u.contactEmail else NormalizedEmail(b.contactEmail))
              && r.discordWebhook == (if b.discordWebhook.None? then u.discordWebhook else Trim(b.discordWebhook.value))
  {
    match u.role
    case Participant =>
      u.(firstName := Merge(b.firstName, u.firstName),
         lastName := Merge(b.lastName, u.lastName),
         contactNumber := Merge(b.contactNumber, u.contactNumber),
         collegeOrOrg := Merge(b.collegeOrOrg, u.collegeOrOrg),
         interests := if b.interests.Absent? then u.interests else NormalizeList(b.interests),
         followedOrganizers := if b.followedOrganizers.None? then u.followedOrganizers else b.followedOrganizers.value)
    case Organizer =>
      u.(organizerName := Merge(b.organizerName, u.organizerName),
         category := Merge(b.category, u.category),
         description := Merge(b.description, u.description),
         contactEmail := if b.contactEmail.None? then u.contactEmail else NormalizedEmail(b.contactEmail),
         contactNumber := Merge(b.contactNumber, u.contactNumber),
         discordWebhook := if b.discordWebhook.None? then u.discordWebhook else Trim(b.discordWebhook.value))
    case Admin => u
  }

  /** Sending the same profile twice saves what sending it once saved. */
  lemma MergeProfileIdempotent(u: User, b: ProfileBody)
    ensures MergeProfile(MergeProfile(u, b), b) == MergeProfile(u, b)
  {
  }

  // ---------------------------------------------------------------------
  // changePassword

  /** The checks `changePassword` makes before it reads the user: both
      passwords sent, the new one at least six characters long. */
  function PasswordFieldsCheck(current: Option<string>, next: Option<string>): (r: Option<Error>)
    ensures r.None? <==> Truthy(current) && Truthy(next) && JsLength(next.value) >= PasswordMinLength
    ensures r.Some? ==> r.value.BadRequest?
  {
    if !Truthy(current) || !Truthy(next) then Some(BadRequest("All fields required"))
    else if JsLength(next.value) < PasswordMinLength then Some(BadRequest("Password must be at least 6 characters"))
    else None
  }

  // ---------------------------------------------------------------------
  // createOrganizer

  const OrganizerDomain := "@felicity.com"

  /** A lower-case letter, `@` or `.`: the characters of the domain. */
  predicate PlainChar(c: char) {
    ('a' <= c <= 'z') || c == '@' || c == '.'
  }

  lemma PlainCharFixed(c: char)
    requires PlainChar(c)
    ensures !IsSpace(c) && LowerChar(c) == c
  {
  }

  lemma DomainPlain()
    ensures forall k :: 0 <= k < |OrganizerDomain| ==> PlainChar(OrganizerDomain[k])
  {
  }

  /** The login e-mail of a new organizer: the name lower-cased with every
      white-space character removed, then "@felicity.com". */
  function OrganizerEmail(name: string): (e: string)
    ensures EndsWith(e, OrganizerDomain)
    ensures forall i :: 0 <= i < |e| ==> !IsSpace(e[i])
  {
    var local := RemoveSpaces(ToLower(name));
    var e := local + OrganizerDomain;
    assert e[|local|..] == OrganizerDomain;
    DomainPlain();
    assert forall i :: |local| <= i < |e| ==> !IsSpace(e[i]) by {
      forall i | |local| <= i < |e| ensures !IsSpace(e[i]) {
        assert e[i] == OrganizerDomain[i - |local|];
        PlainCharFixed(OrganizerDomain[i - |local|]);
      }
    }
    e
  }

  /** The generated e-mail goes through the `email` setters unchanged, so
      the duplicate check and the stored record agree. */
  lemma OrganizerEmailStored(name: string)
    ensures NormalizeEmail(OrganizerEmail(name)) == OrganizerEmail(name)
  {
    var lowered := ToLower(name);
    var local := RemoveSpaces(lowered);
    var e := OrganizerEmail(name);
    assert e == local + OrganizerDomain;
    LowerStable(name);
    DomainPlain();
    forall i | 0 <= i < |e|
      ensures LowerChar(e[i]) == e[i]
    {
      if i < |local| {
        assert e[i] == local[i] && local[i] in local;
      } else {
        assert e[i] == OrganizerDomain[i - |local|];
        PlainCharFixed(OrganizerDomain[i - |local|]);
      }
    }
    assert e != [];
    TrimOfTrimmed(e);
    ToLowerFixed(e);
  }

  /** The generated e-mail matches the e-mail pattern exactly when the name
      has a character other than white space. */
  lemma OrganizerEmailShaped(name: string)
    ensures EmailShaped(OrganizerEmail(name)) <==> RemoveSpaces(ToLower(name)) != []
  {
    var local := RemoveSpaces(ToLower(name));
    var e := OrganizerEmail(name);
    assert e == local + OrganizerDomain;
    if local != [] {
      assert e[|local|] == '@' && e[|local| + 9] == '.';
    } else {
      assert e == OrganizerDomain;
      assert forall a :: 0 < a < |e| ==> e[a] != '@';
    }
  }

  /** Names that differ only in letter case give the same e-mail, so the
      second such organizer is refused as a duplicate. */
  lemma OrganizerEmailIgnoresCase(name: string)
    ensures OrganizerEmail(ToLower(name)) == OrganizerEmail(name)
  {
    ToLowerIdempotent(name);
  }

  /** What `createOrganizer` reads from the body; `organizerName` is `None`
      when it is not a string. */
  datatype OrganizerBody = OrganizerBody(
    organizerName: Option<string>,
    category: Option<string>,
    description: Option<string>,
    contactEmail: Option<string>)

  /** The organizer `createOrganizer` stores: the generated e-mail (which
      the `email` setters leave as it is, by `OrganizerEmailStored`) and the
      hash of the random password, the body's fields through their
      setters, active, and the other defaults. */
  function NewOrganizer(name: string, hash: string, b: OrganizerBody): (u: User)
    ensures u.role == Organizer && u.isActive && !u.mustChangePassword
    ensures u.email == OrganizerEmail(name) && u.password == hash
    ensures u.organizerName == Trimmed(b.organizerName) && u.category == Trimmed(b.category)
    ensures u.description == Trimmed(b.description) && u.contactEmail == NormalizedEmail(b.contactEmail)
    ensures u.interests == [] && u.followedOrganizers == [] && u.discordWebhook == ""
  {
    User(OrganizerEmail(name), hash, Organizer, None, None, None, None, None, [], [],
         Trimmed(b.organizerName), Trimmed(b.category), Trimmed(b.description), NormalizedEmail(b.contactEmail),
         "", true, false)
  }

  /** What `createOrganizer` decides, in order: a name that is not a
      string is dereferenced and fails; the generated e-mail must be free;
      the new record must pass the validators. */
  function NewOrganizerCheck(users: map<UserId, User>, b: OrganizerBody, hash: string): (r: Result<User>)
    ensures b.organizerName.None? ==> r == Err(ServerError(MissingReference))
    ensures b.organizerName.Some? && EmailTaken(users, OrganizerEmail(b.organizerName.value)) ==>
              r == Err(BadRequest("Organizer already exists"))
    ensures r.Ok? <==> b.organizerName.Some? && !EmailTaken(users, OrganizerEmail(b.organizerName.value))
                       && UserValid(NewOrganizer(b.organizerName.value, hash, b))
    ensures r.Ok? ==> r.value == NewOrganizer(b.organizerName.value, hash, b) && !EmailTaken(users, r.value.email)
    ensures r.Err? && b.organizerName.Some? && !EmailTaken(users, OrganizerEmail(b.organizerName.value)) ==>
              r == Err(ServerError(ValidationFailed))
  {
    if b.organizerName.None? then Err(ServerError(MissingReference))
    else if EmailTaken(users, OrganizerEmail(b.organizerName.value)) then Err(BadRequest("Organizer already exists"))
    else
      var u := NewOrganizer(b.organizerName.value, hash, b);
      if UserValid(u) then Ok(u) else Err(ServerError(ValidationFailed))
  }

  /** What `createOrganizer` answers: the new id, the login e-mail and the
      generated password. */
  datatype Credentials = Credentials(organizerId: UserId, email: string, password: string)

  // ---------------------------------------------------------------------
  // follow / unfollow / getAllOrganizers

  /** Unfollowing right after following restores the list. */
  lemma UnfollowAfterFollow(followed: seq<UserId>, id: UserId)
    requires id !in followed
    ensures RemoveAll(followed + [id], id) == followed
  {
    RemoveAllAppended(followed, id);
  }

  /** `getAllOrganizers`: every active organizer, flagged with whether the
      caller follows it; a caller missing from the store is dereferenced. */
  function OrganizerDirectory(users: map<UserId, User>, caller: UserId): (r: Result<map<UserId, bool>>)
    ensures caller !in users <==> r == Err(ServerError(MissingReference))
    ensures r.Ok? ==>
              && (forall id :: id in r.value <==> id in users && users[id].role == Organizer && users[id].isActive)
              && (forall id :: id in r.value ==> (r.value[id] <==> id in users[caller].followedOrganizers))
  {
    if caller !in users then Err(ServerError(MissingReference))
    else Ok(map id | id in users && users[id].role == Organizer && users[id].isActive
                :: id in users[caller].followedOrganizers)
  }

  // ---------------------------------------------------------------------
  // The reset-request collection

  /** Every stored request passes the validators and no organizer has two
      pending requests. */
  ghost predicate RequestsOk(reqs: seq<ResetRequest>) {
    (forall i :: 0 <= i < |reqs| ==> ResetValid(reqs[i])) && OnePendingEach(reqs)
  }

  class AccountStore {
    var users: map<UserId, User>
    var resetRequests: seq<ResetRequest>

    ghost predicate Valid()
      reads this
    {
      UsersOk(users) && RequestsOk(resetRequests)
    }

    constructor ()
      ensures Valid() && users == map[] && resetRequests == []
    {
      users := map[];
      resetRequests := [];
    }

    /** `updateProfile`: the caller's record merged with the body, saved if
        the validators accept it. */
    method UpdateProfile(caller: UserId, b: ProfileBody) returns (r: Result<User>)
      requires Valid()
      modifies this
      ensures Valid() && resetRequests == old(resetRequests)
      ensures caller !in old(users) ==> r == Err(NotFound("User not found")) && users == old(users)
      ensures caller in old(users) ==>
                var u := MergeProfile(old(users)[caller], b);
                && (UserValid(u) ==> r == Ok(u) && users == old(users)[caller := u])
                && (!UserValid(u) ==> r == Err(ServerError(ValidationFailed)) && users == old(users))
    {
      if caller !in users {
        return Err(NotFound("User not found"));
      }
      var u := MergeProfile(users[caller], b);
      if !UserValid(u) {
        return Err(ServerError(ValidationFailed));
      }
      SaveUserKeeps(users, caller, u);
      users := users[caller := u];
      r := Ok(u);
    }

    /** `changePassword`: the body checks first, then the user, then the
        current password; the new hash is saved if the validators accept it. */
    method ChangePassword(caller: UserId, current: Option<string>, next: Option<string>,
                          compare: (string, string) -> bool, hash: string) returns (r: Result<()>)
      requires Valid()
      modifies this
      ensures Valid() && resetRequests == old(resetRequests)
      ensures PasswordFieldsCheck(current, next).Some? ==>
                r == Err(PasswordFieldsCheck(current, next).value) && users == old(users)
      ensures PasswordFieldsCheck(current, next).None? && caller !in old(users) ==>
                r == Err(NotFound("User not found")) && users == old(users)
      ensures PasswordFieldsCheck(current, next).None? && caller in old(users) ==>
                var u := old(users)[caller];
                && (!compare(current.value, u.password) ==>
                      r == Err(BadRequest("Current password incorrect")) && users == old(users))
                && (compare(current.value, u.password) && UserValid(u.(password := hash)) ==>
                      r == Ok(()) && users == old(users)[caller := u.(password := hash)])
                && (compare(current.value, u.password) && !UserValid(u.(password := hash)) ==>
                      r == Err(ServerError(ValidationFailed)) && users == old(users))
    {
      var check := PasswordFieldsCheck(current, next);
      if check.Some? {
        return Err(check.value);
      }
      if caller !in users {
        return Err(NotFound("User not found"));
      }
      var u := users[caller];
      if !compare(current.value, u.password) {
        return Err(BadRequest("Current password incorrect"));
      }
      var saved := u.(password := hash);
      if !UserValid(saved) {
        return Err(ServerError(ValidationFailed));
      }
      SaveUserKeeps(users, caller, saved);
      users := users[caller := saved];
      r := Ok(());
    }

    /** `User.create(u)` under the fresh `id`: a valid user whose e-mail
        no one has yet. */
    method InsertUser(id: UserId, u: User)
      requires Valid() && id !in users && UserValid(u) && !EmailTaken(users, u.email)
      modifies this
      ensures Valid() && users == old(users)[id := u] && resetRequests == old(resetRequests)
    {
      InsertUserKeeps(users, id, u);
      users := users[id := u];
    }

    /** `createOrganizer`: `NewOrganizerCheck` decides, and the organizer it
        accepts is stored under the fresh `id`. */
    method CreateOrganizer(id: UserId, b: OrganizerBody, password: string, hash: string) returns (r: Result<Credentials>)
      requires Valid() && id !in users
      modifies this
      ensures Valid() && resetRequests == old(resetRequests)
      ensures var c := NewOrganizerCheck(old(users), b, hash);
              && (c.Err? ==> r == Err(c.error) && users == old(users))
              && (c.Ok? ==> r == Ok(Credentials(id, c.value.email, password)) && users == old(users)[id := c.value])
    {
      var c := NewOrganizerCheck(users, b, hash);
      if c.Err? {
        return Err(c.error);
      }
      InsertUser(id, c.value);
      r := Ok(Credentials(id, c.value.email, password));
    }

    /** `disableOrganizer` and `enableOrganizer`: only an organizer's
        account, and only its `isActive` flag. */
    method SetOrganizerActive(id: UserId, active: bool) returns (r: Result<()>)
      requires Valid()
      modifies this
      ensures Valid() && resetRequests == old(resetRequests)
      ensures id !in old(users) || old(users)[id].role != Organizer ==>
                r == Err(NotFound("Organizer not found")) && users == old(users)
      ensures id in old(users) && old(users)[id].role == Organizer ==>
                r == Ok(()) && users == old(users)[id := old(users)[id].(isActive := active)]
    {
      if id !in users || users[id].role != Organizer {
        return Err(NotFound("Organizer not found"));
      }
      SaveUserKeeps(users, id, users[id].(isActive := active));
      users := users[id := users[id].(isActive := active)];
      r := Ok(());
    }

    /** `deleteOrganizer`: only an organizer's account is removed; the ids
        other users follow and the requests it filed stay as they are. */
    method DeleteOrganizer(id: UserId) returns (r: Result<()>)
      requires Valid()
      modifies this
      ensures Valid() && resetRequests == old(resetRequests)
      ensures id !in old(users) || old(users)[id].role != Organizer ==>
                r == Err(NotFound("Organizer not found")) && users == old(users)
      ensures id in old(users) && old(users)[id].role == Organizer ==>
                r == Ok(()) && users == old(users) - {id}
    {
      if id !in users || users[id].role != Organizer {
        return Err(NotFound("Organizer not found"));
      }
      var m := users - {id};
      forall a, b | a in m && b in m
        ensures EmailsApart(m, a, b)
      {
        assert EmailsApart(users, a, b);
      }
      users := m;
      r := Ok(());
    }

    /** `followOrganizer`: the target must be an active organizer and not
        followed yet; its id is then appended once. */
    method FollowOrganizer(caller: UserId, orgId: UserId) returns (r: Result<()>)
      requires Valid()
      modifies this
      ensures Valid() && resetRequests == old(resetRequests)
      ensures orgId !in old(users) || old(users)[orgId].role != Organizer || !old(users)[orgId].isActive ==>
                r == Err(NotFound("Organizer not found")) && users == old(users)
      ensures orgId in old(users) && old(users)[orgId].role == Organizer && old(users)[orgId].isActive ==>
                && (caller !in old(users) ==> r == Err(ServerError(MissingReference)) && users == old(users))
                && (caller in old(users) && orgId in old(users)[caller].followedOrganizers ==>
                      r == Err(BadRequest("Already following")) && users == old(users))
                && (caller in old(users) && orgId !in old(users)[caller].followedOrganizers ==>
                      var u := old(users)[caller];
                      r == Ok(()) && users == old(users)[caller := u.(followedOrganizers := u.followedOrganizers + [orgId])])
    {
      if orgId !in users || users[orgId].role != Organizer || !users[orgId].isActive {
        return Err(NotFound("Organizer not found"));
      }
      if caller !in users {
        return Err(ServerError(MissingReference));
      }
      var u := users[caller];
      if orgId in u.followedOrganizers {
        return Err(BadRequest("Already following"));
      }
      var saved := u.(followedOrganizers := u.followedOrganizers + [orgId]);
      SaveUserKeeps(users, caller, saved);
      users := users[caller := saved];
      r := Ok(());
    }

    /** `unfollowOrganizer`: every occurrence of the id is filtered out,
        whatever the id names. */
    method UnfollowOrganizer(caller: UserId, orgId: UserId) returns (r: Result<()>)
      requires Valid()
      modifies this
      ensures Valid() && resetRequests == old(resetRequests)
      ensures caller !in old(users) ==> r == Err(ServerError(MissingReference)) && users == old(users)
      ensures caller in old(users) ==>
                var u := old(users)[caller];
                r == Ok(()) && users == old(users)[caller := u.(followedOrganizers := RemoveAll(u.followedOrganizers, orgId))]
    {
      if caller !in users {
        return Err(ServerError(MissingReference));
      }
      var u := users[caller];
      var saved := u.(followedOrganizers := RemoveAll(u.followedOrganizers, orgId));
      SaveUserKeeps(users, caller, saved);
      users := users[caller := saved];
      r := Ok(());
    }

    /** `requestPasswordReset`: organizers only, a reason required, and no
        second request while one is pending; the new request is appended if
        the validators accept it. */
    method RequestPasswordReset(caller: UserId, role: Role, reason: Option<string>) returns (r: Result<RequestId>)
      requires Valid()
      modifies this
      ensures Valid() && users == old(users)
      ensures role != Organizer ==> r == Err(Forbidden("Unauthorized")) && resetRequests == old(resetRequests)
      ensures role == Organizer && !Truthy(reason) ==>
                r == Err(BadRequest("Reason is required")) && resetRequests == old(resetRequests)
      ensures role == Organizer && Truthy(reason) && HasPending(old(resetRequests), caller) ==>
                r == Err(BadRequest("Pending request already exists")) && resetRequests == old(resetRequests)
      ensures role == Organizer && Truthy(reason) && !HasPending(old(resetRequests), caller) ==>
                var q := NewResetRequest(caller, reason.value);
                && (ResetValid(q) ==> r == Ok(|old(resetRequests)|) && resetRequests == old(resetRequests) + [q])
                && (!ResetValid(q) ==> r == Err(ServerError(ValidationFailed)) && resetRequests == old(resetRequests))
    {
      if role != Organizer {
        return Err(Forbidden("Unauthorized"));
      }
      if !Truthy(reason) {
        return Err(BadRequest("Reason is required"));
      }
      if HasPending(resetRequests, caller) {
        return Err(BadRequest("Pending request already exists"));
      }
      var q := NewResetRequest(caller, reason.value);
      if !ResetValid(q) {
        return Err(ServerError(ValidationFailed));
      }
      FileKeepsOnePending(resetRequests, q);
      r := Ok(|resetRequests|);
      resetRequests := resetRequests + [q];
    }

    /** `handlePasswordReset`: admins only; then `Decide`. Approval first
        saves the organizer's new password hash (a deleted organizer is
        dereferenced and fails), then the request, so a request the
        validators refuse leaves the password changed. */
    method HandlePasswordReset(role: Role, id: RequestId, action: string, comment: Option<string>,
                               password: string, hash: string, now: Time) returns (r: Result<()>)
      requires Valid()
      modifies this
      ensures Valid()
      ensures role != Admin ==>
                r == Err(Forbidden("Unauthorized")) && users == old(users) && resetRequests == old(resetRequests)
      ensures role == Admin && id >= |old(resetRequests)| ==>
                r == Err(NotFound("Request not found")) && users == old(users) && resetRequests == old(resetRequests)
      ensures role == Admin && id < |old(resetRequests)| ==>
                var q := old(resetRequests)[id];
                var d := Decide(q, action, comment, password, now);
                && (d.Err? ==> r == Err(d.error) && users == old(users) && resetRequests == old(resetRequests))
                && (d.Ok? && action == "reject" ==>
                      && users == old(users)
                      && (ResetValid(d.value) ==> r == Ok(()) && resetRequests == old(resetRequests)[id := d.value])
                      && (!ResetValid(d.value) ==>
                            r == Err(ServerError(ValidationFailed)) && resetRequests == old(resetRequests)))
                && (d.Ok? && action == "approve" && q.organizerId !in old(users) ==>
                      r == Err(ServerError(MissingReference)) && users == old(users) && resetRequests == old(resetRequests))
                && (d.Ok? && action == "approve" && q.organizerId in old(users) ==>
                      var org := old(users)[q.organizerId].(password := hash);
                      && (!UserValid(org) ==>
                            r == Err(ServerError(ValidationFailed)) && users == old(users)
                            && resetRequests == old(resetRequests))
                      && (UserValid(org) ==> users == old(users)[q.organizerId := org])
                      && (UserValid(org) && ResetValid(d.value) ==>
                            r == Ok(()) && resetRequests == old(resetRequests)[id := d.value])
                      && (UserValid(org) && !ResetValid(d.value) ==>
                            r == Err(ServerError(ValidationFailed)) && resetRequests == old(resetRequests)))
    {
      if role != Admin {
        return Err(Forbidden("Unauthorized"));
      }
      if id >= |resetRequests| {
        return Err(NotFound("Request not found"));
      }
      var q := resetRequests[id];
      var d := Decide(q, action, comment, password, now);
      if d.Err? {
        return Err(d.error);
      }
      if action == "approve" {
        if q.organizerId !in users {
          return Err(ServerError(MissingReference));
        }
        var org := users[q.organizerId].(password := hash);
        if !UserValid(org) {
          return Err(ServerError(ValidationFailed));
        }
        SaveUserKeeps(users, q.organizerId, org);
        users := users[q.organizerId := org];
      }
      if !ResetValid(d.value) {
        return Err(ServerError(ValidationFailed));
      }
      ProcessKeepsOnePending(resetRequests, id, d.value);
      resetRequests := resetRequests[id := d.value];
      r := Ok(());
    }
  }
}
