/** The user record (backend/models/User.js): one collection for the three
    roles, with role-conditional required fields, the e-mail pattern, the
    setters that trim and lower-case, and the defaults of a new account. */
module UserModel {
  import opened Common
  import opened Text

  const PersonNameMaxLength := 100
  const CollegeMaxLength := 200
  const ContactNumberMaxLength := 20
  const OrganizerFieldMaxLength := 200
  const DescriptionMaxLength := 5000
  const PasswordMinLength := 6

  datatype Role = Participant | Organizer | Admin

  datatype ParticipantType = Iiit | NonIiit

  /** The `participantType` enum. */
  function ParseParticipantType(s: string): (r: Option<ParticipantType>)
    ensures r == Some(Iiit) <==> s == "IIIT"
    ensures r == Some(NonIiit) <==> s == "Non-IIIT"
  {
    if s == "IIIT" then Some(Iiit)
    else if s == "Non-IIIT" then Some(NonIiit)
    else None
  }

  /** A stored user. Optional string fields are `None` when unset; the
      password is the stored bcrypt hash. */
  datatype User = User(
    email: string,
    password: string,
    role: Role,
    firstName: Option<string>,
    lastName: Option<string>,
    participantType: Option<ParticipantType>,
    collegeOrOrg: Option<string>,
    contactNumber: Option<string>,
    interests: seq<string>,
    followedOrganizers: seq<UserId>,
    organizerName: Option<string>,
    category: Option<string>,
    description: Option<string>,
    contactEmail: Option<string>,
    discordWebhook: string,
    isActive: bool,
    mustChangePassword: bool)

  /** The `lowercase` and `trim` setters of `email` and `contactEmail`;
      query filters on `email` pass through the same setters. */
  function NormalizeEmail(s: string): string {
    ToLower(Trim(s))
  }

  /** A stored e-mail is stored again unchanged. */
  lemma NormalizeEmailIdempotent(s: string)
    ensures NormalizeEmail(NormalizeEmail(s)) == NormalizeEmail(s)
  {
    NormalEntry(s);
    NormalEntryFixed(NormalizeEmail(s));
  }

  /** The pattern `^\S+@\S+\.\S+$`: no white space anywhere, an `@` after
      at least one character, and later a `.` with at least one character
      on each side. */
  predicate EmailShaped(s: string) {
    && (forall i :: 0 <= i < |s| ==> !IsSpace(s[i]))
    && exists a, d :: 0 < a && a + 1 < d && d + 1 < |s| && s[a] == '@' && s[d] == '.'
  }

  /** A string the `required` validator accepts: set and not empty. */
  predicate Present(s: Option<string>) {
    s.Some? && s.value != ""
  }

  /** The `maxlength` validator, which skips an unset field. */
  predicate Within(s: Option<string>, max: nat) {
    s.None? || JsLength(s.value) <= max
  }

  /** The `match` validator of `contactEmail`, which skips an unset or
      empty value. */
  predicate ContactEmailShaped(s: Option<string>) {
    s.None? || s.value == "" || EmailShaped(s.value)
  }

  /** What the validators demand when a user is saved: the e-mail pattern,
      the password's minimum length, every maximum length, and the fields
      each role requires. */
  predicate UserValid(u: User) {
    && EmailShaped(u.email)
    && JsLength(u.password) >= PasswordMinLength
    && Within(u.firstName, PersonNameMaxLength) && Within(u.lastName, PersonNameMaxLength)
    && Within(u.collegeOrOrg, CollegeMaxLength) && Within(u.contactNumber, ContactNumberMaxLength)
    && Within(u.organizerName, OrganizerFieldMaxLength) && Within(u.category, OrganizerFieldMaxLength)
    && Within(u.description, DescriptionMaxLength)
    && ContactEmailShaped(u.contactEmail)
    && (u.role == Participant ==> Present(u.firstName) && Present(u.lastName) && u.participantType.Some?)
    && (u.role == Organizer ==>
          Present(u.organizerName) && Present(u.category) && Present(u.description) && Present(u.contactEmail))
  }

  /** A field assigned through the `trim` setter. */
  function Trimmed(s: Option<string>): (r: Option<string>)
    ensures r.Some? <==> s.Some?
    ensures r.Some? ==> IsTrimmed(r.value) && |r.value| <= |s.value|
  {
    if s.Some? then TrimIsTrimmed(s.value); Some(Trim(s.value)) else None
  }

  /** `contactEmail` assigned through its setters. */
  function NormalizedEmail(s: Option<string>): (r: Option<string>)
    ensures r.Some? <==> s.Some?
  {
    if s.Some? then Some(NormalizeEmail(s.value)) else None
  }
}
