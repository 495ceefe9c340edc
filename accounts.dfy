/**
 * The account serializers: the role a sign-up may choose, and the display name of an
 * account (its full name, or its username when the full name is blank).
 */
module AccountSerializers {
  import opened Results
  import opened Models
  import opened Text

  /** The stored spelling of a role. */
  function RoleName(r: Role): string {
    match r
    case Admin => "admin"
    case Host => "host"
    case Attendee => "attendee"
  }

  /** The role a stored spelling names, if any. */
  function ParseRole(s: string): (r: Option<Role>)
    ensures r.Some? ==> RoleName(r.value) == s
  {
    if s == "admin" then Some(Admin)
    else if s == "host" then Some(Host)
    else if s == "attendee" then Some(Attendee)
    else None
  }

  lemma ParseRoleName(r: Role)
    ensures ParseRole(RoleName(r)) == Some(r)
  {
  }

  /** A sign-up may choose only the attendee or the host role; an accepted value is returned unchanged. */
  function ValidateRole(value: string): (r: Result<string, string>)
    ensures r.Ok? ==> r.value == value
  {
    if value != "attendee" && value != "host" then
      Err("Only 'attendee' and 'host' roles are allowed during registration.")
    else Ok(value)
  }

  /** Of the three roles, sign-up accepts exactly the two that are not admin. */
  lemma ValidateRoleOfRole(r: Role)
    ensures ValidateRole(RoleName(r)).Ok? <==> r != Admin
  {
  }

  /** Whatever text a sign-up sends, an accepted value names a role, and never the admin role. */
  lemma SignUpNeverGrantsAdmin(value: string)
    requires ValidateRole(value).Ok?
    ensures ParseRole(value) == Some(Host) || ParseRole(value) == Some(Attendee)
  {
  }

  /** The account's full name: first and last name joined by a space, white space trimmed. */
  function FullName(u: User): string {
    Trim(u.firstName + " " + u.lastName)
  }

  /** The name an account is shown under: its full name, or its username when that is blank. */
  function DisplayName(u: User): (n: string)
    ensures FullName(u) != [] ==> n == FullName(u)
    ensures FullName(u) == [] ==> n == u.username
    ensures n == [] ==> u.username == []
  {
    if FullName(u) != [] then FullName(u) else u.username
  }

  /** An account whose first and last names are both blank is shown under its username. */
  lemma BlankNamesShowUsername(u: User)
    requires forall i | 0 <= i < |u.firstName| :: IsSpace(u.firstName[i])
    requires forall i | 0 <= i < |u.lastName| :: IsSpace(u.lastName[i])
    ensures DisplayName(u) == u.username
  {
    var joined := u.firstName + " " + u.lastName;
    assert forall i | 0 <= i < |joined| :: IsSpace(joined[i]);
    TrimAllSpace(joined);
  }

  /** An account with a trimmed first and last name is shown under both, joined by a space. */
  lemma TrimmedNamesShowFullName(u: User)
    requires Trimmed(u.firstName) && Trimmed(u.lastName)
    ensures DisplayName(u) == u.firstName + " " + u.lastName
  {
    var joined := u.firstName + " " + u.lastName;
    assert joined[0] == u.firstName[0];
    assert joined[|joined| - 1] == u.lastName[|u.lastName| - 1];
  }

  /** An account with only a first name is shown under that name alone. */
  lemma FirstNameOnlyShowsFirstName(u: User)
    requires Trimmed(u.firstName) && u.lastName == []
    ensures DisplayName(u) == u.firstName
  {
    var joined := u.firstName + " " + u.lastName;
    assert joined == u.firstName + " ";
    assert joined[..|joined| - 1] == u.firstName;
  }
}
