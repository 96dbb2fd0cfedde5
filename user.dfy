/** The `User` record of app/models/user.rb: its validations (including the
    password confirmation that `has_secure_password` adds), the
    `before_save` downcasing of username and email, the users table that
    saving appends to or updates, and `authenticate`. */
module Users {
  import opened Common

  /** A stored password digest. */
  type Digest = string

  /** The one-way function `has_secure_password` applies to a password.
      bcrypt is not modelled: the caller supplies the function. */
  type Hasher = string -> Digest

  /** Whether an address matches `URI::MailTo::EMAIL_REGEXP`. The regular
      expression is not modelled: the caller supplies the predicate. */
  type EmailFormat = string -> bool

  /** The two facts about the address format the record relies on. */
  predicate KnownEmailFormat(matches: EmailFormat) {
    matches("user@example.com") && !matches("invalid-email")
  }

  /** A row of the users table. */
  datatype User = User(username: string, email: string, passwordDigest: Digest)

  /** The attributes of a record at save time. `password` is the value of
      the `password` reader: `None` when no password was assigned, and also
      after an empty one was submitted, which the writer ignores (see
      `PasswordReader`). `passwordConfirmation` is `None` when none was
      submitted. */
  datatype UserForm = UserForm(
    username: string,
    email: string,
    password: Option<string>,
    passwordConfirmation: Option<string>)

  /** The `password` reader after a submission is assigned to a record
      whose reader was nil (`None` stands for no assignment): the writer of
      `has_secure_password` ignores an empty string, so that leaves the
      reader nil, and any other password is kept as it is. */
  function PasswordReader(submitted: Option<string>): (r: Option<string>)
    ensures r.Some? ==> r == submitted && r.value != ""
    ensures submitted.Some? && submitted.value != "" ==> r == submitted
  {
    if submitted == Some("") then None else submitted
  }

  /** The attributes errors are recorded against. */
  datatype Field = Username | Email | Password | PasswordConfirmation

  type UserError = FieldError<Field>

  const UsernameMinLength: nat := 3
  const UsernameMaxLength: nat := 30
  const PasswordMinLength: nat := 6

  /** `uniqueness: { case_sensitive: false }` on the username. */
  predicate UsernameTaken(form: UserForm, others: seq<User>) {
    exists u :: u in others && Lower(u.username) == Lower(form.username)
  }

  /** `uniqueness: { case_sensitive: false }` on the email. */
  predicate EmailTaken(form: UserForm, others: seq<User>) {
    exists u :: u in others && Lower(u.email) == Lower(form.email)
  }

  /** The condition under which the password length is checked:
      a new record, or a password was supplied. */
  predicate PasswordChecked(form: UserForm, isNew: bool) {
    isNew || form.password.Some?
  }

  /** `length: { minimum: 6 }`; a nil password fails a minimum length. */
  predicate PasswordTooShort(form: UserForm) {
    form.password.None? || |form.password.value| < PasswordMinLength
  }

  /** The confirmation is compared only when one was submitted and the
      password is not blank. */
  predicate ConfirmationChecked(form: UserForm) {
    form.password.Some? && !IsBlank(form.password.value) && form.passwordConfirmation.Some?
  }

  /** What a saved user must satisfy, stated rule by rule: a non-blank
      username of 3 to 30 characters and a non-blank, well-formed email,
      neither equal ignoring case to another record's; a password of at
      least 6 characters whenever one is required; and a confirmation, when
      compared, equal to the password. */
  predicate Acceptable(form: UserForm, others: seq<User>, isNew: bool, matches: EmailFormat) {
    && !IsBlank(form.username)
    && UsernameMinLength <= |form.username| <= UsernameMaxLength
    && (forall u :: u in others ==> Lower(u.username) != Lower(form.username))
    && !IsBlank(form.email)
    && matches(form.email)
    && (forall u :: u in others ==> Lower(u.email) != Lower(form.email))
    && ((isNew || form.password.Some?) ==> form.password.Some? && |form.password.value| >= PasswordMinLength)
    && (ConfirmationChecked(form) ==> form.passwordConfirmation == form.password)
  }

  /** The username rules: presence, case-insensitive uniqueness, length. */
  function UsernameErrors(form: UserForm, others: seq<User>): (errors: set<UserError>)
    ensures forall e :: e in errors ==> e.field == Username
  {
    (if IsBlank(form.username) then {FieldError(Username, Blank)} else {})
    + (if UsernameTaken(form, others) then {FieldError(Username, Taken)} else {})
    + (if |form.username| < UsernameMinLength then {FieldError(Username, TooShort(UsernameMinLength))} else {})
    + (if |form.username| > UsernameMaxLength then {FieldError(Username, TooLong(UsernameMaxLength))} else {})
  }

  /** The email rules: presence, case-insensitive uniqueness, format. */
  function EmailErrors(form: UserForm, others: seq<User>, matches: EmailFormat): (errors: set<UserError>)
    ensures forall e :: e in errors ==> e.field == Email
  {
    (if IsBlank(form.email) then {FieldError(Email, Blank)} else {})
    + (if EmailTaken(form, others) then {FieldError(Email, Taken)} else {})
    + (if !matches(form.email) then {FieldError(Email, Invalid)} else {})
  }

  /** The password rules: the conditional minimum length, and the
      confirmation added by `has_secure_password`. */
  function PasswordErrors(form: UserForm, isNew: bool): (errors: set<UserError>)
    ensures forall e :: e in errors ==> e.field == Password || e.field == PasswordConfirmation
  {
    (if ConfirmationChecked(form) && form.passwordConfirmation != form.password
     then {FieldError(PasswordConfirmation, ConfirmationMismatch)} else {})
    + (if PasswordChecked(form, isNew) && PasswordTooShort(form)
       then {FieldError(Password, TooShort(PasswordMinLength))} else {})
  }

  /** `valid?`: the errors recorded against a form, given the other records
      of the table (for an existing record, every record but itself). */
  function Validate(form: UserForm, others: seq<User>, isNew: bool, matches: EmailFormat): (errors: set<UserError>)
    ensures errors == {} <==> Acceptable(form, others, isNew, matches)
  {
    UsernameErrors(form, others) + EmailErrors(form, others, matches) + PasswordErrors(form, isNew)
  }

  /** The username messages: each is recorded exactly when its rule is
      broken. */
  lemma UsernameMessages(form: UserForm, others: seq<User>, isNew: bool, matches: EmailFormat)
    ensures FieldError(Username, Blank) in Validate(form, others, isNew, matches) <==> IsBlank(form.username)
    ensures FieldError(Username, TooShort(3)) in Validate(form, others, isNew, matches) <==> |form.username| < 3
    ensures FieldError(Username, TooLong(30)) in Validate(form, others, isNew, matches) <==> |form.username| > 30
    ensures FieldError(Username, Taken) in Validate(form, others, isNew, matches)
        <==> exists u :: u in others && Lower(u.username) == Lower(form.username)
  {
  }

  /** The email messages: each is recorded exactly when its rule is broken. */
  lemma EmailMessages(form: UserForm, others: seq<User>, isNew: bool, matches: EmailFormat)
    ensures FieldError(Email, Blank) in Validate(form, others, isNew, matches) <==> IsBlank(form.email)
    ensures FieldError(Email, Taken) in Validate(form, others, isNew, matches)
        <==> exists u :: u in others && Lower(u.email) == Lower(form.email)
    ensures FieldError(Email, Invalid) in Validate(form, others, isNew, matches) <==> !matches(form.email)
  {
  }

  /** The password messages: the length message exactly when a password is
      required and missing or shorter than 6, the confirmation message
      exactly when a submitted confirmation differs from a non-blank
      password. */
  lemma PasswordMessages(form: UserForm, others: seq<User>, isNew: bool, matches: EmailFormat)
    ensures FieldError(Password, TooShort(6)) in Validate(form, others, isNew, matches)
        <==> (isNew || form.password.Some?) && (form.password.None? || |form.password.value| < 6)
    ensures FieldError(PasswordConfirmation, ConfirmationMismatch) in Validate(form, others, isNew, matches)
        <==> form.password.Some? && !IsBlank(form.password.value)
             && form.passwordConfirmation.Some? && form.passwordConfirmation != form.password
  {
  }

  /** The two addresses whose format is known: "invalid-email" is recorded
      as invalid and "user@example.com" is not. */
  lemma KnownFormatMessages(form: UserForm, others: seq<User>, isNew: bool, matches: EmailFormat)
    requires KnownEmailFormat(matches)
    ensures form.email == "invalid-email" ==> FieldError(Email, Invalid) in Validate(form, others, isNew, matches)
    ensures form.email == "user@example.com" ==> FieldError(Email, Invalid) !in Validate(form, others, isNew, matches)
  {
    EmailMessages(form, others, isNew, matches);
  }

  /** An existing record that is saved without a new password is not
      length-checked: its password rule cannot fail. */
  lemma ExistingRecordWithoutPassword(form: UserForm, others: seq<User>, matches: EmailFormat)
    requires form.password.None?
    ensures MessagesOn(Validate(form, others, false, matches), Password) == {}
    ensures MessagesOn(Validate(form, others, false, matches), PasswordConfirmation) == {}
  {
  }

  /** The digest stored after a save: a supplied password is hashed, and
      without one the current digest stays. */
  function DigestAfter(form: UserForm, current: Digest, hash: Hasher): (d: Digest)
    ensures form.password.Some? ==> d == hash(form.password.value)
    ensures form.password.None? ==> d == current
  {
    match form.password
    case Some(p) => hash(p)
    case None => current
  }

  /** The `before_save` callbacks: the row written for a form, with email
      and username downcased. */
  function Normalised(form: UserForm, digest: Digest): (u: User)
    ensures IsLowerCase(u.username) && IsLowerCase(u.email)
    ensures Lower(u.username) == Lower(form.username) && Lower(u.email) == Lower(form.email)
    ensures u.passwordDigest == digest
  {
    LowerNormalises(form.username);
    LowerNormalises(form.email);
    User(Lower(form.username), Lower(form.email), digest)
  }

  /** Submitting an empty password: a new record is refused as too short,
      while an existing record gets no password or confirmation message and
      keeps its digest. */
  lemma EmptyPasswordSubmission(username: string, email: string, confirmation: Option<string>,
                                others: seq<User>, matches: EmailFormat, current: Digest, hash: Hasher)
    ensures var form := UserForm(username, email, PasswordReader(Some("")), confirmation);
      && FieldError(Password, TooShort(6)) in Validate(form, others, true, matches)
      && MessagesOn(Validate(form, others, false, matches), Password) == {}
      && MessagesOn(Validate(form, others, false, matches), PasswordConfirmation) == {}
      && DigestAfter(form, current, hash) == current
  {
    var form := UserForm(username, email, PasswordReader(Some("")), confirmation);
    PasswordMessages(form, others, true, matches);
    ExistingRecordWithoutPassword(form, others, matches);
  }

  /** Saving a stored row again leaves its username and email as they are. */
  lemma ResaveKeepsNames(u: User, password: Option<string>, confirmation: Option<string>, digest: Digest)
    requires IsLowerCase(u.username) && IsLowerCase(u.email)
    ensures Normalised(UserForm(u.username, u.email, password, confirmation), digest).username == u.username
    ensures Normalised(UserForm(u.username, u.email, password, confirmation), digest).email == u.email
  {
    LowerNormalises(u.username);
    LowerNormalises(u.email);
  }

  /** Every stored username and email is lower-case. */
  predicate StoredLowerCase(users: seq<User>) {
    forall u :: u in users ==> IsLowerCase(u.username) && IsLowerCase(u.email)
  }

  /** No two rows share a username or an email, ignoring case. */
  predicate NoCollisions(users: seq<User>) {
    forall i, j :: 0 <= i < |users| && 0 <= j < |users| && i != j ==>
      Lower(users[i].username) != Lower(users[j].username) && Lower(users[i].email) != Lower(users[j].email)
  }

  predicate StoreInvariant(users: seq<User>) {
    StoredLowerCase(users) && NoCollisions(users)
  }

  /** Every row of the table but the one at index i. */
  function Without(users: seq<User>, i: nat): (r: seq<User>)
    requires i < |users|
    ensures |r| == |users| - 1
    ensures forall j :: 0 <= j < |users| && j != i ==> users[j] in r
  {
    var r := users[..i] + users[i + 1..];
    assert forall j :: 0 <= j < i ==> r[j] == users[j];
    assert forall j :: i < j < |users| ==> r[j - 1] == users[j];
    r
  }

  /** Appending the normalised row of a form that passed validation keeps
      the table lower-case and free of collisions. */
  lemma RegisterKeepsInvariant(users: seq<User>, form: UserForm, matches: EmailFormat, digest: Digest)
    requires StoreInvariant(users)
    requires Validate(form, users, true, matches) == {}
    ensures StoreInvariant(users + [Normalised(form, digest)])
  {
    var u := Normalised(form, digest);
    var after := users + [u];
    LowerNormalises(u.username);
    LowerNormalises(u.email);
    forall i, j | 0 <= i < |after| && 0 <= j < |after| && i != j
      ensures Lower(after[i].username) != Lower(after[j].username)
      ensures Lower(after[i].email) != Lower(after[j].email)
    {
      if i == |users| {
        assert after[j] in users;
      } else if j == |users| {
        assert after[i] in users;
      }
    }
  }

  /** Replacing row i by the normalised row of a form that passed
      validation against the other rows keeps the table lower-case and free
      of collisions. */
  lemma UpdateKeepsInvariant(users: seq<User>, i: nat, form: UserForm, matches: EmailFormat, digest: Digest)
    requires i < |users|
    requires StoreInvariant(users)
    requires Validate(form, Without(users, i), false, matches) == {}
    ensures StoreInvariant(users[i := Normalised(form, digest)])
  {
    var u := Normalised(form, digest);
    var after := users[i := u];
    var others := Without(users, i);
    LowerNormalises(u.username);
    LowerNormalises(u.email);
    forall v | v in after
      ensures IsLowerCase(v.username) && IsLowerCase(v.email)
    {
      var k :| 0 <= k < |after| && after[k] == v;
      if k != i {
        assert v in users;
      }
    }
    forall j, k | 0 <= j < |after| && 0 <= k < |after| && j != k
      ensures Lower(after[j].username) != Lower(after[k].username)
      ensures Lower(after[j].email) != Lower(after[k].email)
    {
      if j == i {
        assert after[k] in others;
      } else if k == i {
        assert after[j] in others;
      }
    }
  }

  /** Two forms whose emails, or whose usernames, differ only in case
      cannot both be saved: once the first is stored, the second is refused
      as taken. */
  lemma CaseVariantIsTaken(users: seq<User>, first: UserForm, second: UserForm, digest: Digest, isNew: bool, matches: EmailFormat)
    ensures Lower(first.email) == Lower(second.email)
        ==> FieldError(Email, Taken) in Validate(second, users + [Normalised(first, digest)], isNew, matches)
    ensures Lower(first.username) == Lower(second.username)
        ==> FieldError(Username, Taken) in Validate(second, users + [Normalised(first, digest)], isNew, matches)
  {
    var u := Normalised(first, digest);
    var after := users + [u];
    assert u in after;
    LowerAbsorbs(first.email, second.email);
    LowerAbsorbs(first.username, second.username);
  }

  /** `authenticate`: the user when the password matches the stored
      digest, nothing otherwise. The failure carries no reason. */
  function Authenticate(u: User, password: string, hash: Hasher): (r: Option<User>)
    ensures r.Some? ==> r.value == u
  {
    if hash(password) == u.passwordDigest then Some(u) else None
  }

  /** A user saved with password p authenticates with p, and with any other
      password exactly when that password hashes to the same digest. */
  lemma AuthenticateAfterSave(form: UserForm, current: Digest, hash: Hasher, attempt: string)
    requires form.password.Some?
    ensures var u := Normalised(form, DigestAfter(form, current, hash));
      && Authenticate(u, form.password.value, hash) == Some(u)
      && (Authenticate(u, attempt, hash).Some? <==> hash(attempt) == hash(form.password.value))
  {
  }

  /** The users table. */
  class UserStore {
    var users: seq<User>
    const hash: Hasher
    const emailFormat: EmailFormat

    predicate Valid()
      reads this
    {
      StoreInvariant(users)
    }

    constructor (hash: Hasher, emailFormat: EmailFormat)
      requires KnownEmailFormat(emailFormat)
      ensures Valid() && users == []
      ensures this.hash == hash && this.emailFormat == emailFormat
    {
      users := [];
      this.hash := hash;
      this.emailFormat := emailFormat;
    }

    /** Registration (`User.new(...).save`): validate the new record
        against every row, then downcase, hash and append it; a form that
        fails validation leaves the table unchanged. */
    method Register(form: UserForm) returns (errors: set<UserError>, saved: Option<User>)
      requires Valid()
      modifies this
      ensures Valid()
      ensures errors == Validate(form, old(users), true, emailFormat)
      ensures errors == {} ==>
        && form.password.Some?
        && saved == Some(Normalised(form, hash(form.password.value)))
        && users == old(users) + [saved.value]
      ensures errors != {} ==> saved == None && users == old(users)
    {
      errors := Validate(form, users, true, emailFormat);
      if errors != {} {
        return errors, None;
      }
      var u := Normalised(form, DigestAfter(form, "", hash));
      RegisterKeepsInvariant(users, form, emailFormat, u.passwordDigest);
      users := users + [u];
      saved := Some(u);
    }

    /** Saving the record at index i with new attributes: validated against
        every other row, with the password rules of an existing record; a
        missing password keeps the stored digest. */
    method Update(i: nat, form: UserForm) returns (errors: set<UserError>)
      requires Valid() && i < |users|
      modifies this
      ensures Valid()
      ensures errors == Validate(form, Without(old(users), i), false, emailFormat)
      ensures errors == {} ==>
        users == old(users)[i := Normalised(form, DigestAfter(form, old(users)[i].passwordDigest, hash))]
      ensures errors != {} ==> users == old(users)
    {
      errors := Validate(form, Without(users, i), false, emailFormat);
      if errors != {} {
        return;
      }
      var u := Normalised(form, DigestAfter(form, users[i].passwordDigest, hash));
      UpdateKeepsInvariant(users, i, form, emailFormat, u.passwordDigest);
      users := users[i := u];
    }
  }
}
