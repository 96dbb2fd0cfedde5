# Matrix Game Platform: the Game and User records

A Dafny model of the two ActiveRecord models of the Matrix Game Platform.
The web layer around them is not modelled.

- **Game** (`app/models/game.rb`). A game has a name, a description and two participant counts. Its lifecycle is held in two optional timestamps, `started_at` and `completed_at`. `status` is derived from which timestamps are present. `start!` and `complete!` are guarded updates: they return false and change nothing when refused. Three scopes filter the games table by timestamp presence. The declarative validations, plus the custom max-versus-min check, decide whether a game may be saved.
- **User** (`app/models/user.rb`). A user has a username, an email and a password digest. The validations cover presence, length, case-insensitive uniqueness, email format, the conditional password length, and the password confirmation that `has_secure_password` adds. Two `before_save` callbacks downcase the email and the username. `authenticate` compares a password against the stored digest.

Files:

- `common.dfy` (module `Common`) holds the shared pieces: `Option`, Ruby's `blank?`, ASCII `downcase` and the validation messages.
- `game.dfy` (module `Games`) holds the game record:
  - the `Stamps` value with its `Status`, scope conditions and lifecycle invariant;
  - the specification functions `AfterStart` and `AfterComplete`;
  - the `Game` class, whose `Start` and `Complete` methods update the timestamps in place and are proved against those functions;
  - `Validate` and the scope filter `Where`;
  - the `GameTable` class.
- `user.dfy` (module `Users`) holds the user record:
  - `Validate` over a form and the other rows of the table;
  - the downcasing `Normalised`;
  - `Authenticate`;
  - the `UserStore` class, whose `Register` and `Update` methods keep the table invariant.

The table invariant has two parts:

- every stored username and email is lower-case;
- no two rows share a username or an email, ignoring case.

Modelling choices:

- Nil strings are modelled as the empty string. Rails records the same messages for both under presence, length and format.
- A missing participant count is `None`.
- The caller passes in the current time.
- The caller supplies the password hash function and the email-format predicate.
- The store's constructor requires the email-format predicate to accept `user@example.com` and to reject `invalid-email`.
- The errors of a record are a set of (attribute, message) pairs.
- The password of a form is the value of the `password` reader. `has_secure_password`'s writer ignores an empty string, so an empty submission leaves it `None` (`PasswordReader`).

The code never validates completed ⇒ started. Only the guard in `complete!` respects it, and a record can be saved with `completed_at` set and `started_at` unset. The model therefore treats completed ⇒ started (`Stamps.Lifecycle`) as a hypothesis:

- `start!` and `complete!` preserve it;
- the scope lemmas assume it;
- `ScopesOverlapWithoutLifecycle` shows that the scopes overlap without it.

## Model

| member | source | states |
|---|---|---|
| Common.Lower | app/models/user.rb:8-9 | downcasing keeps the length and lower-cases each ASCII letter in place |
| Common.LowerNormalises | app/models/user.rb:8-9 | a downcased string is lower-case; a string is unchanged by downcasing exactly when it is already lower-case; downcasing twice equals downcasing once |
| Common.LowerAbsorbs | app/models/user.rb:4-5 | comparing ignoring case gives the same answer whether or not one side was downcased first |
| Games.Stamps.Status | app/models/game.rb:15-19 | the status is completed exactly when `completed_at` is set; under completed ⇒ started, the scope named after the status selects the game (with `ScopeMatchesStatus`, `AfterStart` and `AfterComplete`) |
| Games.Game.Status | app/models/game.rb:15-19 | the record's status is completed exactly when its `completed_at` is set, and under completed ⇒ started the scope named after it selects the record |
| Games.AfterStart | app/models/game.rb:21-24 | `start!` succeeds exactly when `started_at` is unset; on refusal nothing changes; on success only `started_at` becomes `now`; no set timestamp is overwritten; completed ⇒ started is preserved; a game without a completion time becomes in progress |
| Games.AfterComplete | app/models/game.rb:26-29 | `complete!` succeeds exactly when the game is started and not completed; on refusal nothing changes; on success only `completed_at` becomes `now`; no set timestamp is overwritten; completed ⇒ started is preserved; the status becomes completed |
| Games.Game.Start | app/models/game.rb:21-24 | the in-place `start!` returns and leaves exactly what `AfterStart` gives, and leaves name, description and counts unchanged |
| Games.Game.Complete | app/models/game.rb:26-29 | the in-place `complete!` returns and leaves exactly what `AfterComplete` gives, and leaves name, description and counts unchanged |
| Games.Game.constructor | app/models/game.rb:15-19 | a newly built game has neither timestamp and its status is upcoming |
| Games.ReplayAdvances | app/models/game.rb:21-29 | after any sequence of `start!`/`complete!` calls: completed ⇒ started still holds if it held before; neither timestamp that was set has changed; the status has not moved backwards |
| Games.ScopeMatchesStatus | app/models/game.rb:10-19 | under completed ⇒ started, a game satisfies a scope's condition exactly when that scope is the one named after its `status` |
| Games.ScopesOverlapWithoutLifecycle | app/models/game.rb:10-12 | without completed ⇒ started, a game with only `completed_at` is selected by both `upcoming` and `completed` |
| Games.Where | app/models/game.rb:10-12 | a scope selects exactly the games of the table that meet its condition, taking none that are not in the table |
| Games.ScopesPartition | app/models/game.rb:10-12 | under completed ⇒ started, the three scopes together hold every game of the table exactly as often as the table does: they partition it |
| Games.Validate | app/models/game.rb:3-7 | a game has no errors exactly when it meets all of these: its name is non-blank, 3–100 characters and not used by another record; its description is non-blank and at most 1000 characters; both counts are present and positive; max ≥ min |
| Games.NameAndDescriptionMessages | app/models/game.rb:3-4 | the name is recorded blank, too short (3), too long (100) or taken, and the description blank or too long (1000), each exactly when that rule is broken |
| Games.ParticipantMessages | app/models/game.rb:33-39 | a missing count gets exactly "can't be blank" and "is not a number"; the ordering message on max_participants appears exactly when both counts are present and max < min, so it is skipped when either is missing; with a positive max it is then the only message on max_participants |
| Games.OrderErrors | app/models/game.rb:33-39 | the custom validator records at most the one message "must be greater than or equal to min participants" on max_participants, and records it exactly when both counts are present and max < min (see `ParticipantMessages`) |
| Games.GameTable.Save | app/models/game.rb:3-7 | saving returns the validation errors; a valid game that is not yet in the table is appended; otherwise the table is unchanged |
| Users.Validate | app/models/user.rb:2-6 | a form has no errors exactly when it meets all of these: the username is non-blank, 3–30 characters and different ignoring case from every other row's; the email is non-blank, well-formed and different ignoring case from every other row's; the password is at least 6 characters whenever the record is new or a password is supplied; a compared confirmation equals the password |
| Users.UsernameMessages | app/models/user.rb:4 | the username is recorded blank, too short (3), too long (30) or taken, each exactly when that rule is broken; taken means equal ignoring case to another row's |
| Users.EmailMessages | app/models/user.rb:5 | the email is recorded blank, taken ignoring case, or invalid, each exactly when that rule is broken |
| Users.PasswordMessages | app/models/user.rb:2-6 | "too short (6)" is recorded exactly when the record is new or a password is supplied and the password is missing or shorter than 6; the confirmation message is recorded exactly when a submitted confirmation differs from a non-blank password |
| Users.ExistingRecordWithoutPassword | app/models/user.rb:6 | an existing record saved without a password gets no password or confirmation message |
| Users.Normalised | app/models/user.rb:8-9 | the saved row has a lower-case username and email, equal ignoring case to the submitted ones, and the given digest |
| Users.PasswordReader | app/models/user.rb:2 | after assigning a submission to a nil reader, the reader holds a non-empty password only if that password was submitted; an empty submission leaves it nil; any non-empty submission is kept |
| Users.EmptyPasswordSubmission | app/models/user.rb:2-6 | an empty submitted password makes a new record too short, while an existing record gets no password or confirmation message and keeps its digest |
| Users.KnownFormatMessages | spec/models/user_spec.rb:13-14 | with a format that accepts "user@example.com" and rejects "invalid-email", the first address gets no "is invalid" message and the second does |
| Users.DigestAfter | app/models/user.rb:2 | a save with a password stores that password's hash; without one the current digest stays (with `AuthenticateAfterSave` and `UserStore.Update`) |
| Users.ResaveKeepsNames | app/models/user.rb:8-9 | saving a stored row again leaves its username and email unchanged |
| Users.RegisterKeepsInvariant | app/models/user.rb:4-9 | appending the downcased row of a form that passed validation keeps the table lower-case and free of case-insensitive collisions |
| Users.UpdateKeepsInvariant | app/models/user.rb:4-9 | replacing a row by the downcased row of a form that passed validation against the other rows keeps the same invariant |
| Users.CaseVariantIsTaken | app/models/user.rb:4-5 | once a user is stored, a second form whose email, or whose username, differs from that user's only in case is refused as taken |
| Users.Authenticate | app/models/user.rb:2 | `authenticate` yields the user itself or nothing, and nothing says why it failed |
| Users.AuthenticateAfterSave | app/models/user.rb:2 | a user saved with password p authenticates with p, and with any other password exactly when it hashes to the same digest |
| Users.UserStore.Register | app/models/user.rb:1-10 | registration returns the validation errors; on success the downcased, hashed row is appended and returned, so the table grows by one; on failure the table is unchanged; the table invariant is kept |
| Users.UserStore.Update | app/models/user.rb:4-9 | saving row i validates against the other rows with the rules for an existing record; on success only row i is replaced, and it keeps its digest when no password is given; on failure the table is unchanged; the table invariant is kept |

## Left out

- Controllers, sessions, flash messages, HTTP statuses, routes and parameter whitelisting: they are framework code outside the two records.
- The lookup by email at login lives in a controller and is not part of this model.
- Password hashing (bcrypt, salting) is not modelled. The digest is a caller-supplied deterministic function of the password.
- `URI::MailTo::EMAIL_REGEXP` is a library constant. It is a caller-supplied predicate.
- Unicode `downcase` and the Unicode members of `[[:space:]]` are not modelled; only ASCII letters and white space are.
- `Time.current` is not read: the time is a parameter.
- The unique indexes, check constraints and column limits of the migration are database behaviour, as is the race between concurrent registrations. `Games.Acceptable` restates the checked invariants.
- Games.Game.Start: `update!` also re-runs the validations and raises on an invalid record. This is not modelled; the record is taken to be valid, so the method returns true on the path that writes.
- Games.Game.Complete: the same as `start!`: `update!`'s re-validation and exception are not modelled.
- Games.Game.Start: `update!` also saves the record, so calling `start!` or `complete!` on a game that was never saved inserts it into the table. `Game.Start` and `Game.Complete` change only the record and never touch `GameTable`.
- `has_secure_password` also records "can't be blank" for a new record without a digest and enforces a 72-byte maximum. Neither is modelled. A new record without a password is still refused, as too short.
- Assigning nil to the password clears the digest in Rails. Submitted forms never carry nil, so the model reads `None` only as "nothing assigned". `PasswordReader` assumes the reader was nil before the assignment, as it is for a newly built or freshly loaded record.
- Raw participant input that is not an integer ("must be an integer", non-numeric strings) is not modelled: a count is either missing or an integer.
- Game-name uniqueness is modelled as exact equality. The database collation that could make it case-insensitive is not modelled.
- Errors are a set. The order and repetition of Rails' error list are not kept.
- Users.UserStore.Register: `before_save` overwrites the caller's record object in place. The model returns the downcased row as `saved` instead.
- Games.GameTable.Save: a stored game is the same object as the caller's, so edits to a stored game are visible before they are saved. The model keeps no dirty-attribute tracking and does not separate a stored game from its in-memory state.
