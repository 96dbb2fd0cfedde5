/** The `Game` record of app/models/game.rb: its declarative validations,
    the three scopes over the games table, the derived `status`, and the
    guarded transitions `start!` and `complete!`. */
module Games {
  import opened Common

  /** `Time.current`, which the caller passes in. */
  type Time = int

  /** The value of `status`. */
  datatype GameStatus = Upcoming | InProgress | Completed

  /** The scopes `upcoming`, `in_progress` and `completed`. */
  datatype Scope = UpcomingGames | InProgressGames | CompletedGames

  /** The two optional timestamps that make up a game's lifecycle. */
  datatype Stamps = Stamps(startedAt: Option<Time>, completedAt: Option<Time>)
  {
    /** A game is completed only after it was started. */
    predicate Lifecycle() {
      completedAt.Some? ==> startedAt.Some?
    }

    /** `status`: derived from which timestamps are present. A completion
        time decides on its own; when completed => started holds, the
        status names a scope that selects the game. */
    function Status(): (s: GameStatus)
      ensures s == Completed <==> completedAt.Some?
      ensures Lifecycle() ==> InScope(ScopeOf(s))
    {
      if completedAt.Some? then Completed
      else if startedAt.Some? then InProgress
      else Upcoming
    }

    /** The `where` condition of each scope. */
    predicate InScope(s: Scope) {
      match s
      case UpcomingGames => startedAt.None?
      case InProgressGames => startedAt.Some? && completedAt.None?
      case CompletedGames => completedAt.Some?
    }
  }

  /** The scope whose name matches a status. */
  function ScopeOf(s: GameStatus): Scope {
    match s
    case Upcoming => UpcomingGames
    case InProgress => InProgressGames
    case Completed => CompletedGames
  }

  /** Position of a status along upcoming -> in progress -> completed. */
  function Rank(s: GameStatus): nat {
    match s
    case Upcoming => 0
    case InProgress => 1
    case Completed => 2
  }

  /** A timestamp that was set keeps its value. */
  predicate Keeps(before: Option<Time>, after: Option<Time>) {
    before.Some? ==> after == before
  }

  /** Neither timestamp that was set has been overwritten or cleared. */
  predicate Advances(before: Stamps, after: Stamps) {
    Keeps(before.startedAt, after.startedAt) && Keeps(before.completedAt, after.completedAt)
  }

  /** The new timestamps after a bang method, and the value it returned. */
  datatype Outcome = Outcome(stamps: Stamps, ok: bool)

  /** `start!`: refuses a game that has already started, otherwise records
      the start time. */
  function AfterStart(st: Stamps, now: Time): (r: Outcome)
    ensures r.ok <==> st.startedAt.None?
    ensures !r.ok ==> r.stamps == st
    ensures r.ok ==> r.stamps == Stamps(Some(now), st.completedAt)
    ensures Advances(st, r.stamps)
    ensures st.Lifecycle() ==> r.stamps.Lifecycle()
    ensures r.ok && st.completedAt.None? ==> r.stamps.Status() == InProgress
  {
    if st.startedAt.Some? then Outcome(st, false)
    else Outcome(st.(startedAt := Some(now)), true)
  }

  /** `complete!`: refuses a game that is already completed or was never
      started, otherwise records the completion time. */
  function AfterComplete(st: Stamps, now: Time): (r: Outcome)
    ensures r.ok <==> st.startedAt.Some? && st.completedAt.None?
    ensures !r.ok ==> r.stamps == st
    ensures r.ok ==> r.stamps == Stamps(st.startedAt, Some(now))
    ensures Advances(st, r.stamps)
    ensures st.Lifecycle() ==> r.stamps.Lifecycle()
    ensures r.ok ==> r.stamps.Status() == Completed
  {
    if st.completedAt.Some? || st.startedAt.None? then Outcome(st, false)
    else Outcome(st.(completedAt := Some(now)), true)
  }

  /** A call of one of the two bang methods, at a given time. */
  datatype Call = Start(at: Time) | Complete(at: Time)

  function Apply(st: Stamps, c: Call): Outcome {
    match c
    case Start(t) => AfterStart(st, t)
    case Complete(t) => AfterComplete(st, t)
  }

  /** The timestamps after a sequence of calls, in order. */
  function Replay(st: Stamps, calls: seq<Call>): Stamps
    decreases |calls|
  {
    if calls == [] then st else Replay(Apply(st, calls[0]).stamps, calls[1..])
  }

  /** Whatever sequence of `start!` and `complete!` calls is made, a game
      that was completed only after starting stays so, no timestamp is ever
      overwritten, and the status never moves backwards. */
  lemma {:induction false} ReplayAdvances(st: Stamps, calls: seq<Call>)
    ensures st.Lifecycle() ==> Replay(st, calls).Lifecycle()
    ensures Advances(st, Replay(st, calls))
    ensures Rank(st.Status()) <= Rank(Replay(st, calls).Status())
    decreases |calls|
  {
    if calls != [] {
      var next := Apply(st, calls[0]).stamps;
      ReplayAdvances(next, calls[1..]);
    }
  }

  /** Under completed => started, a game lies in exactly one scope: the one
      that bears the name of its status. */
  lemma ScopeMatchesStatus(st: Stamps, s: Scope)
    requires st.Lifecycle()
    ensures st.InScope(s) <==> s == ScopeOf(st.Status())
  {
  }

  /** Without completed => started the scopes overlap: a game with only a
      completion time is both upcoming and completed. */
  lemma ScopesOverlapWithoutLifecycle()
    ensures exists st: Stamps :: !st.Lifecycle() && st.InScope(UpcomingGames) && st.InScope(CompletedGames)
  {
    var st := Stamps(None, Some(0));
    assert !st.Lifecycle() && st.InScope(UpcomingGames) && st.InScope(CompletedGames);
  }

  /** The attributes named by the `validates` declarations: name,
      description, max_participants and min_participants. */
  datatype Field = Name | Description | MinParticipants | MaxParticipants

  type GameError = FieldError<Field>

  const NameMinLength: nat := 3
  const NameMaxLength: nat := 100
  const DescriptionMaxLength: nat := 1000

  /** A game record. `start!` and `complete!` update it in place. */
  class Game {
    var name: string
    var description: string
    var minParticipants: Option<int>
    var maxParticipants: Option<int>
    var startedAt: Option<Time>
    var completedAt: Option<Time>

    /** `Game.new`: a game that has not started. */
    constructor (name: string, description: string, minParticipants: Option<int>, maxParticipants: Option<int>)
      ensures this.name == name && this.description == description
      ensures this.minParticipants == minParticipants && this.maxParticipants == maxParticipants
      ensures Timestamps() == Stamps(None, None) && Status() == Upcoming
    {
      this.name := name;
      this.description := description;
      this.minParticipants := minParticipants;
      this.maxParticipants := maxParticipants;
      startedAt := None;
      completedAt := None;
    }

    function Timestamps(): Stamps
      reads this
    {
      Stamps(startedAt, completedAt)
    }

    /** `status` of this record: when completed => started holds, the
        scope named after it selects the record. */
    function Status(): (s: GameStatus)
      reads this
      ensures s == Completed <==> completedAt.Some?
      ensures Timestamps().Lifecycle() ==> Timestamps().InScope(ScopeOf(s))
    {
      Timestamps().Status()
    }

    /** `start!`. */
    method Start(now: Time) returns (ok: bool)
      modifies this
      ensures Outcome(Timestamps(), ok) == AfterStart(old(Timestamps()), now)
      ensures name == old(name) && description == old(description)
      ensures minParticipants == old(minParticipants) && maxParticipants == old(maxParticipants)
    {
      if startedAt.Some? {
        return false;
      }
      startedAt := Some(now);
      ok := true;
    }

    /** `complete!`. */
    method Complete(now: Time) returns (ok: bool)
      modifies this
      ensures Outcome(Timestamps(), ok) == AfterComplete(old(Timestamps()), now)
      ensures name == old(name) && description == old(description)
      ensures minParticipants == old(minParticipants) && maxParticipants == old(maxParticipants)
    {
      if completedAt.Some? || startedAt.None? {
        return false;
      }
      completedAt := Some(now);
      ok := true;
    }
  }

  /** Another record of the table already carries this game's name
      (uniqueness is case-sensitive; the record itself is excluded). */
  predicate NameTaken(g: Game, table: seq<Game>)
    reads g, table
  {
    exists h :: h in table && h != g && h.name == g.name
  }

  /** What a stored game must satisfy: a non-blank, unique name of 3 to 100
      characters, a non-blank description of at most 1000 characters, and
      two positive participant counts with max >= min. These include the
      check constraints and the name limit of the games table. */
  predicate Acceptable(g: Game, table: seq<Game>)
    reads g, table
  {
    && !IsBlank(g.name) && NameMinLength <= |g.name| <= NameMaxLength && !NameTaken(g, table)
    && !IsBlank(g.description) && |g.description| <= DescriptionMaxLength
    && g.minParticipants.Some? && g.maxParticipants.Some?
    && 0 < g.minParticipants.value <= g.maxParticipants.value
  }

  /** `presence: true, numericality: { only_integer: true, greater_than: 0 }`
      on one participant count. */
  function CountErrors(field: Field, count: Option<int>): set<GameError> {
    match count
    case None => {FieldError(field, Blank), FieldError(field, NotANumber)}
    case Some(n) => if n > 0 then {} else {FieldError(field, GreaterThan(0))}
  }

  /** `max_participants_greater_than_or_equal_to_min`: silent when either
      count is missing. */
  function OrderErrors(minCount: Option<int>, maxCount: Option<int>): (errors: set<GameError>)
    ensures forall e :: e in errors ==> e == FieldError(MaxParticipants, BelowMinParticipants)
    ensures errors != {} <==> minCount.Some? && maxCount.Some? && maxCount.value < minCount.value
  {
    if minCount.None? || maxCount.None? then {}
    else if maxCount.value < minCount.value then {FieldError(MaxParticipants, BelowMinParticipants)}
    else {}
  }

  /** `validates :name`: presence, length, case-sensitive uniqueness. */
  function NameErrors(g: Game, table: seq<Game>): (errors: set<GameError>)
    reads g, table
    ensures forall e :: e in errors ==> e.field == Name
  {
    (if IsBlank(g.name) then {FieldError(Name, Blank)} else {})
    + (if |g.name| < NameMinLength then {FieldError(Name, TooShort(NameMinLength))} else {})
    + (if |g.name| > NameMaxLength then {FieldError(Name, TooLong(NameMaxLength))} else {})
    + (if NameTaken(g, table) then {FieldError(Name, Taken)} else {})
  }

  /** `validates :description`: presence and maximum length. */
  function DescriptionErrors(g: Game): (errors: set<GameError>)
    reads g
    ensures forall e :: e in errors ==> e.field == Description
  {
    (if IsBlank(g.description) then {FieldError(Description, Blank)} else {})
    + (if |g.description| > DescriptionMaxLength then {FieldError(Description, TooLong(DescriptionMaxLength))} else {})
  }

  /** `valid?`: the errors the validations record against a game, given
      the games already in the table. */
  function Validate(g: Game, table: seq<Game>): (errors: set<GameError>)
    reads g, table
    ensures errors == {} <==> Acceptable(g, table)
  {
    NameErrors(g, table)
    + DescriptionErrors(g)
    + CountErrors(MaxParticipants, g.maxParticipants)
    + CountErrors(MinParticipants, g.minParticipants)
    + OrderErrors(g.minParticipants, g.maxParticipants)
  }

  /** The participant-count messages: a missing count gets exactly the
      presence and number messages and suppresses the ordering check; two
      present counts with max < min put the ordering message on
      max_participants, and it is the only message there when max itself
      is positive. */
  lemma ParticipantMessages(g: Game, table: seq<Game>)
    ensures g.minParticipants.None? ==> MessagesOn(Validate(g, table), MinParticipants) == {Blank, NotANumber}
    ensures g.maxParticipants.None? ==> MessagesOn(Validate(g, table), MaxParticipants) == {Blank, NotANumber}
    ensures FieldError(MaxParticipants, BelowMinParticipants) in Validate(g, table)
        <==> g.minParticipants.Some? && g.maxParticipants.Some? && g.maxParticipants.value < g.minParticipants.value
    ensures g.minParticipants.Some? && g.maxParticipants.Some?
        && 0 < g.maxParticipants.value < g.minParticipants.value
        ==> MessagesOn(Validate(g, table), MaxParticipants) == {BelowMinParticipants}
  {
  }

  /** The name and description messages, one per violated bound. */
  lemma NameAndDescriptionMessages(g: Game, table: seq<Game>)
    ensures FieldError(Name, Blank) in Validate(g, table) <==> IsBlank(g.name)
    ensures FieldError(Name, TooShort(3)) in Validate(g, table) <==> |g.name| < 3
    ensures FieldError(Name, TooLong(100)) in Validate(g, table) <==> |g.name| > 100
    ensures FieldError(Name, Taken) in Validate(g, table) <==> NameTaken(g, table)
    ensures FieldError(Description, Blank) in Validate(g, table) <==> IsBlank(g.description)
    ensures FieldError(Description, TooLong(1000)) in Validate(g, table) <==> |g.description| > 1000
  {
  }

  /** The games of a table that a scope selects, in table order. */
  function Where(games: seq<Game>, s: Scope): (r: seq<Game>)
    reads games
    ensures forall g :: g in r ==> g in games && g.Timestamps().InScope(s)
    ensures forall g :: g in games && g.Timestamps().InScope(s) ==> g in r
    ensures multiset(r) <= multiset(games)
  {
    if games == [] then []
    else
      assert games == [games[0]] + games[1..];
      (if games[0].Timestamps().InScope(s) then [games[0]] else []) + Where(games[1..], s)
  }

  /** When every game was completed only after starting, the three scopes
      split the table: each record appears in exactly one of them, as often
      as it appears in the table. */
  lemma {:induction false} ScopesPartition(games: seq<Game>)
    requires forall g :: g in games ==> g.Timestamps().Lifecycle()
    ensures multiset(Where(games, UpcomingGames)) + multiset(Where(games, InProgressGames))
          + multiset(Where(games, CompletedGames)) == multiset(games)
  {
    if games != [] {
      var g, rest := games[0], games[1..];
      assert games == [g] + rest;
      ScopesPartition(rest);
      ScopeMatchesStatus(g.Timestamps(), UpcomingGames);
      ScopeMatchesStatus(g.Timestamps(), InProgressGames);
      ScopeMatchesStatus(g.Timestamps(), CompletedGames);
    }
  }

  /** The games table. */
  class GameTable {
    var games: seq<Game>

    constructor ()
      ensures games == []
    {
      games := [];
    }

    /** `save`: a new record that passes validation is appended; a record
        already in the table needs no insert; an invalid one changes
        nothing. */
    method Save(g: Game) returns (errors: set<GameError>)
      modifies this
      ensures errors == Validate(g, old(games))
      ensures games == if errors == {} && g !in old(games) then old(games) + [g] else old(games)
    {
      errors := Validate(g, games);
      if errors == {} && g !in games {
        games := games + [g];
      }
    }
  }
}
