/** What every run of token operations keeps: whom tokens, IT tokens and auth codes belong to, and how long tokens last. */
module TokenRuns {
  import opened Results
  import opened Timestamps
  import opened TinyDb
  import opened Tokens

  /** The table, the time zone, the clock, and when each token was inserted and whom each value was issued to. */
  datatype State = State(
    table: TokenTable, zone: Zone, now: Time, inserted: map<(string, string), Time>, itOwner: map<string, string>, codeOwner: map<string, string>)

  datatype Event =
    | Clock(now: Time)
    | AddToken(user: string, token: string)
    | IssueIt(user: string, value: string)
    | IssueCode(user: string, value: string)
    | DropToken(user: string, token: string)
    | DropUserExpired(user: string)
    | DropExpired
    | DropAll(user: string)

  function Initial(zone: Zone, now: Time): State {
    State(Empty(), zone, now, map[], map[], map[])
  }

  function Step(s: State, e: Event): State {
    match e
    case Clock(now) => s.(now := now)
    case AddToken(user, token) =>
      if s.now.PlusSeconds(VALIDITY).Valid() then
        var key := (user, token);
        s.(table := Add(s.zone, s.table, user, token, s.now),
           inserted := if First(s.table, ByToken(user, token)).Some? then s.inserted else s.inserted[key := s.now])
      else s
    case IssueIt(user, value) =>
      var (table, done) := AddItToken(s.table, user, value);
      if done then s.(table := table, itOwner := s.itOwner[value := user]) else s
    case IssueCode(user, value) =>
      var (table, done) := AddAuthCode(s.table, user, value);
      if done then s.(table := table, codeOwner := s.codeOwner[value := user]) else s
    case DropToken(user, token) => s.(table := RevokeToken(s.table, user, token))
    case DropUserExpired(user) => s.(table := RevokeUserExpired(s.table, user, s.now))
    case DropExpired => s.(table := RevokeExpired(s.table, s.now))
    case DropAll(user) => s.(table := RevokeAllForUser(s.table, user))
  }

  function Run(s: State, events: seq<Event>): State
    decreases |events|
  {
    if events == [] then s else Run(Step(s, events[0]), events[1..])
  }

  /** Generated values have not been issued before. */
  predicate Fresh(s: State, e: Event) {
    match e
    case IssueIt(_, value) => value !in s.itOwner
    case IssueCode(_, value) => value !in s.codeOwner
    case _ => true
  }

  /** A run with fresh values, whatever the clock does. */
  predicate FreshRun(s: State, events: seq<Event>)
    decreases |events|
  {
    events == [] || (Fresh(s, events[0]) && FreshRun(Step(s, events[0]), events[1..]))
  }

  /** The clock does not go back, and keeps its offset. */
  predicate Steady(s: State, e: Event) {
    e.Clock? ==> e.now.offset == s.now.offset && s.now.local <= e.now.local
  }

  predicate SteadyRun(s: State, events: seq<Event>)
    decreases |events|
  {
    events == [] || (Steady(s, events[0]) && SteadyRun(Step(s, events[0]), events[1..]))
  }

  // ---- whom the values belong to ----

  /** Each IT token in the table belongs to the user it was issued to. */
  ghost predicate ItOwned(s: State) {
    forall id :: id in s.table.docs && s.table.docs[id].itToken.Some? ==>
      s.table.docs[id].itToken.value in s.itOwner && s.itOwner[s.table.docs[id].itToken.value] == s.table.docs[id].userid
  }

  /** And each auth code. */
  ghost predicate CodeOwned(s: State) {
    forall id :: id in s.table.docs && s.table.docs[id].authCode.Some? ==>
      s.table.docs[id].authCode.value in s.codeOwner && s.codeOwner[s.table.docs[id].authCode.value] == s.table.docs[id].userid
  }

  /** All values that a user's tokens carry are the same. */
  ghost predicate OneValuePerUser(t: TokenTable) {
    forall i, j :: i in t.docs && j in t.docs && t.docs[i].userid == t.docs[j].userid ==>
      && (t.docs[i].authCode.Some? && t.docs[j].authCode.Some? ==> t.docs[i].authCode == t.docs[j].authCode)
      && (t.docs[i].itToken.Some? && t.docs[j].itToken.Some? ==> t.docs[i].itToken == t.docs[j].itToken)
  }

  /** Every token expires half an hour by the wall clock after it was inserted. */
  ghost predicate Dated(s: State) {
    forall id :: id in s.table.docs ==>
      var key := (s.table.docs[id].userid, s.table.docs[id].token);
      && key in s.inserted && s.inserted[key].PlusSeconds(VALIDITY).Valid()
      && s.table.docs[id].expiration == Expiry(s.zone, s.inserted[key])
  }

  /** What fresh values are enough for. */
  ghost predicate Sound(s: State) {
    s.table.Valid() && ItOwned(s) && CodeOwned(s) && OneValuePerUser(s.table) && UniquePairs(s.table) && Dated(s)
  }

  lemma AddKeepsPairs(s: State, user: string, token: string)
    requires s.table.Valid() && UniquePairs(s.table)
    ensures var t := Step(s, AddToken(user, token)); t.table.Valid() && UniquePairs(t.table)
  {
    FirstFinds(s.table, ByToken(user, token));
  }

  lemma AddKeepsDates(s: State, user: string, token: string)
    requires s.table.Valid() && Dated(s)
    ensures Dated(Step(s, AddToken(user, token)))
  {
    FirstFinds(s.table, ByToken(user, token));
  }

  lemma AddKeepsOwners(s: State, user: string, token: string)
    requires s.table.Valid() && ItOwned(s) && CodeOwned(s)
    ensures ItOwned(Step(s, AddToken(user, token))) && CodeOwned(Step(s, AddToken(user, token)))
  {
  }

  lemma AddKeepsOneValue(s: State, user: string, token: string)
    requires s.table.Valid() && OneValuePerUser(s.table)
    ensures OneValuePerUser(Step(s, AddToken(user, token)).table)
  {
  }

  lemma AddSound(s: State, user: string, token: string)
    requires Sound(s)
    ensures Sound(Step(s, AddToken(user, token)))
  {
    AddKeepsPairs(s, user, token);
    AddKeepsDates(s, user, token);
    AddKeepsOwners(s, user, token);
    AddKeepsOneValue(s, user, token);
  }

  lemma IssueItOwned(s: State, user: string, value: string)
    requires ItOwned(s) && CodeOwned(s) && value !in s.itOwner
    ensures ItOwned(Step(s, IssueIt(user, value))) && CodeOwned(Step(s, IssueIt(user, value)))
  {
  }

  lemma IssueCodeOwned(s: State, user: string, value: string)
    requires ItOwned(s) && CodeOwned(s) && value !in s.codeOwner
    ensures ItOwned(Step(s, IssueCode(user, value))) && CodeOwned(Step(s, IssueCode(user, value)))
  {
  }

  lemma IssueItKeepsOneValue(s: State, user: string, value: string)
    requires OneValuePerUser(s.table)
    ensures OneValuePerUser(Step(s, IssueIt(user, value)).table)
  {
  }

  lemma IssueCodeKeepsOneValue(s: State, user: string, value: string)
    requires OneValuePerUser(s.table)
    ensures OneValuePerUser(Step(s, IssueCode(user, value)).table)
  {
  }

  lemma IssueKeepsPairs(s: State, e: Event)
    requires s.table.Valid() && UniquePairs(s.table) && (e.IssueIt? || e.IssueCode?)
    ensures Step(s, e).table.Valid() && UniquePairs(Step(s, e).table)
  {
  }

  lemma IssueKeepsDates(s: State, e: Event)
    requires Dated(s) && (e.IssueIt? || e.IssueCode?)
    ensures Dated(Step(s, e))
  {
  }

  lemma RemoveSound(s: State, q: Query<Token>)
    requires Sound(s)
    ensures Sound(s.(table := RemoveWhere(s.table, q)))
  {
  }

  lemma StepSound(s: State, e: Event)
    requires Sound(s) && Fresh(s, e)
    ensures Sound(Step(s, e))
  {
    match e {
      case Clock(_) =>
      case AddToken(user, token) => AddSound(s, user, token);
      case IssueIt(user, value) =>
        IssueItOwned(s, user, value);
        IssueItKeepsOneValue(s, user, value);
        IssueKeepsPairs(s, e);
        IssueKeepsDates(s, e);
      case IssueCode(user, value) =>
        IssueCodeOwned(s, user, value);
        IssueCodeKeepsOneValue(s, user, value);
        IssueKeepsPairs(s, e);
        IssueKeepsDates(s, e);
      case DropToken(user, token) => RemoveSound(s, ByToken(user, token));
      case DropUserExpired(user) => RemoveSound(s, Both(OfUser(user), ExpiredBefore(s.now)));
      case DropExpired => RemoveSound(s, ExpiredBefore(s.now));
      case DropAll(user) => RemoveSound(s, OfUser(user));
    }
  }

  /** Ownership, uniqueness and dating hold in every state of every run with fresh values, whatever the clock does. */
  lemma {:induction false} RunSound(s: State, events: seq<Event>)
    requires Sound(s) && FreshRun(s, events)
    ensures Sound(Run(s, events))
    decreases |events|
  {
    if events != [] {
      StepSound(s, events[0]);
      RunSound(Step(s, events[0]), events[1..]);
    }
  }

  lemma InitialSound(zone: Zone, now: Time)
    ensures Sound(Initial(zone, now))
  {
  }

  /** A value stays the user's to whom it was issued: nobody else is ever issued it. */
  lemma {:induction false} OwnersStay(s: State, events: seq<Event>, value: string)
    requires FreshRun(s, events)
    ensures value in s.itOwner ==> value in Run(s, events).itOwner && Run(s, events).itOwner[value] == s.itOwner[value]
    ensures value in s.codeOwner ==> value in Run(s, events).codeOwner && Run(s, events).codeOwner[value] == s.codeOwner[value]
    decreases |events|
  {
    if events != [] {
      OwnersStay(Step(s, events[0]), events[1..], value);
    }
  }

  /** Rows that share an IT token or an auth code belong to one user, and looking a value up gives its owner or nobody. */
  lemma LookupsGiveTheOwner(zone: Zone, now: Time, events: seq<Event>, value: string)
    requires FreshRun(Initial(zone, now), events)
    ensures var s := Run(Initial(zone, now), events);
            && (forall i, j :: i in s.table.docs && j in s.table.docs && s.table.docs[i].itToken.Some?
                               && s.table.docs[i].itToken == s.table.docs[j].itToken ==>
                  s.table.docs[i].userid == s.table.docs[j].userid)
            && (forall i, j :: i in s.table.docs && j in s.table.docs && s.table.docs[i].authCode.Some?
                               && s.table.docs[i].authCode == s.table.docs[j].authCode ==>
                  s.table.docs[i].userid == s.table.docs[j].userid)
            && UniquePairs(s.table)
            && (LoginByItToken(s.table, value).Some? ==>
                  value in s.itOwner && LoginByItToken(s.table, value).value.userid == s.itOwner[value])
            && (GetByAuthCode(s.table, value).Some? ==>
                  value in s.codeOwner && GetByAuthCode(s.table, value).value.userid == s.codeOwner[value])
  {
    InitialSound(zone, now);
    RunSound(Initial(zone, now), events);
  }

  /** An IT token or an auth code only verifies for the user it was issued to. */
  lemma VerifiesOnlyForTheOwner(zone: Zone, now: Time, events: seq<Event>, user: string, value: string)
    requires FreshRun(Initial(zone, now), events)
    ensures var s := Run(Initial(zone, now), events);
            && (VerifyIt(s.table, user, value) ==> value in s.itOwner && s.itOwner[value] == user)
            && (VerifyAuthCode(s.table, user, value) ==> value in s.codeOwner && s.codeOwner[value] == user)
  {
    InitialSound(zone, now);
    RunSound(Initial(zone, now), events);
  }

  // ---- how long a token lasts ----

  /** The time for which a token inserted at a moment verifies: what clocks go back until its expiration is added. */
  function Lifetime(zone: Zone, inserted: Time): int {
    VALIDITY * SECOND + (inserted.offset - zone(inserted.local + VALIDITY * SECOND)) * MINUTE
  }

  /** Whatever the clock does, a stored token verifies exactly for its lifetime. */
  lemma VerifiesForItsLifetime(zone: Zone, now: Time, events: seq<Event>, user: string, token: string)
    requires FreshRun(Initial(zone, now), events)
    ensures var s := Run(Initial(zone, now), events);
            Get(s.table, user, token).Some? ==>
              && (user, token) in s.inserted
              && (Verify(s.table, user, token, s.now) <==>
                    s.now.Utc() < s.inserted[(user, token)].Utc() + Lifetime(s.zone, s.inserted[(user, token)]))
  {
    InitialSound(zone, now);
    RunSound(Initial(zone, now), events);
    if Get(Run(Initial(zone, now), events).table, user, token).Some? {
      ExpiresAfterLifetime(Run(Initial(zone, now), events), user, token);
    }
  }

  lemma ExpiresAfterLifetime(s: State, user: string, token: string)
    requires Sound(s) && Get(s.table, user, token).Some?
    ensures (user, token) in s.inserted
    ensures Get(s.table, user, token).value.expiration.Utc()
            == s.inserted[(user, token)].Utc() + Lifetime(s.zone, s.inserted[(user, token)])
  {
    FirstFinds(s.table, ByToken(user, token));
  }

  /** The zone has one offset, that of the clock, and no token was inserted after now or under another offset. */
  ghost predicate OneZone(s: State) {
    && (forall local: nat :: s.zone(local) == s.now.offset)
    && (forall key :: key in s.inserted ==> s.inserted[key].offset == s.now.offset && s.inserted[key].local <= s.now.local)
  }

  lemma StepOneZone(s: State, e: Event)
    requires OneZone(s) && Steady(s, e)
    ensures OneZone(Step(s, e))
  {
  }

  lemma {:induction false} RunOneZone(s: State, events: seq<Event>)
    requires OneZone(s) && SteadyRun(s, events)
    ensures OneZone(Run(s, events))
    decreases |events|
  {
    if events != [] {
      StepOneZone(s, events[0]);
      RunOneZone(Step(s, events[0]), events[1..]);
    }
  }

  lemma OneZoneHasOneOffset(s: State)
    requires Dated(s) && OneZone(s)
    ensures OneOffset(s.table, s.now)
  {
  }

  /** Under one offset and with a steady clock, a token that verifies was inserted by now, and less than half an hour ago. */
  lemma VerifiedIsRecent(zone: Zone, now: Time, events: seq<Event>, user: string, token: string)
    requires forall local: nat :: zone(local) == now.offset
    requires FreshRun(Initial(zone, now), events) && SteadyRun(Initial(zone, now), events)
    ensures var s := Run(Initial(zone, now), events);
            Verify(s.table, user, token, s.now) ==>
              && (user, token) in s.inserted
              && s.inserted[(user, token)].Utc() <= s.now.Utc() < s.inserted[(user, token)].Utc() + VALIDITY * SECOND
  {
    VerifiesForItsLifetime(zone, now, events, user, token);
    RunOneZone(Initial(zone, now), events);
    var s := Run(Initial(zone, now), events);
    if Verify(s.table, user, token, s.now) { LastsHalfAnHour(s, (user, token)); }
  }

  lemma LastsHalfAnHour(s: State, key: (string, string))
    requires OneZone(s) && key in s.inserted
    ensures Lifetime(s.zone, s.inserted[key]) == VALIDITY * SECOND && s.inserted[key].Utc() <= s.now.Utc()
  {
    assert s.zone(s.inserted[key].local + VALIDITY * SECOND) == s.now.offset;
  }

  // ---- when clocks change ----

  /** A zone whose clocks go from one offset to another, up to a wall time in the gap or the repeated hour. */
  function Change(last: nat, before: UtcOffset, after: UtcOffset): Zone {
    (local: nat) => if local < last then before else after
  }

  /** The wall time on a day. */
  function At(day: nat, hour: nat, minute: nat, offset: UtcOffset): Time
    requires day < DaysToYear(MAX_YEAR) && hour < 24 && minute < 60
  {
    assert (day * DAY + hour * HOUR + minute * MINUTE) / DAY == day;
    Stamp(day * DAY + hour * HOUR + minute * MINUTE, offset)
  }

  lemma AfterHalfAnHour(day: nat, hour: nat, offset: UtcOffset)
    requires day < DaysToYear(MAX_YEAR) && hour < 23
    ensures forall minute :: 0 <= minute < 60 ==> At(day, hour, minute, offset).PlusSeconds(VALIDITY).Valid()
  {
    forall minute | 0 <= minute < 60 ensures At(day, hour, minute, offset).PlusSeconds(VALIDITY).Valid() {
      assert (day * DAY + hour * HOUR + minute * MINUTE + VALIDITY * SECOND) / DAY == day;
    }
  }

  /** The one token of this run is inserted, and after the clock has moved the expired tokens are revoked. */
  function Inserted(zone: Zone, first: Time, user: string, token: string): State {
    Run(Initial(zone, first), [AddToken(user, token)])
  }

  function Later(zone: Zone, first: Time, later: Time, user: string, token: string): State {
    Run(Initial(zone, first), [AddToken(user, token), Event.Clock(later)])
  }

  function Revoked(zone: Zone, first: Time, later: Time, user: string, token: string): State {
    Run(Initial(zone, first), [AddToken(user, token), Event.Clock(later), DropExpired])
  }

  lemma RunsOfOneToken(zone: Zone, first: Time, later: Time, user: string, token: string)
    ensures var s := Step(Initial(zone, first), AddToken(user, token));
            && Inserted(zone, first, user, token) == s
            && Later(zone, first, later, user, token) == s.(now := later)
            && Revoked(zone, first, later, user, token) == s.(now := later, table := RevokeExpired(s.table, later))
  {
    var s, t := Initial(zone, first), Step(Initial(zone, first), AddToken(user, token));
    var add, clock, drop := AddToken(user, token), Event.Clock(later), DropExpired;
    assert [add, clock] == [add] + [clock] && [add, clock, drop] == [add] + ([clock] + [drop]);
    RunNext(s, add, []);
    RunNext(s, add, [clock]);
    RunNext(s, add, [clock] + [drop]);
    RunNext(t, clock, []);
    RunNext(t, clock, [drop]);
    RunNext(Step(t, clock), drop, []);
    assert [add] + [] == [add] && [clock] + [] == [clock] && [drop] + [] == [drop];
  }

  lemma RunNext(s: State, e: Event, rest: seq<Event>)
    ensures Run(s, [e] + rest) == Run(Step(s, e), rest)
  {
    assert ([e] + rest)[1..] == rest;
  }

  /** What becomes of the one token, exactly. */
  lemma OneTokenExactly(zone: Zone, first: Time, later: Time, user: string, token: string)
    requires first.PlusSeconds(VALIDITY).Valid()
    ensures Verify(Inserted(zone, first, user, token).table, user, token, first) <==> 0 < Lifetime(zone, first)
    ensures Verify(Later(zone, first, later, user, token).table, user, token, later)
            <==> later.Utc() < first.Utc() + Lifetime(zone, first)
    ensures Get(Revoked(zone, first, later, user, token).table, user, token).Some? <==> Outlasts(Expiry(zone, first), later)
  {
    RunsOfOneToken(zone, first, later, user, token);
    FirstToken(zone, first, user, token);
    FoundAfterRevoking(Inserted(zone, first, user, token).table, user, token, later);
  }

  /** The first token of all is found, with its expiration. */
  lemma FirstToken(zone: Zone, first: Time, user: string, token: string)
    requires first.PlusSeconds(VALIDITY).Valid()
    ensures var t := Step(Initial(zone, first), AddToken(user, token)).table;
            && t.Valid() && UniquePairs(t) && Get(t, user, token).Some?
            && Get(t, user, token).value.expiration == Expiry(zone, first)
            && Get(t, user, token).value.expiration.Utc() == first.Utc() + Lifetime(zone, first)
  {
    var t := Step(Initial(zone, first), AddToken(user, token)).table;
    assert t.docs == map[0 := Token(user, token, Expiry(zone, first), None, None)];
    FirstFinds(t, ByToken(user, token));
  }

  /** Clocks go forward from 02:00 to 03:00: a token inserted at 01:50 is revoked at 03:05 with 15 minutes left. */
  lemma SpringRevokesEarly(day: nat, user: string, token: string)
    requires day < DaysToYear(MAX_YEAR)
    ensures var zone, first, later := Change(day * DAY + 3 * HOUR, 60, 120), At(day, 1, 50, 60), At(day, 3, 5, 120);
            && Verify(Later(zone, first, later, user, token).table, user, token, later)
            && Get(Revoked(zone, first, later, user, token).table, user, token) == None
  {
    AfterHalfAnHour(day, 1, 60);
    OneTokenExactly(Change(day * DAY + 3 * HOUR, 60, 120), At(day, 1, 50, 60), At(day, 3, 5, 120), user, token);
  }

  /**
   Clocks go back from 03:00 to 02:00: a token inserted at 02:10 before that verifies, and at 02:30
   after that, 50 minutes after it has expired, it is still there.
   */
  lemma AutumnKeepsExpired(day: nat, user: string, token: string)
    requires day < DaysToYear(MAX_YEAR)
    ensures var zone, first, later := Change(day * DAY + 3 * HOUR, 120, 60), At(day, 2, 10, 120), At(day, 2, 30, 60);
            && Verify(Inserted(zone, first, user, token).table, user, token, first)
            && !Verify(Later(zone, first, later, user, token).table, user, token, later)
            && Get(Revoked(zone, first, later, user, token).table, user, token).Some?
  {
    AfterHalfAnHour(day, 2, 120);
    OneTokenExactly(Change(day * DAY + 3 * HOUR, 120, 60), At(day, 2, 10, 120), At(day, 2, 30, 60), user, token);
  }

  /** A token inserted at 02:10 after that does not verify even at once: its expiration is taken to be before that. */
  lemma AutumnTokenHasExpired(day: nat, user: string, token: string)
    requires day < DaysToYear(MAX_YEAR)
    ensures var zone, first := Change(day * DAY + 3 * HOUR, 120, 60), At(day, 2, 10, 60);
            !Verify(Inserted(zone, first, user, token).table, user, token, first)
  {
    AfterHalfAnHour(day, 2, 60);
    OneTokenExactly(Change(day * DAY + 3 * HOUR, 120, 60), At(day, 2, 10, 60), At(day, 2, 10, 60), user, token);
  }
}
