/**
 Exactly which token and which code the handlers of bumper/web/auth_service.py answer with, and what they
 leave in the table, in terms of the documents alone.
 */
module AuthAnswers {
  import opened Results
  import opened Timestamps
  import opened TinyDb
  import opened Tokens
  import opened TokenRuns
  import opened Users
  import opened AuthFlow

  type Docs = map<nat, Token>

  /** The documents that satisfy a query. */
  function Kept(docs: Docs, q: Query<Token>): Docs {
    map id | id in docs && q(docs[id]) :: docs[id]
  }

  function NotExpired(user: string, now: Time): Query<Token> {
    (t: Token) => t.userid == user ==> Outlasts(t.expiration, now)
  }

  /** The documents once the expired tokens of a user are revoked. */
  function Unrevoked(s: State, user: string): Docs {
    Kept(s.table.docs, NotExpired(user, s.now))
  }

  ghost predicate Holds(docs: Docs, user: string, token: string) {
    exists id :: id in docs && docs[id].userid == user && docs[id].token == token
  }

  ghost predicate HasAny(docs: Docs, user: string) {
    exists id :: id in docs && docs[id].userid == user
  }

  function WithCode(docs: Docs, user: string, code: string): Docs {
    map id | id in docs :: if docs[id].userid == user then docs[id].(authCode := Some(code)) else docs[id]
  }

  function WithIt(docs: Docs, user: string, itToken: string): Docs {
    map id | id in docs :: if docs[id].userid == user then docs[id].(itToken := Some(itToken)) else docs[id]
  }

  /** The user's token that was inserted first. */
  predicate IsOldest(docs: Docs, user: string, id: nat) {
    id in docs && docs[id].userid == user && forall other :: other in docs && docs[other].userid == user ==> id <= other
  }

  // ---- the operations, by their documents ----

  /** What is not removed is kept. */
  lemma RemovedDocs(t: TokenTable, q: Query<Token>, keep: Query<Token>)
    requires forall id :: id in t.docs ==> (keep(t.docs[id]) <==> !q(t.docs[id]))
    ensures RemoveWhere(t, q) == t.(docs := Kept(t.docs, keep))
  {
    assert RemoveWhere(t, q).docs.Keys == Kept(t.docs, keep).Keys;
  }

  lemma RevokedTable(t: TokenTable, user: string, now: Time)
    ensures RevokeUserExpired(t, user, now) == t.(docs := Kept(t.docs, NotExpired(user, now)))
  {
    var q, keep := Both(OfUser(user), ExpiredBefore(now)), NotExpired(user, now);
    forall id | id in t.docs ensures keep(t.docs[id]) <==> !q(t.docs[id]) {
      KeptByDate(t.docs[id], user, now);
    }
    RemovedDocs(t, q, keep);
  }

  lemma DropIsRevoke(s: State, user: string)
    ensures Step(s, DropUserExpired(user)) == s.(table := RevokeUserExpired(s.table, user, s.now))
  {
  }

  lemma RevokedDocs(s: State, user: string)
    ensures Step(s, DropUserExpired(user)) == s.(table := s.table.(docs := Unrevoked(s, user)))
  {
    DropIsRevoke(s, user);
    RevokedTable(s.table, user, s.now);
  }

  lemma KeptByDate(token: Token, user: string, now: Time)
    ensures NotExpired(user, now)(token) <==> !Both(OfUser(user), ExpiredBefore(now))(token)
  {
    OutlastsExactly(token.expiration, now);
  }

  lemma GetFinds(t: TokenTable, user: string, token: string)
    requires t.Valid()
    ensures Get(t, user, token).Some? <==> Holds(t.docs, user, token)
  {
    FirstFinds(t, ByToken(user, token));
  }

  lemma OldestIsFirst(t: TokenTable, user: string)
    requires t.Valid()
    ensures match First(t, OfUser(user))
            case None => !HasAny(t.docs, user)
            case Some(id) => IsOldest(t.docs, user, id) && HasAny(t.docs, user)
  {
    FirstFinds(t, OfUser(user));
  }

  lemma AddedDocs(s: State, user: string, token: string)
    requires s.table.Valid() && s.now.PlusSeconds(1800).Valid()
    ensures Step(s, AddToken(user, token)).table.docs ==
            if Holds(s.table.docs, user, token) then s.table.docs
            else
              var local := s.now.local + 1800 * 1_000_000;
              s.table.docs[s.table.next := Token(user, token, Stamp(local, s.zone(local)), None, None)]
  {
    GetFinds(s.table, user, token);
  }

  lemma CodedDocs(s: State, user: string, code: string)
    requires s.table.Valid()
    ensures Step(s, IssueCode(user, code)).table.docs == WithCode(s.table.docs, user, code)
  {
    OldestIsFirst(s.table, user);
  }

  lemma ItDocs(s: State, user: string, itToken: string)
    requires s.table.Valid()
    ensures Step(s, IssueIt(user, itToken)).table.docs == WithIt(s.table.docs, user, itToken)
  {
    OldestIsFirst(s.table, user);
  }

  // ---- logging in ----

  /** Which token is answered, and what becomes of the documents, once the expired ones are revoked. */
  ghost predicate RightLogin(
    docs: Docs, next: nat, zone: Zone, now: Time, user: string, presented: Option<string>, check: bool, generated: string,
    answer: string, after: Docs)
    requires now.PlusSeconds(1800).Valid()
  {
    var kept := check && presented.Some? && (presented.value == "" || Holds(docs, user, presented.value));
    var local := now.local + 1800 * 1_000_000;
    && answer == (if kept then presented.value else generated)
    && (kept || Holds(docs, user, generated) ==> after == docs)
    && (!kept && !Holds(docs, user, generated) ==>
          after == docs[next := Token(user, generated, Stamp(local, zone(local)), None, None)])
  }

  lemma TokenStrategy(s: State, user: string, presented: Option<string>, check: bool, generated: string)
    requires s.table.Valid() && s.now.PlusSeconds(1800).Valid()
    ensures var (t, answer) := AnswerToken(s, user, presented, check, generated);
            RightLogin(s.table.docs, s.table.next, s.zone, s.now, user, presented, check, generated, answer, t.table.docs)
  {
    if presented.Some? { GetFinds(s.table, user, presented.value); }
    AddedDocs(s, user, generated);
  }

  /**
   The access token that a login answers with, and the tokens it leaves: a check of a token that is stored
   for the user, once the expired ones are revoked, answers that token and inserts nothing; any other check,
   except of an empty token, and every login that is no check answers the generated token, which is
   inserted with the expiry of now.
   */
  lemma LoginAnswersExactly(cfg: Settings, svc: Service, uid: Option<string>, presented: Option<string>,
                            device: string, dids: seq<string>, check: bool, generated: string)
    requires svc.run.table.Valid() && svc.run.now.PlusSeconds(1800).Valid()
    ensures var (t, answer) := AuthAny(cfg, svc, uid, presented, device, dids, check, generated);
            var user := if uid == None || uid == Some("") then cfg.defaultUid else uid.value;
            RightLogin(Unrevoked(svc.run, user), svc.run.table.next, svc.run.zone, svc.run.now,
                       user, presented, check, generated, answer, t.run.table.docs)
  {
    RevokedDocs(svc.run, UserFor(cfg, uid));
    TokenStrategy(Step(svc.run, DropUserExpired(UserFor(cfg, uid))), UserFor(cfg, uid), presented, check, generated);
  }

  /** So a token that is stored and not revoked is answered as it is, and no token is inserted. */
  lemma StoredTokenIsAnswered(cfg: Settings, svc: Service, uid: Option<string>, presented: string,
                              device: string, dids: seq<string>, generated: string, id: nat)
    requires svc.run.table.Valid() && svc.run.now.PlusSeconds(1800).Valid() && id in svc.run.table.docs
    requires var token := svc.run.table.docs[id];
             && token.userid == (if uid == None || uid == Some("") then cfg.defaultUid else uid.value)
             && token.token == presented && Outlasts(token.expiration, svc.run.now)
    ensures var (t, answer) := AuthAny(cfg, svc, uid, Some(presented), device, dids, true, generated);
            answer == presented && t.run.table.docs == Unrevoked(svc.run, svc.run.table.docs[id].userid)
  {
    var user := svc.run.table.docs[id].userid;
    assert id in Unrevoked(svc.run, user) && Unrevoked(svc.run, user)[id].token == presented;
    LoginAnswersExactly(cfg, svc, uid, Some(presented), device, dids, true, generated);
  }

  /** And the user: it is there, with the device and every bot added to what it had, or new with its home. */
  lemma LoginExtendsUserExactly(cfg: Settings, svc: Service, uid: Option<string>, presented: Option<string>,
                                device: string, dids: seq<string>, check: bool, generated: string)
    requires WellKept(svc.users)
    requires svc.run.now.PlusSeconds(1800).Valid()
    ensures var t := AuthAny(cfg, svc, uid, presented, device, dids, check, generated).0.users;
            var user := if uid == None || uid == Some("") then cfg.defaultUid else uid.value;
            var known := exists id :: id in svc.users.docs && svc.users.docs[id].userid == user;
            && WellKept(t) && t.docs.Keys == svc.users.docs.Keys + (if known then {} else {svc.users.next})
            && forall id :: id in t.docs ==>
                 RightUser(if id in svc.users.docs then svc.users.docs[id] else User(user, [cfg.homeId], [], []), t.docs[id],
                           user, device, dids)
  {
    ExtendedExactly(svc.users, UserFor(cfg, uid), cfg.homeId, device, dids);
  }

  /** The user's document becomes this, and the others stay. */
  ghost predicate RightUser(had: User, has: User, user: string, device: string, dids: seq<string>) {
    if had.userid != user then has == had
    else
      && has.userid == user && has.homeids == had.homeids
      && (forall x :: x in has.devices <==> x == device || x in had.devices)
      && (forall x :: x in has.bots <==> x in had.bots || (x != "" && x in dids))
  }

  lemma ExtendedExactly(users: UserTable, user: string, homeId: string, device: string, dids: seq<string>)
    requires WellKept(users)
    ensures var t := AddBots(AddDevice(AddUser(users, user, homeId), user, device), user, dids);
            var known := exists id :: id in users.docs && users.docs[id].userid == user;
            && WellKept(t) && t.docs.Keys == users.docs.Keys + (if known then {} else {users.next})
            && forall id :: id in t.docs ==>
                 RightUser(if id in users.docs then users.docs[id] else User(user, [homeId], [], []), t.docs[id], user, device, dids)
  {
    var a := AddUser(users, user, homeId);
    var t := AddBots(AddDevice(a, user, device), user, dids);
    KnownExactly(users, user, homeId);
    AddUserKeeps(users, user, homeId);
    GrownExactly(a, user, device, dids);
    HadExactly(users, a, t, user, homeId, device, dids);
  }

  lemma HadExactly(users: UserTable, a: UserTable, t: UserTable, user: string, homeId: string, device: string, dids: seq<string>)
    requires a.docs == users.docs || a.docs == users.docs[users.next := User(user, [homeId], [], [])]
    requires users.Valid() && t.docs.Keys == a.docs.Keys
    requires forall id :: id in t.docs ==> RightUser(a.docs[id], t.docs[id], user, device, dids)
    ensures forall id :: id in t.docs ==>
              RightUser(if id in users.docs then users.docs[id] else User(user, [homeId], [], []), t.docs[id], user, device, dids)
  {
    forall id | id in t.docs
      ensures a.docs[id] == if id in users.docs then users.docs[id] else User(user, [homeId], [], [])
    {
    }
  }

  lemma KnownExactly(users: UserTable, user: string, homeId: string)
    requires WellKept(users)
    ensures var known := exists id :: id in users.docs && users.docs[id].userid == user;
            AddUser(users, user, homeId).docs
            == if known then users.docs else users.docs[users.next := User(user, [homeId], [], [])]
  {
    FirstFinds(users, WithId(user));
    AddUserKeeps(users, user, homeId);
  }

  lemma GrownExactly(a: UserTable, user: string, device: string, dids: seq<string>)
    requires WellKept(a) && First(a, WithId(user)).Some?
    ensures var t := AddBots(AddDevice(a, user, device), user, dids);
            WellKept(t) && t.docs.Keys == a.docs.Keys && forall id :: id in t.docs ==> RightUser(a.docs[id], t.docs[id], user, device, dids)
  {
    var b := AddDevice(a, user, device);
    AddDeviceKeeps(a, user, device);
    StillThere(a, b, user);
    AddBotsKeeps(b, user, dids);
  }

  // ---- IT tokens and codes ----

  /** get_auth_code gives a user with a token the generated IT token, which all its tokens carry then. */
  lemma ItTokenExactly(s: State, user: string, generated: string)
    requires s.table.Valid()
    ensures var (t, it) := GetAuthCode(s, user, generated);
            && it == (if HasAny(s.table.docs, user) then Some(generated) else None)
            && t.table.docs == WithIt(s.table.docs, user, generated)
  {
    ItDocs(s, user, generated);
    OldestIsFirst(s.table, user);
  }

  lemma CodeGeneratedExactly(s: State, user: string, generated: string)
    requires s.table.Valid()
    ensures var (t, code) := GenerateAuthCode(s, user, generated);
            && code == (if HasAny(s.table.docs, user) then Some(generated) else None)
            && t.table.docs == WithCode(s.table.docs, user, generated)
  {
    CodedDocs(s, user, generated);
    OldestIsFirst(s.table, user);
  }

  /**
   get_auth_code_v2: once the expired tokens are revoked, the code of the user's oldest token is answered if
   it carries one, and nothing is changed; if it carries none, the generated code is answered and given to
   all tokens of the user; and without a token there is no code.
   */
  lemma CodeV2Exactly(s: State, user: string, generated: string)
    requires s.table.Valid()
    ensures var (t, code) := GetAuthCodeV2(s, user, generated);
            var docs := Unrevoked(s, user);
            && (!HasAny(docs, user) ==> code == None && t.table.docs == docs)
            && forall id :: IsOldest(docs, user, id) ==> RightCode(docs, user, id, generated, code, t.table.docs)
  {
    var u := Step(s, DropUserExpired(user));
    RevokedDocs(s, user);
    OldestIsFirst(u.table, user);
    V2OnRevoked(s, u, user, generated);
    if First(u.table, OfUser(user)).Some? { OneOldest(u.table.docs, user, First(u.table, OfUser(user)).value); }
  }

  lemma OneOldest(docs: Docs, user: string, id: nat)
    requires IsOldest(docs, user, id)
    ensures HasAny(docs, user) && forall other :: IsOldest(docs, user, other) ==> other == id
  {
  }

  /** The code of the oldest token, or the generated one for all of them. */
  ghost predicate RightCode(docs: Docs, user: string, id: nat, generated: string, code: Option<string>, after: Docs)
    requires id in docs
  {
    if docs[id].authCode.Some? then code == docs[id].authCode && after == docs
    else code == Some(generated) && after == WithCode(docs, user, generated)
  }

  lemma V2OnRevoked(s: State, u: State, user: string, generated: string)
    requires u == Step(s, DropUserExpired(user)) && u.table.Valid()
    ensures var (t, code) := GetAuthCodeV2(s, user, generated);
            match First(u.table, OfUser(user))
            case None => code == None && t.table.docs == u.table.docs
            case Some(id) => RightCode(u.table.docs, user, id, generated, code, t.table.docs)
  {
    OldestIsFirst(u.table, user);
    CodeGeneratedExactly(u, user, generated);
    if First(u.table, OfUser(user)) == None { NobodysCode(u.table.docs, user, generated); }
  }

  lemma NobodysCode(docs: Docs, user: string, code: string)
    requires !HasAny(docs, user)
    ensures WithCode(docs, user, code) == docs
  {
  }

  /** Revoking once more at the same time changes nothing. */
  lemma RevokedTwice(s: State, user: string, t: State)
    requires t.now == s.now && t.table.docs == Unrevoked(s, user)
    ensures Unrevoked(t, user) == t.table.docs
  {
  }

  lemma CodesOutlast(s: State, user: string, t: State, code: string)
    requires t.now == s.now && t.table.docs == WithCode(Unrevoked(s, user), user, code)
    ensures Unrevoked(t, user) == t.table.docs
  {
  }

  /** The code of the oldest token, if there is any token. */
  ghost predicate Answered(docs: Docs, user: string, code: Option<string>) {
    if HasAny(docs, user) then code.Some? && forall id :: IsOldest(docs, user, id) ==> docs[id].authCode == code
    else code == None
  }

  lemma FirstCallAnswers(s: State, user: string, generated: string)
    requires s.table.Valid()
    ensures var (t, code) := GetAuthCodeV2(s, user, generated);
            Answered(t.table.docs, user, code) && Unrevoked(t, user) == t.table.docs
  {
    var (t, code) := GetAuthCodeV2(s, user, generated);
    var u := Step(s, DropUserExpired(user));
    RevokedDocs(s, user);
    OldestIsFirst(u.table, user);
    CodeV2Exactly(s, user, generated);
    V2KeepsValid(s, user, generated);
    if t.table.docs == Unrevoked(s, user) {
      RevokedTwice(s, user, t);
    } else {
      CodesOutlast(s, user, t, generated);
      CodeGoesToOldest(Unrevoked(s, user), user, generated);
    }
  }

  lemma CodeGoesToOldest(docs: Docs, user: string, code: string)
    requires HasAny(docs, user)
    ensures Answered(WithCode(docs, user, code), user, Some(code))
  {
    var id :| id in docs && docs[id].userid == user;
    assert id in WithCode(docs, user, code);
  }

  lemma SettledCallAnswers(t: State, user: string, code: Option<string>, other: string)
    requires t.table.Valid() && Unrevoked(t, user) == t.table.docs && Answered(t.table.docs, user, code)
    ensures var (u, again) := GetAuthCodeV2(t, user, other);
            again == code && u.table.docs == t.table.docs
  {
    CodeV2Exactly(t, user, other);
    OldestIsFirst(t.table, user);
  }

  /** Two calls in a row, with nothing in between, answer the same code, and the second changes nothing. */
  lemma SecondCallAgrees(s: State, user: string, generated: string, other: string)
    requires s.table.Valid()
    ensures var (t, code) := GetAuthCodeV2(s, user, generated);
            var (u, again) := GetAuthCodeV2(t, user, other);
            again == code && u.table.docs == t.table.docs
  {
    var (t, code) := GetAuthCodeV2(s, user, generated);
    FirstCallAnswers(s, user, generated);
    V2KeepsValid(s, user, generated);
    SettledCallAnswers(t, user, code, other);
  }

  lemma V2KeepsValid(s: State, user: string, generated: string)
    requires s.table.Valid()
    ensures var t := GetAuthCodeV2(s, user, generated).0; t.table.Valid() && t.now == s.now
  {
    RevokedDocs(s, user);
    CodeGeneratedExactly(Step(s, DropUserExpired(user)), user, generated);
  }

  /**
   get_new_auth: the first token that carries the IT token decides.  Its own code is answered if it has one
   that is not empty, and otherwise a code is generated for its user; its user's expired tokens are revoked
   first in either case.
   */
  lemma NewAuthExactly(s: State, itToken: string, generated: string)
    requires s.table.Valid()
    ensures var (t, code) := GetNewAuth(s, itToken, generated);
            && ((forall id :: id in s.table.docs ==> s.table.docs[id].itToken != Some(itToken)) ==> code == None && t == s)
            && forall id :: IsFirstWithIt(s.table.docs, itToken, id) ==>
                 RightTrade(s.table.docs[id], Unrevoked(s, s.table.docs[id].userid), generated, code, t.table.docs)
  {
    FirstWithIt(s.table, itToken);
    if First(s.table, ByItToken(itToken)).Some? {
      TradedExactly(s, itToken, First(s.table, ByItToken(itToken)).value, generated);
    } else {
      NothingTraded(s, itToken, generated);
    }
  }

  lemma FirstWithIt(t: TokenTable, itToken: string)
    requires t.Valid()
    ensures match First(t, ByItToken(itToken))
            case None => forall id :: id in t.docs ==> t.docs[id].itToken != Some(itToken)
            case Some(k) => IsFirstWithIt(t.docs, itToken, k) && forall id :: IsFirstWithIt(t.docs, itToken, id) ==> id == k
  {
    FirstFinds(t, ByItToken(itToken));
  }

  lemma NothingTraded(s: State, itToken: string, generated: string)
    requires First(s.table, ByItToken(itToken)) == None
    ensures GetNewAuth(s, itToken, generated) == (s, None)
  {
  }

  predicate IsFirstWithIt(docs: Docs, itToken: string, id: nat) {
    && id in docs && docs[id].itToken == Some(itToken)
    && forall other :: other in docs && docs[other].itToken == Some(itToken) ==> id <= other
  }

  /** What a token is traded for, and what becomes of the documents once the expired ones of its user are revoked. */
  ghost predicate RightTrade(token: Token, docs: Docs, generated: string, code: Option<string>, after: Docs) {
    if token.authCode.Some? && token.authCode != Some("") then code == token.authCode && after == docs
    else
      && code == (if HasAny(docs, token.userid) then Some(generated) else None)
      && after == WithCode(docs, token.userid, generated)
  }

  lemma TradedExactly(s: State, itToken: string, id: nat, generated: string)
    requires s.table.Valid() && First(s.table, ByItToken(itToken)) == Some(id)
    ensures var (t, code) := GetNewAuth(s, itToken, generated);
            RightTrade(s.table.docs[id], Unrevoked(s, s.table.docs[id].userid), generated, code, t.table.docs)
  {
    var user := s.table.docs[id].userid;
    RevokedDocs(s, user);
    CodeGeneratedExactly(Step(s, DropUserExpired(user)), user, generated);
  }

  // ---- codes in use stay in use ----

  /** Of a user's tokens the older ones carry codes and IT tokens if the newer ones do. */
  ghost predicate OldestCarry(docs: Docs) {
    forall i, j :: i in docs && j in docs && i < j && docs[i].userid == docs[j].userid ==>
      (docs[j].authCode.Some? ==> docs[i].authCode.Some?) && (docs[j].itToken.Some? ==> docs[i].itToken.Some?)
  }

  lemma AddKeepsCarry(s: State, user: string, token: string)
    requires s.table.Valid() && OldestCarry(s.table.docs)
    ensures OldestCarry(Step(s, AddToken(user, token)).table.docs)
  {
  }

  lemma IssueKeepsCarry(s: State, e: Event)
    requires s.table.Valid() && OldestCarry(s.table.docs) && (e.IssueIt? || e.IssueCode?)
    ensures OldestCarry(Step(s, e).table.docs)
  {
    if e.IssueIt? { ItDocs(s, e.user, e.value); } else { CodedDocs(s, e.user, e.value); }
  }

  lemma RemoveKeepsCarry(t: TokenTable, q: Query<Token>)
    requires OldestCarry(t.docs)
    ensures OldestCarry(RemoveWhere(t, q).docs)
  {
  }

  lemma StepKeepsCarry(s: State, e: Event)
    requires s.table.Valid() && OldestCarry(s.table.docs)
    ensures OldestCarry(Step(s, e).table.docs)
  {
    match e {
      case Clock(_) =>
      case AddToken(user, token) => AddKeepsCarry(s, user, token);
      case IssueIt(_, _) => IssueKeepsCarry(s, e);
      case IssueCode(_, _) => IssueKeepsCarry(s, e);
      case DropToken(user, token) => RemoveKeepsCarry(s.table, ByToken(user, token));
      case DropUserExpired(user) => RemoveKeepsCarry(s.table, Both(OfUser(user), ExpiredBefore(s.now)));
      case DropExpired => RemoveKeepsCarry(s.table, ExpiredBefore(s.now));
      case DropAll(user) => RemoveKeepsCarry(s.table, OfUser(user));
    }
  }

  lemma {:induction false} RunKeepsCarry(s: State, events: seq<Event>)
    requires Sound(s) && OldestCarry(s.table.docs) && FreshRun(s, events)
    ensures OldestCarry(Run(s, events).table.docs)
    decreases |events|
  {
    if events != [] {
      StepKeepsCarry(s, events[0]);
      StepSound(s, events[0]);
      RunKeepsCarry(Step(s, events[0]), events[1..]);
    }
  }

  /** The code resolves to its user, from one of the tokens that are not revoked now. */
  ghost predicate InUse(s: State, user: string, code: string) {
    exists id :: id in Unrevoked(s, user) && s.table.docs[id].userid == user && s.table.docs[id].authCode == Some(code)
  }

  /** In every run, get_auth_code_v2 answers a code in use, and leaves it in use. */
  lemma V2AnswersCodeInUse(zone: Zone, now: Time, events: seq<Event>, user: string, code: string, generated: string)
    requires FreshRun(Initial(zone, now), events) && InUse(Run(Initial(zone, now), events), user, code)
    ensures var (t, answer) := GetAuthCodeV2(Run(Initial(zone, now), events), user, generated);
            answer == Some(code) && OauthCallback(t, code) == Some(user)
  {
    var s := Run(Initial(zone, now), events);
    InitialSound(zone, now);
    RunSound(Initial(zone, now), events);
    RunKeepsCarry(Initial(zone, now), events);
    CodeInUseIsAnswered(s, user, code, generated);
  }

  lemma CodeInUseIsAnswered(s: State, user: string, code: string, generated: string)
    requires Sound(s) && OldestCarry(s.table.docs) && InUse(s, user, code)
    ensures var (t, answer) := GetAuthCodeV2(s, user, generated);
            answer == Some(code) && OauthCallback(t, code) == Some(user)
  {
    OldestIsInUse(s, user, code);
    V2AnswersOldest(s, user, code, generated);
    CodeInUseResolves(s, user, code, GetAuthCodeV2(s, user, generated).0);
  }

  lemma V2AnswersOldest(s: State, user: string, code: string, generated: string)
    requires s.table.Valid() && HasAny(Unrevoked(s, user), user)
    requires forall id :: IsOldest(Unrevoked(s, user), user, id) ==> Unrevoked(s, user)[id].authCode == Some(code)
    ensures var (t, answer) := GetAuthCodeV2(s, user, generated);
            answer == Some(code) && t.table == s.table.(docs := Unrevoked(s, user))
  {
    RevokedDocs(s, user);
    OldestIsFirst(Step(s, DropUserExpired(user)).table, user);
  }

  lemma OldestIsInUse(s: State, user: string, code: string)
    requires Sound(s) && OldestCarry(s.table.docs) && InUse(s, user, code)
    ensures HasAny(Unrevoked(s, user), user)
    ensures forall id :: IsOldest(Unrevoked(s, user), user, id) ==> Unrevoked(s, user)[id].authCode == Some(code)
  {
    var k :| k in Unrevoked(s, user) && s.table.docs[k].userid == user && s.table.docs[k].authCode == Some(code);
    assert Unrevoked(s, user)[k].userid == user;
  }

  lemma CodeInUseResolves(s: State, user: string, code: string, t: State)
    requires Sound(s) && InUse(s, user, code) && t.table == s.table.(docs := Unrevoked(s, user))
    ensures OauthCallback(t, code) == Some(user)
  {
    var k :| k in Unrevoked(s, user) && s.table.docs[k].userid == user && s.table.docs[k].authCode == Some(code);
    OnlyOwnerCarries(s, k, code);
    FirstFinds(t.table, ByCode(code));
  }

  /** All tokens that carry a code belong to one user. */
  lemma OnlyOwnerCarries(s: State, k: nat, code: string)
    requires Sound(s) && k in s.table.docs && s.table.docs[k].authCode == Some(code)
    ensures forall id :: id in s.table.docs && s.table.docs[id].authCode == Some(code) ==>
              s.table.docs[id].userid == s.table.docs[k].userid
  {
  }

  /** And an IT token is never traded for a new code while the user's code is in use. */
  lemma NewAuthKeepsCodeInUse(zone: Zone, now: Time, events: seq<Event>, itToken: string, user: string, code: string, generated: string)
    requires FreshRun(Initial(zone, now), events) && code != ""
    requires var s := Run(Initial(zone, now), events);
             && InUse(s, user, code) && LoginByItToken(s.table, itToken).Some? && LoginByItToken(s.table, itToken).value.userid == user
    ensures var (t, answer) := GetNewAuth(Run(Initial(zone, now), events), itToken, generated);
            answer == Some(code) && OauthCallback(t, code) == Some(user)
  {
    var s := Run(Initial(zone, now), events);
    InitialSound(zone, now);
    RunSound(Initial(zone, now), events);
    RunKeepsCarry(Initial(zone, now), events);
    CodeInUseIsTraded(s, itToken, user, code, generated);
  }

  lemma CodeInUseIsTraded(s: State, itToken: string, user: string, code: string, generated: string)
    requires Sound(s) && OldestCarry(s.table.docs) && InUse(s, user, code) && code != ""
    requires LoginByItToken(s.table, itToken).Some? && LoginByItToken(s.table, itToken).value.userid == user
    ensures var (t, answer) := GetNewAuth(s, itToken, generated);
            answer == Some(code) && OauthCallback(t, code) == Some(user)
  {
    var id :| id in Unrevoked(s, user) && s.table.docs[id].userid == user && s.table.docs[id].authCode == Some(code);
    FoundCarriesCode(s, itToken, user, code, id);
    RevokedDocs(s, user);
    CodeInUseResolves(s, user, code, GetNewAuth(s, itToken, generated).0);
  }

  /** The token found by an IT token is the oldest of its user, and so carries the user's code. */
  lemma FoundCarriesCode(s: State, itToken: string, user: string, code: string, id: nat)
    requires Sound(s) && OldestCarry(s.table.docs)
    requires id in s.table.docs && s.table.docs[id].userid == user && s.table.docs[id].authCode == Some(code)
    requires LoginByItToken(s.table, itToken).Some? && LoginByItToken(s.table, itToken).value.userid == user
    ensures LoginByItToken(s.table, itToken).value.authCode == Some(code)
  {
    var found := First(s.table, ByItToken(itToken)).value;
    FirstFinds(s.table, ByItToken(itToken));
    OldestIsFirst(s.table, user);
    var first := First(s.table, OfUser(user)).value;
    assert s.table.docs[first].itToken == Some(itToken) && found == first;
  }

  // ---- how long values verify, and what revoking takes ----

  /** The tokens of the user that carry the value are those there were when it was issued. */
  ghost predicate CarriedUntil(s: State, user: string, value: string, limit: nat, it: bool) {
    && limit <= s.table.next && s.table.Valid()
    && forall id :: id in s.table.docs && s.table.docs[id].userid == user ==>
         ((if it then s.table.docs[id].itToken else s.table.docs[id].authCode) == Some(value) <==> id < limit)
  }

  /** The event issues no other value of this kind to the user. */
  predicate Reissues(e: Event, user: string, it: bool) {
    if it then e.IssueIt? && e.user == user else e.IssueCode? && e.user == user
  }

  lemma StepCarries(s: State, e: Event, user: string, value: string, limit: nat, it: bool)
    requires CarriedUntil(s, user, value, limit, it) && !Reissues(e, user, it)
    ensures CarriedUntil(Step(s, e), user, value, limit, it)
    ensures forall id :: id in Step(s, e).table.docs && id < limit ==> id in s.table.docs && Step(s, e).table.docs[id].userid == s.table.docs[id].userid
  {
    match e {
      case Clock(_) =>
      case AddToken(_, token) => AddCarries(s, e.user, token, user, value, limit, it);
      case IssueIt(_, _) => IssueCarries(s, e, user, value, limit, it);
      case IssueCode(_, _) => IssueCarries(s, e, user, value, limit, it);
      case DropToken(_, token) => RemoveCarries(s, ByToken(e.user, token), user, value, limit, it);
      case DropUserExpired(_) => RemoveCarries(s, Both(OfUser(e.user), ExpiredBefore(s.now)), user, value, limit, it);
      case DropExpired => RemoveCarries(s, ExpiredBefore(s.now), user, value, limit, it);
      case DropAll(_) => RemoveCarries(s, OfUser(e.user), user, value, limit, it);
    }
  }

  lemma AddCarries(s: State, other: string, token: string, user: string, value: string, limit: nat, it: bool)
    requires CarriedUntil(s, user, value, limit, it)
    ensures CarriedUntil(Step(s, AddToken(other, token)), user, value, limit, it)
    ensures var t := Step(s, AddToken(other, token)).table;
            forall id :: id in t.docs && id < limit ==> id in s.table.docs && t.docs[id].userid == s.table.docs[id].userid
  {
  }

  lemma IssueCarries(s: State, e: Event, user: string, value: string, limit: nat, it: bool)
    requires CarriedUntil(s, user, value, limit, it) && !Reissues(e, user, it) && (e.IssueIt? || e.IssueCode?)
    ensures CarriedUntil(Step(s, e), user, value, limit, it)
    ensures var t := Step(s, e).table;
            forall id :: id in t.docs && id < limit ==> id in s.table.docs && t.docs[id].userid == s.table.docs[id].userid
  {
    if e.IssueIt? { ItDocs(s, e.user, e.value); } else { CodedDocs(s, e.user, e.value); }
  }

  lemma RemoveCarries(s: State, q: Query<Token>, user: string, value: string, limit: nat, it: bool)
    requires CarriedUntil(s, user, value, limit, it)
    ensures CarriedUntil(s.(table := RemoveWhere(s.table, q)), user, value, limit, it)
    ensures var t := RemoveWhere(s.table, q);
            forall id :: id in t.docs && id < limit ==> id in s.table.docs && t.docs[id].userid == s.table.docs[id].userid
  {
  }

  lemma {:induction false} RunCarries(s: State, events: seq<Event>, user: string, value: string, limit: nat, it: bool)
    requires CarriedUntil(s, user, value, limit, it) && forall e :: e in events ==> !Reissues(e, user, it)
    ensures CarriedUntil(Run(s, events), user, value, limit, it)
    ensures forall id :: id in Run(s, events).table.docs && id < limit ==>
              id in s.table.docs && Run(s, events).table.docs[id].userid == s.table.docs[id].userid
    decreases |events|
  {
    if events != [] {
      StepCarries(s, events[0], user, value, limit, it);
      RunCarries(Step(s, events[0]), events[1..], user, value, limit, it);
    }
  }

  /** The last auth code issued to a user verifies for it exactly as long as one of the tokens the user had then is stored. */
  lemma LastCodeVerifies(s: State, user: string, code: string, later: seq<Event>)
    requires s.table.Valid() && forall e :: e in later ==> !(e.IssueCode? && e.user == user)
    ensures var t := Run(Step(s, IssueCode(user, code)), later);
            VerifyAuthCode(t.table, user, code)
            <==> exists id :: id in s.table.docs && s.table.docs[id].userid == user && id in t.table.docs
  {
    var u := Step(s, IssueCode(user, code));
    CodedDocs(s, user, code);
    RunCarries(u, later, user, code, s.table.next, false);
    FirstFinds(Run(u, later).table, Both(OfUser(user), ByCode(code)));
  }

  /** And the last IT token. */
  lemma LastItTokenVerifies(s: State, user: string, itToken: string, later: seq<Event>)
    requires s.table.Valid() && forall e :: e in later ==> !(e.IssueIt? && e.user == user)
    ensures var t := Run(Step(s, IssueIt(user, itToken)), later);
            VerifyIt(t.table, user, itToken)
            <==> exists id :: id in s.table.docs && s.table.docs[id].userid == user && id in t.table.docs
  {
    var u := Step(s, IssueIt(user, itToken));
    ItDocs(s, user, itToken);
    RunCarries(u, later, user, itToken, s.table.next, true);
    FirstFinds(Run(u, later).table, Both(OfUser(user), ByItToken(itToken)));
  }

  /** Revoking a token takes that one, and revoking all of a user's tokens takes those; no other is changed. */
  lemma RevokesOnlyThose(t: TokenTable, user: string, token: string)
    ensures RevokeToken(t, user, token).docs ==
            map id | id in t.docs && !(t.docs[id].userid == user && t.docs[id].token == token) :: t.docs[id]
    ensures RevokeAllForUser(t, user).docs == map id | id in t.docs && t.docs[id].userid != user :: t.docs[id]
  {
  }
}
