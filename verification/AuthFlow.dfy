/**
 The login flow of bumper/web/auth_service.py over the token runs: logging in, fetching an IT token,
 trading it for an auth code and redeeming that.
 */
module AuthFlow {
  import opened Results
  import opened Timestamps
  import opened TinyDb
  import opened Tokens
  import opened TokenRuns
  import opened Users

  datatype Settings = Settings(defaultUid: string, homeId: string)

  /** The user table and the state of the tokens. */
  datatype Service = Service(users: UserTable, run: State)

  // ---- _auth_any ----

  function UserFor(cfg: Settings, uid: Option<string>): string {
    if uid.Some? && uid.value != "" then uid.value else cfg.defaultUid
  }

  /** The user exists, has the device and all bots, and loses the expired tokens. */
  function Extended(cfg: Settings, svc: Service, user: string, device: string, dids: seq<string>): Service {
    Service(AddBots(AddDevice(AddUser(svc.users, user, cfg.homeId), user, device), user, dids),
            Step(svc.run, DropUserExpired(user)))
  }

  /** Whether the presented token is answered as it is. */
  predicate Accepted(s: State, user: string, presented: Option<string>, check: bool) {
    check && presented.Some? && (presented.value == "" || Get(s.table, user, presented.value).Some?)
  }

  /** The token strategy: the presented token, or a new one. */
  function AnswerToken(s: State, user: string, presented: Option<string>, check: bool, generated: string): (State, string) {
    if Accepted(s, user, presented, check) then (s, presented.value) else (Step(s, AddToken(user, generated)), generated)
  }

  /** The service afterwards, and the access token of the answer. */
  function AuthAny(cfg: Settings, svc: Service, uid: Option<string>, presented: Option<string>,
                   device: string, dids: seq<string>, check: bool, generated: string): (Service, string) {
    var user := UserFor(cfg, uid);
    var t := Extended(cfg, svc, user, device, dids);
    var (run, answer) := AnswerToken(t.run, user, presented, check, generated);
    (t.(run := run), answer)
  }

  /** The answer is a token stored for the user, except for an empty token presented for checking (unless one is stored). */
  lemma AnswerIsStored(s: State, user: string, presented: Option<string>, check: bool, generated: string)
    requires s.table.Valid() && s.now.PlusSeconds(VALIDITY).Valid()
    ensures var (t, answer) := AnswerToken(s, user, presented, check, generated);
            Get(t.table, user, answer).Some? <==> !(check && presented == Some("")) || Get(t.table, user, "").Some?
  {
    AddedIsFound(s.zone, s.table, user, generated, s.now);
  }

  /** None of the user's tokens would be revoked now. */
  ghost predicate NoneExpired(s: State, user: string) {
    forall id :: id in s.table.docs && s.table.docs[id].userid == user ==> Outlasts(s.table.docs[id].expiration, s.now)
  }

  /** After a login none of the user's tokens would be revoked; in particular the answered one, if it is stored. */
  lemma LoginLeavesNoneExpired(s: State, user: string, presented: Option<string>, check: bool, generated: string)
    requires Sound(s) && s.now.PlusSeconds(VALIDITY).Valid()
    ensures var (t, answer) := AnswerToken(Step(s, DropUserExpired(user)), user, presented, check, generated);
            var stored := Get(t.table, user, answer);
            && Sound(t) && t.now == s.now && NoneExpired(t, user)
            && (stored.Some? ==> Outlasts(stored.value.expiration, s.now))
  {
    DroppingExpiredLeaves(s, user);
    DroppingLeavesUser(s, user);
    StepSound(Step(s, DropUserExpired(user)), AddToken(user, generated));
    AddLeavesNoneExpired(Step(s, DropUserExpired(user)), user, generated);
  }

  /** And under one offset, the answered token verifies or expires this very moment. */
  lemma AnswerHasNotExpired(s: State, user: string, presented: Option<string>, check: bool, generated: string)
    requires Sound(s) && OneZone(s) && s.now.PlusSeconds(VALIDITY).Valid()
    ensures var (t, answer) := AnswerToken(Step(s, DropUserExpired(user)), user, presented, check, generated);
            var stored := Get(t.table, user, answer);
            stored.Some? ==> stored.value.expiration.Utc() >= s.now.Utc()
  {
    LoginLeavesNoneExpired(s, user, presented, check, generated);
    StepSound(s, DropUserExpired(user));
    AnswerHasOneOffset(Step(s, DropUserExpired(user)), user, presented, check, generated);
    var (t, answer) := AnswerToken(Step(s, DropUserExpired(user)), user, presented, check, generated);
    if Get(t.table, user, answer).Some? {
      OneOffsetOutlasts(Get(t.table, user, answer).value.expiration, s.now);
    }
  }

  lemma AnswerHasOneOffset(s: State, user: string, presented: Option<string>, check: bool, generated: string)
    requires Sound(s) && OneZone(s)
    requires s.now.PlusSeconds(VALIDITY).Valid()
    ensures var t := AnswerToken(s, user, presented, check, generated).0; OneOffset(t.table, t.now)
  {
    StepSound(s, AddToken(user, generated));
    StepOneZone(s, AddToken(user, generated));
    OneZoneHasOneOffset(AnswerToken(s, user, presented, check, generated).0);
  }

  lemma AddLeavesNoneExpired(s: State, user: string, generated: string)
    requires NoneExpired(s, user)
    ensures NoneExpired(Step(s, AddToken(user, generated)), user)
  {
    if s.now.PlusSeconds(VALIDITY).Valid() { NewTokenOutlasts(s.zone, s.now); }
  }

  lemma NewTokenOutlasts(zone: Zone, now: Time)
    requires now.PlusSeconds(VALIDITY).Valid()
    ensures Outlasts(Expiry(zone, now), now)
  {
    EarlierExactly(Expiry(zone, now), now);
  }

  lemma AddedIsFound(zone: Zone, t: TokenTable, user: string, token: string, now: Time)
    requires t.Valid() && now.PlusSeconds(VALIDITY).Valid()
    ensures Get(Add(zone, t, user, token, now), user, token).Some?
    ensures Get(t, user, token) == None ==> Get(Add(zone, t, user, token, now), user, token).value.expiration == Expiry(zone, now)
  {
    var u := Add(zone, t, user, token, now);
    FirstFinds(t, ByToken(user, token));
    FirstFinds(u, ByToken(user, token));
    if First(t, ByToken(user, token)) == None {
      assert u.docs[t.next].token == token;
    }
  }

  /** The same of the whole handler: for an absent or non-empty presented token the answer is stored for the user. */
  lemma AuthAnyAnswersStoredToken(cfg: Settings, svc: Service, uid: Option<string>, presented: Option<string>,
                                  device: string, dids: seq<string>, check: bool, generated: string)
    requires svc.run.table.Valid() && svc.run.now.PlusSeconds(VALIDITY).Valid()
    ensures var (t, answer) := AuthAny(cfg, svc, uid, presented, device, dids, check, generated);
            var user := UserFor(cfg, uid);
            Get(t.run.table, user, answer).Some? <==> !(check && presented == Some("")) || Get(t.run.table, user, "").Some?
  {
    AnswerIsStored(Step(svc.run, DropUserExpired(UserFor(cfg, uid))), UserFor(cfg, uid), presented, check, generated);
  }

  // ---- codes ----

  /** get_auth_code: a new IT token for the user, if the user has a token. */
  function GetAuthCode(s: State, user: string, generated: string): (State, Option<string>) {
    var t := Step(s, IssueIt(user, generated));
    (t, if First(s.table, OfUser(user)).Some? then Some(generated) else None)
  }

  /** _generate_auth_code */
  function GenerateAuthCode(s: State, user: string, generated: string): (State, Option<string>) {
    (Step(s, IssueCode(user, generated)), if First(s.table, OfUser(user)).Some? then Some(generated) else None)
  }

  /** get_new_auth: the code of the token that carries the IT token, or a new one. */
  function GetNewAuth(s: State, itToken: string, generated: string): (State, Option<string>) {
    match LoginByItToken(s.table, itToken)
    case None => (s, None)
    case Some(token) =>
      var t := Step(s, DropUserExpired(token.userid));
      if token.authCode.Some? && token.authCode.value != "" then (t, token.authCode)
      else GenerateAuthCode(t, token.userid, generated)
  }

  /** get_auth_code_v2, for a user that is known. */
  function GetAuthCodeV2(s: State, user: string, generated: string): (State, Option<string>) {
    var t := Step(s, DropUserExpired(user));
    match GetFirst(t.table, user)
    case Some(token) => if token.authCode.Some? then (t, token.authCode) else GenerateAuthCode(t, user, generated)
    case None => GenerateAuthCode(t, user, generated)
  }

  /** oauth_callback: the user the code stands for. */
  function OauthCallback(s: State, code: string): Option<string> {
    match GetByAuthCode(s.table, code)
    case None => None
    case Some(token) => Some(token.userid)
  }

  /** The value was issued to this user as an IT token, or as an auth code. */
  predicate ItIssuedTo(s: State, value: string, user: string) {
    value in s.itOwner && s.itOwner[value] == user
  }

  predicate CodeIssuedTo(s: State, value: string, user: string) {
    value in s.codeOwner && s.codeOwner[value] == user
  }

  lemma GetAuthCodeIssues(s: State, user: string, generated: string)
    requires Sound(s) && generated !in s.itOwner
    ensures var (t, it) := GetAuthCode(s, user, generated);
            Sound(t) && (it.Some? ==> ItIssuedTo(t, it.value, user))
  {
    StepSound(s, IssueIt(user, generated));
  }

  lemma GenerateAuthCodeIssues(s: State, user: string, generated: string)
    requires Sound(s) && generated !in s.codeOwner
    ensures var (t, code) := GenerateAuthCode(s, user, generated);
            Sound(t) && (code.Some? ==> CodeIssuedTo(t, code.value, user))
  {
    StepSound(s, IssueCode(user, generated));
  }

  /** The code that an IT token is traded for is a code of the user to whom the IT token was issued. */
  lemma GetNewAuthIssues(s: State, itToken: string, generated: string)
    requires Sound(s) && generated !in s.codeOwner
    ensures var (t, code) := GetNewAuth(s, itToken, generated);
            Sound(t) && (code.Some? ==> itToken in s.itOwner && CodeIssuedTo(t, code.value, s.itOwner[itToken]))
  {
    match LoginByItToken(s.table, itToken) {
      case None =>
      case Some(token) =>
        StepSound(s, DropUserExpired(token.userid));
        GenerateAuthCodeIssues(Step(s, DropUserExpired(token.userid)), token.userid, generated);
    }
  }

  lemma GetAuthCodeV2Issues(s: State, user: string, generated: string)
    requires Sound(s) && generated !in s.codeOwner
    ensures var (t, code) := GetAuthCodeV2(s, user, generated);
            Sound(t) && (code.Some? ==> CodeIssuedTo(t, code.value, user))
  {
    StepSound(s, DropUserExpired(user));
    GenerateAuthCodeIssues(Step(s, DropUserExpired(user)), user, generated);
  }

  /** A code resolves to the user it was issued to, or to nobody, now and after any further run. */
  lemma CodeResolvesToOwner(s: State, events: seq<Event>, code: string, user: string)
    requires Sound(s) && FreshRun(s, events) && CodeIssuedTo(s, code, user)
    ensures OauthCallback(Run(s, events), code) in {None, Some(user)}
  {
    RunSound(s, events);
    OwnersStay(s, events, code);
  }

  /**
   The whole chain: an IT token fetched for a user, traded for an auth code at any later time, and
   that code redeemed at any time after that, with anything else going on in between, gives this user
   or nobody.
   */
  lemma ChainEndsWithItsUser(s: State, user: string, itToken: string, between: seq<Event>, generated: string, later: seq<Event>)
    requires Sound(s) && itToken !in s.itOwner
    requires var (a, it) := GetAuthCode(s, user, itToken);
             && it.Some? && FreshRun(a, between)
             && generated !in Run(a, between).codeOwner
             && (var (b, code) := GetNewAuth(Run(a, between), itToken, generated);
                 code.Some? && FreshRun(b, later))
    ensures var a := GetAuthCode(s, user, itToken).0;
            var (b, code) := GetNewAuth(Run(a, between), itToken, generated);
            OauthCallback(Run(b, later), code.value) in {None, Some(user)}
  {
    var a := GetAuthCode(s, user, itToken).0;
    GetAuthCodeIssues(s, user, itToken);
    RunSound(a, between);
    OwnersStay(a, between, itToken);
    GetNewAuthIssues(Run(a, between), itToken, generated);
    var (b, code) := GetNewAuth(Run(a, between), itToken, generated);
    CodeResolvesToOwner(b, later, code.value, user);
  }

  // ---- whether a code can be redeemed ----

  /** The user has a token that would not be revoked now. */
  ghost predicate HasUnexpired(s: State, user: string) {
    exists id :: id in s.table.docs && s.table.docs[id].userid == user && Outlasts(s.table.docs[id].expiration, s.now)
  }

  /** And one of them carries an auth code. */
  ghost predicate HasUnexpiredCode(s: State, user: string) {
    exists id :: id in s.table.docs && s.table.docs[id].userid == user && s.table.docs[id].authCode.Some?
                 && Outlasts(s.table.docs[id].expiration, s.now)
  }

  /** A code in the table of a sound state stands for the user whose token carries it. */
  lemma CarriedCodeResolves(s: State, id: nat)
    requires Sound(s) && id in s.table.docs && s.table.docs[id].authCode.Some?
    ensures OauthCallback(s, s.table.docs[id].authCode.value) == Some(s.table.docs[id].userid)
  {
    FirstFinds(s.table, ByCode(s.table.docs[id].authCode.value));
  }

  lemma DroppingExpiredLeaves(s: State, user: string)
    requires Sound(s)
    ensures var t := Step(s, DropUserExpired(user));
            && Sound(t) && t.codeOwner == s.codeOwner
            && forall id :: id in t.table.docs <==>
                 id in s.table.docs && (s.table.docs[id].userid == user ==> Outlasts(s.table.docs[id].expiration, s.now))
    ensures forall id :: id in Step(s, DropUserExpired(user)).table.docs ==>
              Step(s, DropUserExpired(user)).table.docs[id] == s.table.docs[id]
  {
    RevokesExactlyOfUser(s.table, user, s.now);
    StepSound(s, DropUserExpired(user));
  }

  ghost predicate HasToken(s: State, user: string) {
    exists id :: id in s.table.docs && s.table.docs[id].userid == user
  }

  lemma DroppingLeavesUser(s: State, user: string)
    requires Sound(s)
    ensures var t := Step(s, DropUserExpired(user));
            t.now == s.now && NoneExpired(t, user) && (HasToken(t, user) <==> HasUnexpired(s, user))
  {
    var t := Step(s, DropUserExpired(user));
    DroppingExpiredLeaves(s, user);
    if HasUnexpired(s, user) {
      var id :| id in s.table.docs && s.table.docs[id].userid == user && Outlasts(s.table.docs[id].expiration, s.now);
      assert id in t.table.docs && t.table.docs[id].userid == user;
    }
  }

  /** A code is generated exactly for a user with a token, and stands for this user. */
  lemma GeneratedCodeResolves(s: State, user: string, generated: string)
    requires Sound(s) && generated !in s.codeOwner
    ensures var (t, code) := GenerateAuthCode(s, user, generated);
            && (code.Some? <==> HasToken(s, user))
            && (code.Some? ==> OauthCallback(t, code.value) == Some(user))
  {
    GenerateAuthCodeIssues(s, user, generated);
    FirstFinds(s.table, OfUser(user));
    if First(s.table, OfUser(user)).Some? {
      CarriedCodeResolves(GenerateAuthCode(s, user, generated).0, First(s.table, OfUser(user)).value);
    }
  }

  /**
   When get_new_auth answers with a code that works: a new code is given exactly to a user with an
   unexpired token and always works, but the code found with the IT token is answered in any case, and
   works exactly when an unexpired token of the user carries a code.
   */
  lemma NewAuthWorksExactly(s: State, itToken: string, generated: string)
    requires Sound(s) && generated !in s.codeOwner
    ensures var (t, code) := GetNewAuth(s, itToken, generated);
            match LoginByItToken(s.table, itToken)
            case None => code == None
            case Some(token) =>
              if token.authCode.Some? && token.authCode.value != "" then
                && code == token.authCode
                && OauthCallback(t, code.value) == (if HasUnexpiredCode(s, token.userid) then Some(token.userid) else None)
              else
                && (code.Some? <==> HasUnexpired(s, token.userid))
                && (code.Some? ==> OauthCallback(t, code.value) == Some(token.userid))
  {
    match LoginByItToken(s.table, itToken) {
      case None =>
      case Some(token) =>
        var t := Step(s, DropUserExpired(token.userid));
        DroppingExpiredLeaves(s, token.userid);
        DroppingLeavesUser(s, token.userid);
        if token.authCode.Some? && token.authCode.value != "" {
          FoundCodeWorksExactly(s, First(s.table, ByItToken(itToken)).value);
        } else {
          GeneratedCodeResolves(t, token.userid, generated);
        }
    }
  }

  lemma FoundCodeWorksExactly(s: State, id: nat)
    requires Sound(s) && id in s.table.docs && s.table.docs[id].authCode.Some?
    ensures var user := s.table.docs[id].userid;
            OauthCallback(Step(s, DropUserExpired(user)), s.table.docs[id].authCode.value)
            == (if HasUnexpiredCode(s, user) then Some(user) else None)
  {
    var user := s.table.docs[id].userid;
    if HasUnexpiredCode(s, user) {
      var k :| k in s.table.docs && s.table.docs[k].userid == user && s.table.docs[k].authCode.Some?
               && Outlasts(s.table.docs[k].expiration, s.now);
      CarriersAreTheUsers(s, id);
      DroppingExpiredLeaves(s, user);
      CarriedCodeResolves(Step(s, DropUserExpired(user)), k);
    } else {
      NoCarrierIsLeft(s, id);
    }
  }

  lemma NoCarrierIsLeft(s: State, id: nat)
    requires Sound(s) && id in s.table.docs && s.table.docs[id].authCode.Some?
    requires !HasUnexpiredCode(s, s.table.docs[id].userid)
    ensures OauthCallback(Step(s, DropUserExpired(s.table.docs[id].userid)), s.table.docs[id].authCode.value) == None
  {
    var user, code := s.table.docs[id].userid, s.table.docs[id].authCode.value;
    var t := Step(s, DropUserExpired(user));
    CarriersAreTheUsers(s, id);
    DroppingExpiredLeaves(s, user);
    forall k | k in t.table.docs ensures t.table.docs[k].authCode != Some(code) {
      assert t.table.docs[k] == s.table.docs[k];
    }
    FirstFinds(t.table, ByCode(code));
  }

  /** The tokens that carry a code are the tokens of its user that carry any. */
  lemma CarriersAreTheUsers(s: State, id: nat)
    requires Sound(s) && id in s.table.docs && s.table.docs[id].authCode.Some?
    ensures forall k :: k in s.table.docs ==>
              (s.table.docs[k].authCode == s.table.docs[id].authCode
               <==> s.table.docs[k].userid == s.table.docs[id].userid && s.table.docs[k].authCode.Some?)
  {
  }

  /** get_auth_code_v2 answers exactly for users with an unexpired token, with a code that works. */
  lemma GetAuthCodeV2WorksExactly(s: State, user: string, generated: string)
    requires Sound(s) && generated !in s.codeOwner
    ensures var (t, code) := GetAuthCodeV2(s, user, generated);
            && (code.Some? <==> HasUnexpired(s, user))
            && (code.Some? ==> OauthCallback(t, code.value) == Some(user))
  {
    DroppingExpiredLeaves(s, user);
    DroppingLeavesUser(s, user);
    FirstCodeResolves(Step(s, DropUserExpired(user)), user);
    GeneratedCodeResolves(Step(s, DropUserExpired(user)), user, generated);
  }

  /** The code of the user's first token, if it has one, works. */
  lemma FirstCodeResolves(s: State, user: string)
    requires Sound(s)
    ensures var token := GetFirst(s.table, user);
            && (token.Some? <==> HasToken(s, user))
            && (token.Some? && token.value.authCode.Some? ==> OauthCallback(s, token.value.authCode.value) == Some(user))
  {
    FirstFinds(s.table, OfUser(user));
    var first := First(s.table, OfUser(user));
    if first.Some? && s.table.docs[first.value].authCode.Some? {
      CarriedCodeResolves(s, first.value);
    }
  }

  /**
   Right after a login the chain of credentials succeeds: get_auth_code gives an IT token, get_new_auth
   a code for it, and the callback gives the user who logged in.
   */
  lemma LoginChainSucceeds(cfg: Settings, svc: Service, uid: Option<string>, presented: Option<string>, device: string,
                           dids: seq<string>, check: bool, generated: string, itToken: string, newCode: string)
    requires Sound(svc.run) && svc.run.now.PlusSeconds(VALIDITY).Valid() && !(check && presented == Some(""))
    requires itToken !in svc.run.itOwner && newCode !in svc.run.codeOwner
    ensures var user := UserFor(cfg, uid);
            var s := AuthAny(cfg, svc, uid, presented, device, dids, check, generated).0.run;
            var (a, it) := GetAuthCode(s, user, itToken);
            var (b, code) := GetNewAuth(a, itToken, newCode);
            it == Some(itToken) && code.Some? && OauthCallback(b, code.value) == Some(user)
  {
    var user := UserFor(cfg, uid);
    var (s, answer) := AnswerToken(Step(svc.run, DropUserExpired(user)), user, presented, check, generated);
    LoginLeavesUnexpired(svc.run, user, presented, check, generated);
    ChainSucceeds(s, user, itToken, newCode);
  }

  /** After a login the user has tokens, and none of them has expired. */
  lemma LoginLeavesUnexpired(s: State, user: string, presented: Option<string>, check: bool, generated: string)
    requires Sound(s) && s.now.PlusSeconds(VALIDITY).Valid() && !(check && presented == Some(""))
    ensures var t := AnswerToken(Step(s, DropUserExpired(user)), user, presented, check, generated).0;
            && Sound(t) && t.itOwner == s.itOwner && t.codeOwner == s.codeOwner
            && NoneExpired(t, user) && First(t.table, OfUser(user)).Some?
  {
    DroppingExpiredLeaves(s, user);
    DroppingLeavesUser(s, user);
    AnswerLeavesUnexpired(Step(s, DropUserExpired(user)), user, presented, check, generated);
  }

  lemma AnswerLeavesUnexpired(s: State, user: string, presented: Option<string>, check: bool, generated: string)
    requires Sound(s) && NoneExpired(s, user) && s.now.PlusSeconds(VALIDITY).Valid() && !(check && presented == Some(""))
    ensures var t := AnswerToken(s, user, presented, check, generated).0;
            && Sound(t) && t.itOwner == s.itOwner && t.codeOwner == s.codeOwner
            && NoneExpired(t, user) && First(t.table, OfUser(user)).Some?
  {
    StepSound(s, AddToken(user, generated));
    AddLeavesNoneExpired(s, user, generated);
    AnswerIsStored(s, user, presented, check, generated);
    StoredIsOfUser(AnswerToken(s, user, presented, check, generated).0.table, user, AnswerToken(s, user, presented, check, generated).1);
  }

  lemma StoredIsOfUser(t: TokenTable, user: string, token: string)
    requires t.Valid() && Get(t, user, token).Some?
    ensures First(t, OfUser(user)).Some?
  {
    FirstFinds(t, OfUser(user));
  }

  lemma ChainSucceeds(s: State, user: string, itToken: string, newCode: string)
    requires Sound(s) && NoneExpired(s, user) && First(s.table, OfUser(user)).Some?
    requires itToken !in s.itOwner && newCode !in s.codeOwner
    ensures var (a, it) := GetAuthCode(s, user, itToken);
            var (b, code) := GetNewAuth(a, itToken, newCode);
            it == Some(itToken) && code.Some? && OauthCallback(b, code.value) == Some(user)
  {
    var a := GetAuthCode(s, user, itToken).0;
    GetAuthCodeIssues(s, user, itToken);
    ItGoesToAll(s, user, itToken, First(s.table, OfUser(user)).value);
    NewAuthWorksExactly(a, itToken, newCode);
    FirstFinds(a.table, ByItToken(itToken));
    var found := First(a.table, ByItToken(itToken)).value;
    assert a.table.docs[found].userid == user;
    assert NoneExpired(a, user);
  }

  /** An IT token goes to all tokens of the user, and changes nothing else of them. */
  lemma ItGoesToAll(s: State, user: string, itToken: string, id: nat)
    requires id in s.table.docs && s.table.docs[id].userid == user && First(s.table, OfUser(user)).Some?
    requires NoneExpired(s, user)
    ensures var a := GetAuthCode(s, user, itToken).0;
            && a.codeOwner == s.codeOwner && NoneExpired(a, user)
            && id in a.table.docs && a.table.docs[id].itToken == Some(itToken)
  {
  }
}
