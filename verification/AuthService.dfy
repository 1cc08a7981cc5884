/**
 The handlers of bumper/web/auth_service.py that change the tables: they do step by step what the
 functions of AuthFlow.dfy say.
 */
module AuthService {
  import opened Results
  import opened TinyDb
  import opened Tokens
  import opened TokenRuns
  import opened TokenRepository
  import opened Users
  import opened AuthFlow

  class AuthService {
    const cfg: Settings
    const tokens: TokenRepo
    var users: UserTable

    // The table's history: the clock, and whom each value was issued to.
    ghost var run: State

    ghost predicate Valid()
      reads this, tokens
    {
      run.table == tokens.table && tokens.table.Valid() && run.zone == tokens.zone
    }

    constructor (cfg: Settings, zone: Zone, now: Time)
      ensures Valid() && fresh(tokens) && this.cfg == cfg && users == Empty() && run == Initial(zone, now)
    {
      this.cfg, users, run := cfg, Empty(), Initial(zone, now);
      tokens := new TokenRepo(zone);
    }

    /** _auth_any_user_extends */
    method ExtendUser(user: string, device: string, dids: seq<string>, now: Time)
      requires Valid() && now == run.now
      modifies this, tokens
      ensures Valid() && users == AddBots(AddDevice(old(users), user, device), user, dids)
      ensures run == Step(old(run), DropUserExpired(user))
    {
      users := AddDevice(users, user, device);
      ghost var goal := AddBots(users, user, dids);
      assert dids[0..] == dids;
      for i := 0 to |dids|
        invariant AddBots(users, user, dids[i..]) == goal
        invariant Valid() && run == old(run) && tokens.table == old(tokens.table)
      {
        assert dids[i..][0] == dids[i] && dids[i..][1..] == dids[i + 1..];
        if dids[i] != "" {
          users := AddBot(users, user, dids[i]);
        }
      }
      DropExpired(user, now);
    }

    method DropExpired(user: string, now: Time)
      requires Valid() && now == run.now
      modifies this`run, tokens
      ensures Valid() && run == Step(old(run), DropUserExpired(user))
    {
      tokens.RevokeUserExpired(user, now);
      run := Step(run, DropUserExpired(user));
    }

    method GenerateToken(user: string, generated: string, now: Time) returns (token: string)
      requires Valid() && now == run.now && now.PlusSeconds(VALIDITY).Valid()
      modifies this`run, tokens
      ensures Valid() && token == generated && run == Step(old(run), AddToken(user, generated))
    {
      token := generated;
      tokens.Add(user, token, now);
      run := Step(run, AddToken(user, generated));
      AddValid(run.zone, old(tokens.table), user, generated, now);
    }

    /** _auth_any: the access token of the answer. */
    method AuthAny(uid: Option<string>, presented: Option<string>, device: string, dids: seq<string>, check: bool,
                   generated: string, now: Time) returns (answer: string)
      requires Valid() && now == run.now && now.PlusSeconds(VALIDITY).Valid()
      modifies this, tokens
      ensures Valid()
      ensures (Service(users, run), answer)
              == AuthFlow.AuthAny(cfg, old(Service(users, run)), uid, presented, device, dids, check, generated)
    {
      var user := UserFor(cfg, uid);
      users := AddUser(users, user, cfg.homeId);
      ExtendUser(user, device, dids, now);
      answer := ChooseToken(user, presented, check, generated, now);
    }

    /** The token strategy, and the check whose failure is ignored. */
    method ChooseToken(user: string, presented: Option<string>, check: bool, generated: string, now: Time) returns (answer: string)
      requires Valid() && now == run.now && now.PlusSeconds(VALIDITY).Valid()
      modifies this`run, tokens
      ensures Valid() && (run, answer) == AnswerToken(old(run), user, presented, check, generated)
    {
      var isCheckLogin := check && presented.Some?;
      var tokenStr := presented;
      var stored := None;
      if isCheckLogin {
        stored := tokens.Get(user, tokenStr.value);
      }
      if !isCheckLogin || (tokenStr.value != "" && stored == None) {
        var token := GenerateToken(user, generated, now);
        tokenStr := Some(token);
      }
      answer := tokenStr.value;
      if isCheckLogin {
        var success, checked := CheckToken(user, answer, now);
        if success { answer := checked; }
      }
    }

    method CheckToken(user: string, tokenStr: string, now: Time) returns (success: bool, token: string)
      ensures success == Verify(tokens.table, user, tokenStr, now) && token == tokenStr
    {
      success := tokens.Verify(user, tokenStr, now);
      token := tokenStr;
    }

    /** The IT token that get_auth_code answers with. */
    method GenerateItToken(user: string, generated: string) returns (itToken: Option<string>)
      requires Valid()
      modifies this`run, tokens
      ensures Valid() && (run, itToken) == GetAuthCode(old(run), user, generated)
    {
      var done := tokens.AddItToken(user, generated);
      itToken := if done then Some(generated) else None;
      run := Step(run, IssueIt(user, generated));
    }

    method GenerateAuthCode(user: string, generated: string) returns (code: Option<string>)
      requires Valid()
      modifies this`run, tokens
      ensures Valid() && (run, code) == AuthFlow.GenerateAuthCode(old(run), user, generated)
    {
      var done := tokens.AddAuthCode(user, generated);
      code := if done then Some(generated) else None;
      run := Step(run, IssueCode(user, generated));
    }

    method GetNewAuth(itToken: string, generated: string, now: Time) returns (code: Option<string>)
      requires Valid() && now == run.now
      modifies this`run, tokens
      ensures Valid() && (run, code) == AuthFlow.GetNewAuth(old(run), itToken, generated)
    {
      var token := tokens.LoginByItToken(itToken);
      if token == None { return None; }
      DropExpired(token.value.userid, now);
      if token.value.authCode.Some? && token.value.authCode.value != "" { return token.value.authCode; }
      code := GenerateAuthCode(token.value.userid, generated);
    }

    method GetAuthCodeV2(user: string, generated: string, now: Time) returns (code: Option<string>)
      requires Valid() && now == run.now
      modifies this`run, tokens
      ensures Valid() && (run, code) == AuthFlow.GetAuthCodeV2(old(run), user, generated)
    {
      DropExpired(user, now);
      var token := tokens.GetFirst(user);
      if token.Some? && token.value.authCode.Some? { return token.value.authCode; }
      code := GenerateAuthCode(user, generated);
    }

    method OauthCallback(authCode: string) returns (user: Option<string>)
      requires Valid()
      ensures user == AuthFlow.OauthCallback(run, authCode)
    {
      var token := tokens.GetByAuthCode(authCode);
      user := if token.Some? then Some(token.value.userid) else None;
    }
  }

  lemma AddValid(zone: Zone, t: TokenTable, user: string, token: string, now: Time)
    requires t.Valid() && now.PlusSeconds(VALIDITY).Valid()
    ensures Add(zone, t, user, token, now).Valid()
  {
  }
}
