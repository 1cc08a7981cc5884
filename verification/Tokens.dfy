/** The token table of bumper/db/tokens.py: what each operation makes of the table, and what it answers. */
module Tokens {
  import opened Results
  import opened Timestamps
  import opened TinyDb

  type Time = s: Stamp | s.Valid() witness Stamp(0, 0)

  /** TOKEN_VALIDITY_SECONDS, half an hour. */
  const VALIDITY: nat := 1800

  type UtcOffset = offset: int | -1440 < offset < 1440 witness 0

  /**
   A time zone, as a ZoneInfo answers for a wall time alone: where clocks go back the earlier of the
   two offsets, and in the gap where they go forward the one before it.
   */
  type Zone = nat -> UtcOffset

  /** The expiration adds to the wall clock, and has the offset of the zone at the wall time that results. */
  function Expiry(zone: Zone, now: Time): Time
    requires now.PlusSeconds(VALIDITY).Valid()
  {
    var local := now.local + VALIDITY * SECOND;
    Stamp(local, zone(local))
  }

  datatype Token = Token(userid: string, token: string, expiration: Time, authCode: Option<string>, itToken: Option<string>)

  type TokenTable = Table<Token>

  function OfUser(user: string): Query<Token> {
    (t: Token) => t.userid == user
  }

  function ByToken(user: string, token: string): Query<Token> {
    (t: Token) => t.userid == user && t.token == token
  }

  function ByCode(code: string): Query<Token> {
    (t: Token) => t.authCode == Some(code)
  }

  function ByItToken(itToken: string): Query<Token> {
    (t: Token) => t.itToken == Some(itToken)
  }

  /** The stored string is less than the string of now. */
  function ExpiredBefore(now: Time): Query<Token> {
    (t: Token) => Less(Iso(t.expiration), Iso(now))
  }

  function Both(p: Query<Token>, q: Query<Token>): Query<Token> {
    (t: Token) => p(t) && q(t)
  }

  function Doc(t: TokenTable, id: Option<nat>): Option<Token>
    requires id.Some? ==> id.value in t.docs
  {
    if id.Some? then Some(t.docs[id.value]) else None
  }

  /** A token that is there already is not inserted again, and keeps its expiration. */
  function Add(zone: Zone, t: TokenTable, user: string, token: string, now: Time): TokenTable
    requires now.PlusSeconds(VALIDITY).Valid()
  {
    if First(t, ByToken(user, token)).Some? then t
    else Insert(t, Token(user, token, Expiry(zone, now), None, None))
  }

  function Get(t: TokenTable, user: string, token: string): Option<Token> {
    Doc(t, First(t, ByToken(user, token)))
  }

  function GetFirst(t: TokenTable, user: string): Option<Token> {
    Doc(t, First(t, OfUser(user)))
  }

  function Verify(t: TokenTable, user: string, token: string, now: Time): bool {
    match Get(t, user, token)
    case None => false
    case Some(found) => found.expiration.Utc() > now.Utc()
  }

  /** The code goes to all tokens of the user; without a token there is no code. */
  function AddAuthCode(t: TokenTable, user: string, code: string): (TokenTable, bool) {
    if First(t, OfUser(user)).Some? then (Update(t, OfUser(user), (d: Token) => d.(authCode := Some(code))), true) else (t, false)
  }

  function AddItToken(t: TokenTable, user: string, itToken: string): (TokenTable, bool) {
    if First(t, OfUser(user)).Some? then (Update(t, OfUser(user), (d: Token) => d.(itToken := Some(itToken))), true) else (t, false)
  }

  function GetByAuthCode(t: TokenTable, code: string): Option<Token> {
    Doc(t, First(t, ByCode(code)))
  }

  function LoginByItToken(t: TokenTable, itToken: string): Option<Token> {
    Doc(t, First(t, ByItToken(itToken)))
  }

  function VerifyIt(t: TokenTable, user: string, itToken: string): bool {
    First(t, Both(OfUser(user), ByItToken(itToken))).Some?
  }

  function VerifyAuthCode(t: TokenTable, user: string, code: string): bool {
    First(t, Both(OfUser(user), ByCode(code))).Some?
  }

  function RevokeUserExpired(t: TokenTable, user: string, now: Time): TokenTable {
    RemoveWhere(t, Both(OfUser(user), ExpiredBefore(now)))
  }

  function RevokeToken(t: TokenTable, user: string, token: string): TokenTable {
    RemoveWhere(t, ByToken(user, token))
  }

  function RevokeExpired(t: TokenTable, now: Time): TokenTable {
    RemoveWhere(t, ExpiredBefore(now))
  }

  function RevokeAllForUser(t: TokenTable, user: string): TokenTable {
    RemoveWhere(t, OfUser(user))
  }

  // ---- expiry ----

  /** A token with this expiration stays: it has not expired, or clocks went back, and no clocks went forward too far. */
  predicate Outlasts(expiration: Time, now: Time) {
    OnlyEarlier(expiration, now) || (expiration.Utc() >= now.Utc() && !OnlySmaller(expiration, now))
  }

  lemma OutlastsExactly(expiration: Time, now: Time)
    ensures Outlasts(expiration, now) <==> !Less(Iso(expiration), Iso(now))
  {
    OrdersDifferExactly(expiration, now);
  }

  /** Under one offset the unexpired tokens outlast. */
  lemma OneOffsetOutlasts(expiration: Time, now: Time)
    requires expiration.offset == now.offset
    ensures Outlasts(expiration, now) <==> expiration.Utc() >= now.Utc()
  {
  }

  /** Which tokens stay, whatever their offsets. */
  lemma RevokesExactly(t: TokenTable, now: Time)
    ensures forall id :: id in RevokeExpired(t, now).docs <==> id in t.docs && Outlasts(t.docs[id].expiration, now)
    ensures forall id :: id in RevokeExpired(t, now).docs ==> RevokeExpired(t, now).docs[id] == t.docs[id]
  {
    forall id | id in t.docs ensures ExpiredBefore(now)(t.docs[id]) <==> !Outlasts(t.docs[id].expiration, now) {
      OutlastsExactly(t.docs[id].expiration, now);
    }
  }

  /** The same for one user's tokens; the other users' tokens stay. */
  lemma RevokesExactlyOfUser(t: TokenTable, user: string, now: Time)
    ensures forall id ::
              id in RevokeUserExpired(t, user, now).docs
              <==> id in t.docs && (t.docs[id].userid == user ==> Outlasts(t.docs[id].expiration, now))
    ensures forall id :: id in RevokeUserExpired(t, user, now).docs ==> RevokeUserExpired(t, user, now).docs[id] == t.docs[id]
  {
    forall id | id in t.docs ensures ExpiredBefore(now)(t.docs[id]) <==> !Outlasts(t.docs[id].expiration, now) {
      OutlastsExactly(t.docs[id].expiration, now);
    }
  }

  /** All stored expirations have the offset of now. */
  ghost predicate OneOffset(t: TokenTable, now: Time) {
    forall id :: id in t.docs ==> t.docs[id].expiration.offset == now.offset
  }

  /** No two tokens have the same user and token string. */
  ghost predicate UniquePairs(t: TokenTable) {
    forall i, j :: i in t.docs && j in t.docs && t.docs[i].userid == t.docs[j].userid && t.docs[i].token == t.docs[j].token
      ==> i == j
  }

  /** A token is found after revoking exactly when it was found before and outlasts. */
  lemma FoundAfterRevoking(t: TokenTable, user: string, token: string, now: Time)
    requires t.Valid() && UniquePairs(t)
    ensures Get(RevokeExpired(t, now), user, token) ==
            var found := Get(t, user, token);
            if found.Some? && Outlasts(found.value.expiration, now) then found else None
  {
    var u := RevokeExpired(t, now);
    RevokesExactly(t, now);
    FirstFinds(t, ByToken(user, token));
    FirstFinds(u, ByToken(user, token));
  }

  /**
   What revoking changes of what verifies, whatever the offsets: a token that verified no longer does
   exactly when clocks went forward past its expiration, and one that no longer verified is still
   stored exactly when clocks went back before its expiration, or its time is this very moment.
   */
  lemma RevokingAndVerifying(t: TokenTable, user: string, token: string, now: Time)
    requires t.Valid() && UniquePairs(t)
    ensures var found, u := Get(t, user, token), RevokeExpired(t, now);
            && (Verify(t, user, token, now) ==>
                  (Verify(u, user, token, now) <==> !OnlySmaller(found.value.expiration, now)))
            && (!Verify(t, user, token, now) ==>
                  !Verify(u, user, token, now)
                  && (Get(u, user, token).Some? <==>
                        found.Some? && (OnlyEarlier(found.value.expiration, now)
                                        || (found.value.expiration.Utc() == now.Utc()
                                            && !OnlySmaller(found.value.expiration, now)))))
  {
    FoundAfterRevoking(t, user, token, now);
    var found := Get(t, user, token);
    if found.Some? { OutlastsOrVerifies(found.value.expiration, now); }
  }

  lemma OutlastsOrVerifies(expiration: Time, now: Time)
    ensures expiration.Utc() > now.Utc() ==> (Outlasts(expiration, now) <==> !OnlySmaller(expiration, now))
    ensures expiration.Utc() <= now.Utc() ==>
              (Outlasts(expiration, now)
               <==> OnlyEarlier(expiration, now) || (expiration.Utc() == now.Utc() && !OnlySmaller(expiration, now)))
  {
    OrdersDifferExactly(expiration, now);
  }
}
