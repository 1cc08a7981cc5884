/** The class TokenRepo (bumper/db/tokens.py) over its table. */
module TokenRepository {
  import opened Results
  import opened TinyDb
  import opened Tokens

  class TokenRepo {
    const zone: Zone
    var table: TokenTable

    constructor (zone: Zone)
      ensures table == Empty() && table.Valid() && this.zone == zone
    {
      this.zone, table := zone, Empty();
    }

    method Add(user: string, tokenStr: string, now: Time)
      requires now.PlusSeconds(VALIDITY).Valid()
      modifies this
      ensures table == Tokens.Add(zone, old(table), user, tokenStr, now)
    {
      var expiration := Expiry(zone, now);
      var token := Token(user, tokenStr, expiration, None, None);
      if First(table, ByToken(user, tokenStr)) == None {
        table := Insert(table, token);
      }
    }

    method Get(user: string, tokenStr: string) returns (found: Option<Token>)
      ensures found == Tokens.Get(table, user, tokenStr)
    {
      var id := First(table, ByToken(user, tokenStr));
      found := if id.Some? then Some(table.docs[id.value]) else None;
    }

    method Verify(user: string, tokenStr: string, now: Time) returns (valid: bool)
      ensures valid == Tokens.Verify(table, user, tokenStr, now)
    {
      var token := Get(user, tokenStr);
      if token == None { return false; }
      valid := token.value.expiration.Utc() > now.Utc();
    }

    method GetFirst(user: string) returns (found: Option<Token>)
      ensures found == Tokens.GetFirst(table, user)
    {
      var id := First(table, OfUser(user));
      found := if id.Some? then Some(table.docs[id.value]) else None;
    }

    method LoginByItToken(itToken: string) returns (found: Option<Token>)
      ensures found == Tokens.LoginByItToken(table, itToken)
    {
      var id := First(table, ByItToken(itToken));
      found := if id.Some? then Some(table.docs[id.value]) else None;
    }

    method GetByAuthCode(authCode: string) returns (found: Option<Token>)
      ensures found == Tokens.GetByAuthCode(table, authCode)
    {
      var id := First(table, ByCode(authCode));
      found := if id.Some? then Some(table.docs[id.value]) else None;
    }

    method AddAuthCode(user: string, authCode: string) returns (done: bool)
      modifies this
      ensures (table, done) == Tokens.AddAuthCode(old(table), user, authCode)
    {
      done := false;
      if First(table, OfUser(user)).Some? {
        table := Update(table, OfUser(user), (d: Token) => d.(authCode := Some(authCode)));
        done := true;
      }
    }

    method AddItToken(user: string, itToken: string) returns (done: bool)
      modifies this
      ensures (table, done) == Tokens.AddItToken(old(table), user, itToken)
    {
      done := false;
      if First(table, OfUser(user)).Some? {
        table := Update(table, OfUser(user), (d: Token) => d.(itToken := Some(itToken)));
        done := true;
      }
    }

    /** _get_multi: the ids of the documents that match, the oldest first. */
    method Search(q: Query<Token>) returns (ids: seq<nat>)
      requires table.Valid()
      ensures forall id :: id in ids <==> id in table.docs && q(table.docs[id])
      ensures forall i, j :: 0 <= i < j < |ids| ==> ids[i] < ids[j]
    {
      ids := [];
      for id := 0 to table.next
        invariant forall k :: k in ids <==> 0 <= k < id && k in table.docs && q(table.docs[k])
        invariant forall i, j :: 0 <= i < j < |ids| ==> ids[i] < ids[j]
        invariant forall i :: 0 <= i < |ids| ==> ids[i] < id
      {
        if id in table.docs && q(table.docs[id]) {
          ids := ids + [id];
        }
      }
    }

    method RevokeUserExpired(user: string, now: Time)
      requires table.Valid()
      modifies this
      ensures table.Valid() && table == Tokens.RevokeUserExpired(old(table), user, now)
    {
      RemoveFound(Both(OfUser(user), ExpiredBefore(now)));
    }

    method RevokeToken(user: string, tokenStr: string)
      modifies this
      ensures table == Tokens.RevokeToken(old(table), user, tokenStr)
    {
      table := RemoveWhere(table, ByToken(user, tokenStr));
    }

    method RevokeExpired(now: Time)
      requires table.Valid()
      modifies this
      ensures table.Valid() && table == Tokens.RevokeExpired(old(table), now)
    {
      RemoveFound(ExpiredBefore(now));
    }

    /** Removing the documents found one by one removes exactly those that match. */
    method RemoveFound(q: Query<Token>)
      requires table.Valid()
      modifies this
      ensures table.Valid() && table == RemoveWhere(old(table), q)
    {
      var found := Search(q);
      assert (set id | id in found) == Matches(table, q);
      RemoveEach(found);
    }

    /** The loop of both revocations: one removal for each document found. */
    method RemoveEach(ids: seq<nat>)
      requires table.Valid()
      modifies this
      ensures table.Valid() && table == RemoveIds(old(table), set id | id in ids)
    {
      for i := 0 to |ids|
        invariant table == RemoveIds(old(table), set id | id in ids[..i])
      {
        assert forall id :: id in ids[..i + 1] <==> id in ids[..i] || id == ids[i];
        table := RemoveIds(table, {ids[i]});
      }
      assert ids[..|ids|] == ids;
    }

    method RevokeAllForUser(user: string)
      requires table.Valid()
      modifies this
      ensures table == Tokens.RevokeAllForUser(old(table), user)
    {
      var recs := Search(OfUser(user));
      table := RemoveIds(table, set id | id in recs);
    }
  }
}
