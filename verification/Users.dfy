/** The user table (bumper/db/users.py): lists of devices and bots that grow without duplicates. */
module Users {
  import opened Results
  import opened TinyDb

  datatype User = User(userid: string, homeids: seq<string>, devices: seq<string>, bots: seq<string>)

  type UserTable = Table<User>

  function WithId(user: string): Query<User> {
    (u: User) => u.userid == user
  }

  /** A new user starts with the default home. */
  function AddUser(t: UserTable, user: string, homeId: string): UserTable {
    if First(t, WithId(user)).Some? then t
    else AddHome(Upsert(t, WithId(user), (u: User) => User(user, [], [], []), User(user, [], [], [])), user, homeId)
  }

  function AddHome(t: UserTable, user: string, homeId: string): UserTable {
    UpdateList(t, WithId(user), (u: User) => u.homeids, (u: User, l: seq<string>) => u.(homeids := l), homeId, true)
  }

  function AddDevice(t: UserTable, user: string, device: string): UserTable {
    UpdateList(t, WithId(user), (u: User) => u.devices, (u: User, l: seq<string>) => u.(devices := l), device, true)
  }

  function AddBot(t: UserTable, user: string, did: string): UserTable {
    UpdateList(t, WithId(user), (u: User) => u.bots, (u: User, l: seq<string>) => u.(bots := l), did, true)
  }

  /** The loop over all known bots; one without a did is passed over. */
  function AddBots(t: UserTable, user: string, dids: seq<string>): UserTable
    decreases |dids|
  {
    if dids == [] then t
    else AddBots(if dids[0] != "" then AddBot(t, user, dids[0]) else t, user, dids[1..])
  }

  /** User ids are unique, and no list holds a value twice. */
  ghost predicate WellKept(t: UserTable) {
    && t.Valid()
    && (forall i, j :: i in t.docs && j in t.docs && t.docs[i].userid == t.docs[j].userid ==> i == j)
    && (forall id :: id in t.docs ==>
          NoDuplicates(t.docs[id].homeids) && NoDuplicates(t.docs[id].devices) && NoDuplicates(t.docs[id].bots))
  }

  /** Only this user's document changes. */
  ghost predicate OnlyUser(t: UserTable, u: UserTable, user: string) {
    && u.docs.Keys == t.docs.Keys && u.next == t.next
    && forall id :: id in t.docs ==> u.docs[id].userid == t.docs[id].userid && (t.docs[id].userid != user ==> u.docs[id] == t.docs[id])
  }

  lemma AddHomeKeeps(t: UserTable, user: string, home: string)
    requires WellKept(t) && First(t, WithId(user)).Some?
    ensures WellKept(AddHome(t, user, home)) && OnlyUser(t, AddHome(t, user, home), user)
  {
    ChangedMembers(t.docs[First(t, WithId(user)).value].homeids, home, true);
  }

  lemma InsertKeeps(t: UserTable, user: string)
    requires WellKept(t) && First(t, WithId(user)) == None
    ensures var u := Insert(t, User(user, [], [], []));
            && WellKept(u) && First(u, WithId(user)).Some?
            && forall id :: id in t.docs ==> id in u.docs && u.docs[id] == t.docs[id] && t.docs[id].userid != user
  {
    FirstFinds(t, WithId(user));
    FirstFinds(Insert(t, User(user, [], [], [])), WithId(user));
    assert Insert(t, User(user, [], [], [])).docs[t.next].userid == user;
  }

  lemma AddUserKeeps(t: UserTable, user: string, homeId: string)
    requires WellKept(t)
    ensures WellKept(AddUser(t, user, homeId))
    ensures First(AddUser(t, user, homeId), WithId(user)).Some?
    ensures AddUser(t, user, homeId).docs
            == if First(t, WithId(user)).Some? then t.docs else t.docs[t.next := User(user, [homeId], [], [])]
  {
    if First(t, WithId(user)) == None {
      var u := Insert(t, User(user, [], [], []));
      InsertKeeps(t, user);
      AddHomeKeeps(u, user, homeId);
      StillThere(u, AddHome(u, user, homeId), user);
      NewUserHome(t, user, homeId);
    }
  }

  lemma NewUserHome(t: UserTable, user: string, homeId: string)
    requires WellKept(t) && First(t, WithId(user)) == None
    ensures AddHome(Insert(t, User(user, [], [], [])), user, homeId).docs == t.docs[t.next := User(user, [homeId], [], [])]
  {
    InsertKeeps(t, user);
    var u := Insert(t, User(user, [], [], []));
    assert First(u, WithId(user)).value == t.next;
    assert Changed([], homeId, true) == [homeId];
    assert AddHome(u, user, homeId).docs.Keys == u.docs.Keys;
  }

  lemma StillThere(t: UserTable, u: UserTable, user: string)
    requires t.Valid() && u.Valid() && OnlyUser(t, u, user) && First(t, WithId(user)).Some?
    ensures First(u, WithId(user)).Some?
  {
    FirstFinds(u, WithId(user));
  }

  lemma AddDeviceKeeps(t: UserTable, user: string, device: string)
    requires WellKept(t) && First(t, WithId(user)).Some?
    ensures var u := AddDevice(t, user, device);
            && WellKept(u) && OnlyUser(t, u, user)
            && forall id :: id in t.docs && t.docs[id].userid == user ==>
                 && u.docs[id] == t.docs[id].(devices := u.docs[id].devices)
                 && forall x :: x in u.docs[id].devices <==> x == device || x in t.docs[id].devices
  {
    ChangedMembers(t.docs[First(t, WithId(user)).value].devices, device, true);
  }

  lemma AddBotKeeps(t: UserTable, user: string, did: string)
    requires WellKept(t) && First(t, WithId(user)).Some?
    ensures var u := AddBot(t, user, did);
            && WellKept(u) && OnlyUser(t, u, user)
            && forall id :: id in t.docs && t.docs[id].userid == user ==>
                 && u.docs[id] == t.docs[id].(bots := u.docs[id].bots)
                 && forall x :: x in u.docs[id].bots <==> x == did || x in t.docs[id].bots
  {
    ChangedMembers(t.docs[First(t, WithId(user)).value].bots, did, true);
  }

  /** After the loop the user has every bot that has a did, each once, and what was there before; nothing else changes. */
  lemma {:induction false} AddBotsKeeps(t: UserTable, user: string, dids: seq<string>)
    requires WellKept(t) && First(t, WithId(user)).Some?
    ensures var u := AddBots(t, user, dids);
            && WellKept(u) && OnlyUser(t, u, user)
            && forall id :: id in t.docs && t.docs[id].userid == user ==>
                 && u.docs[id] == t.docs[id].(bots := u.docs[id].bots)
                 && forall x :: x in u.docs[id].bots <==> x in t.docs[id].bots || (x != "" && x in dids)
    decreases |dids|
  {
    if dids != [] {
      var v := if dids[0] != "" then AddBot(t, user, dids[0]) else t;
      if dids[0] != "" {
        AddBotKeeps(t, user, dids[0]);
        FirstFinds(t, WithId(user));
        FirstFinds(v, WithId(user));
      }
      AddBotsKeeps(v, user, dids[1..]);
      assert forall x :: x in dids <==> x == dids[0] || x in dids[1..];
    }
  }
}
