/** From the dashboard's user store to the auth helper: the store's list, the helper's configuration made of
    it, and the table the helper looks passwords up in. */
module AuthUsers {
  import CredentialCache
  import opened Names
  import opened Disks

  datatype AuthUser = AuthUser(username: string, password: string, enabled: bool, createdAt: int, updatedAt: int)

  predicate UniqueNames(users: seq<AuthUser>) {
    forall i, j | 0 <= i < j < |users| :: users[i].username != users[j].username
  }

  datatype StoreResult = Saved | UsernameRequired | PasswordRequired | NotSaved

  predicate Accepted(user: AuthUser) {
    user.username != "" && user.password != ""
  }

  function PlaceOf(users: seq<AuthUser>, name: string): (i: nat)
    ensures i <= |users|
    ensures i < |users| ==> users[i].username == name
    ensures forall j | 0 <= j < i :: users[j].username != name
  {
    var names := seq(|users|, j requires 0 <= j < |users| => users[j].username);
    assert forall j | 0 <= j < |users| :: names[j] == users[j].username;
    FirstOf(names, name)
  }

  /** What becomes of replacing the file: a failure leaves it as it was, a crash may come before or after. */
  predicate Takes(write: Fate) {
    write.Succeeds? || (write.Crashes? && write.done > 0)
  }

  /** The store's file. */
  class UserStore {
    var users: seq<AuthUser>

    constructor ()
      ensures users == []
    {
      users := [];
    }

    /** Replaced in place, keeping the creation time, or added at the end. */
    method Put(user: AuthUser, now: int, write: Fate) returns (r: StoreResult)
      requires UniqueNames(users)
      modifies this
      ensures UniqueNames(users)
      ensures r == UsernameRequired <==> user.username == ""
      ensures r == PasswordRequired <==> user.username != "" && user.password == ""
      ensures r == Saved <==> Accepted(user) && write.Succeeds?
      ensures !(Accepted(user) && Takes(write)) ==> users == old(users)
      ensures Accepted(user) && Takes(write) ==>
                var i := PlaceOf(old(users), user.username);
                && i < |users| && users[i].username == user.username && users[i].password == user.password
                && users[i].enabled == user.enabled && users[i].updatedAt == now
                && if i < |old(users)|
                   then users == old(users)[i := users[i]] && users[i].createdAt == old(users)[i].createdAt
                   else users == old(users) + [users[i]]
                        && users[i].createdAt == if user.createdAt == 0 then now else user.createdAt
    {
      if user.username == "" {
        return UsernameRequired;
      }
      if user.password == "" {
        return PasswordRequired;
      }
      var list := users;
      var i := 0;
      while i < |list| && list[i].username != user.username
        invariant 0 <= i <= |list|
        invariant forall k | 0 <= k < i :: list[k].username != user.username
      {
        i := i + 1;
      }
      assert i == PlaceOf(list, user.username);
      if i < |list| {
        list := list[i := user.(createdAt := list[i].createdAt, updatedAt := now)];
      } else {
        list := list + [user.(createdAt := if user.createdAt == 0 then now else user.createdAt, updatedAt := now)];
      }
      r := Write(list, write);
    }

    method Delete(username: string, write: Fate) returns (r: StoreResult)
      requires UniqueNames(users)
      modifies this
      ensures UniqueNames(users)
      ensures var i := PlaceOf(old(users), username);
              users == if i < |old(users)| && Takes(write) then old(users)[..i] + old(users)[i + 1..] else old(users)
      ensures r == Saved <==> PlaceOf(old(users), username) == |old(users)| || write.Succeeds?
    {
      var index := 0;
      while index < |users| && users[index].username != username
        invariant 0 <= index <= |users|
        invariant forall k | 0 <= k < index :: users[k].username != username
      {
        index := index + 1;
      }
      assert index == PlaceOf(users, username);
      if index == |users| {
        return Saved;
      }
      r := Write(users[..index] + users[index + 1..], write);
    }

    method Write(list: seq<AuthUser>, write: Fate) returns (r: StoreResult)
      modifies this
      ensures users == if Takes(write) then list else old(users)
      ensures r == if write.Succeeds? then Saved else NotSaved
    {
      if write.Succeeds? || (write.Crashes? && write.done > 0) {
        users := list;
      }
      r := if write.Succeeds? then Saved else NotSaved;
    }
  }

  /** The helper's configuration: the enabled users, in order. */
  function HelperUsers(users: seq<AuthUser>): seq<CredentialCache.User> {
    if users == [] then []
    else
      var n := |users| - 1;
      HelperUsers(users[..n])
      + if users[n].enabled then [CredentialCache.User(users[n].username, users[n].password)] else []
  }

  method HelperConfig(users: seq<AuthUser>) returns (cfg: seq<CredentialCache.User>)
    ensures cfg == HelperUsers(users)
  {
    cfg := [];
    for i := 0 to |users|
      invariant cfg == HelperUsers(users[..i])
    {
      assert users[..i + 1][..i] == users[..i];
      if users[i].enabled {
        cfg := cfg + [CredentialCache.User(users[i].username, users[i].password)];
      }
    }
    assert users[..|users|] == users;
  }

  /** After regeneration and reload, the helper's table holds exactly the enabled users, each with its password. */
  lemma {:induction false} HelperServesEnabledUsers(users: seq<AuthUser>, name: string)
    requires UniqueNames(users)
    ensures var table := CredentialCache.UserMap(HelperUsers(users));
            && (name in table <==> exists u | u in users :: u.username == name && u.enabled)
            && (forall u | u in users && u.username == name && u.enabled :: table[name].password == u.password)
  {
    if users != [] {
      var n := |users| - 1;
      var last := users[n];
      HelperServesEnabledUsers(users[..n], name);
      assert users == users[..n] + [last];
      if last.enabled {
        var before := HelperUsers(users[..n]);
        assert HelperUsers(users)[..|before|] == before;
      } else {
        assert HelperUsers(users[..n]) + [] == HelperUsers(users[..n]);
      }
    }
  }

  // ---- any sequence of requests ----

  datatype Request = Put(user: AuthUser, now: int) | Delete(username: string)

  /** The accounts as the requests that took effect leave them: who is there, with what password, enabled or not. */
  datatype Account = Account(password: string, enabled: bool)

  function Accounts(qs: seq<Request>, writes: seq<Fate>): map<string, Account>
    requires |writes| == |qs|
  {
    if qs == [] then map[]
    else
      var n := |qs| - 1;
      var m := Accounts(qs[..n], writes[..n]);
      if !Takes(writes[n]) then m
      else
        match qs[n]
        case Put(user, _) => if Accepted(user) then m[user.username := AccountOf(user)] else m
        case Delete(username) => m - {username}
  }

  function AccountOf(u: AuthUser): Account {
    Account(u.password, u.enabled)
  }

  /** A list of users that stands for these accounts. */
  ghost predicate StandsFor(users: seq<AuthUser>, m: map<string, Account>) {
    && UniqueNames(users)
    && (forall k | 0 <= k < |users| :: Listed(m, users[k]))
    && (forall name | name in m :: PlaceOf(users, name) < |users|)
  }

  predicate Listed(m: map<string, Account>, u: AuthUser) {
    u.username in m && m[u.username] == AccountOf(u)
  }

  lemma Placed(users: seq<AuthUser>, k: nat)
    requires k < |users|
    ensures PlaceOf(users, users[k].username) < |users|
  {
  }

  lemma PutStandsFor(users: seq<AuthUser>, users': seq<AuthUser>, m: map<string, Account>, user: AuthUser)
    requires StandsFor(users, m) && UniqueNames(users')
    requires var i := PlaceOf(users, user.username);
             && i < |users'| && users'[i].username == user.username && AccountOf(users'[i]) == AccountOf(user)
             && users' == if i < |users| then users[i := users'[i]] else users + [users'[i]]
    ensures StandsFor(users', m[user.username := AccountOf(user)])
  {
    hide PlaceOf, AccountOf;
    var i, m' := PlaceOf(users, user.username), m[user.username := AccountOf(user)];
    forall k | 0 <= k < |users'| ensures Listed(m', users'[k]) {
      if k != i {
        assert users'[k] == users[k] && Listed(m, users[k]);
        assert users'[k].username != user.username;
      }
    }
    forall name | name in m' ensures PlaceOf(users', name) < |users'| {
      var k := if name == user.username then i else PlaceOf(users, name);
      assert users'[k].username == name;
      Placed(users', k);
    }
  }

  lemma DeleteStandsFor(users: seq<AuthUser>, users': seq<AuthUser>, m: map<string, Account>, username: string)
    requires StandsFor(users, m) && UniqueNames(users')
    requires var i := PlaceOf(users, username);
             users' == if i < |users| then users[..i] + users[i + 1..] else users
    ensures StandsFor(users', m - {username})
  {
    hide PlaceOf, UniqueNames, Listed;
    var i := PlaceOf(users, username);
    if i < |users| {
      WithoutStandsFor(users, users', m, i);
    } else {
      assert username !in m;
      assert m - {username} == m;
    }
  }

  lemma WithoutStandsFor(users: seq<AuthUser>, users': seq<AuthUser>, m: map<string, Account>, i: nat)
    requires StandsFor(users, m) && UniqueNames(users') && i < |users|
    requires users' == users[..i] + users[i + 1..]
    ensures StandsFor(users', m - {users[i].username})
  {
    hide PlaceOf, UniqueNames, Listed;
    var m' := m - {users[i].username};
    forall k | 0 <= k < |users'| ensures Listed(m', users'[k]) {
      OtherListed(users, i, if k < i then k else k + 1, m);
    }
    forall name | name in m' ensures PlaceOf(users', name) < |users'| {
      var k' := PlaceOf(users, name);
      var k := if k' < i then k' else k' - 1;
      assert users'[k] == users[k'];
      Placed(users', k);
    }
  }

  lemma OtherListed(users: seq<AuthUser>, i: nat, k: nat, m: map<string, Account>)
    requires StandsFor(users, m) && i < |users| && k < |users| && k != i
    ensures Listed(m - {users[i].username}, users[k])
  {
    hide PlaceOf;
    assert Listed(m, users[k]);
  }

  /** From the empty store, any requests, each write meeting what it may: user names stay unique, and the
      helper whose configuration is made of the list serves exactly the enabled accounts. */
  method Serve(qs: seq<Request>, writes: seq<Fate>) returns (users: seq<AuthUser>, cfg: seq<CredentialCache.User>)
    requires |writes| == |qs|
    ensures StandsFor(users, Accounts(qs, writes))
    ensures forall name :: CredentialCache.PasswordOf(CredentialCache.UserMap(cfg), name) == Served(qs, writes, name)
  {
    hide StandsFor, CredentialCache.UserMap;
    var store := new UserStore();
    NobodyStandsFor();
    for i := 0 to |qs|
      invariant StandsFor(store.users, Accounts(qs[..i], writes[..i]))
    {
      assert qs[..i + 1][..i] == qs[..i] && writes[..i + 1][..i] == writes[..i];
      ghost var before, m := store.users, Accounts(qs[..i], writes[..i]);
      StandsForUnique(before, m);
      match qs[i] {
        case Put(user, now) =>
          var r := store.Put(user, now, writes[i]);
          if Accepted(user) && Takes(writes[i]) { PutStandsFor(before, store.users, m, user); }
        case Delete(username) =>
          var r := store.Delete(username, writes[i]);
          if Takes(writes[i]) { DeleteStandsFor(before, store.users, m, username); }
      }
    }
    assert qs[..|qs|] == qs && writes[..|writes|] == writes;
    users := store.users;
    cfg := HelperConfig(users);
    forall name ensures CredentialCache.PasswordOf(CredentialCache.UserMap(cfg), name) == Served(qs, writes, name) {
      ServedByHelper(users, Accounts(qs, writes), name);
    }
  }

  /** What the helper answers: the password of an enabled account, and the empty string for everybody else. */
  function Served(qs: seq<Request>, writes: seq<Fate>, name: string): string
    requires |writes| == |qs|
  {
    var m := Accounts(qs, writes);
    if name in m && m[name].enabled then m[name].password else ""
  }

  lemma NobodyStandsFor()
    ensures StandsFor([], map[])
  {
  }

  lemma StandsForUnique(users: seq<AuthUser>, m: map<string, Account>)
    requires StandsFor(users, m)
    ensures UniqueNames(users)
  {
  }

  lemma ServedByHelper(users: seq<AuthUser>, m: map<string, Account>, name: string)
    requires StandsFor(users, m)
    ensures CredentialCache.PasswordOf(CredentialCache.UserMap(HelperUsers(users)), name)
         == if name in m && m[name].enabled then m[name].password else ""
  {
    hide CredentialCache.UserMap, HelperUsers;
    HelperServesEnabledUsers(users, name);
    if name in m {
      var u := users[PlaceOf(users, name)];
      assert u in users && Listed(m, u);
      forall v | v in users && v.username == name ensures v.enabled == u.enabled {
        var k :| 0 <= k < |users| && users[k] == v;
        assert Listed(m, users[k]);
      }
    } else {
      forall v | v in users ensures v.username != name {
        var k :| 0 <= k < |users| && users[k] == v;
        assert Listed(m, users[k]);
      }
    }
  }
}
