/** The credential cache of the auth helper: reloaded when the file's modification time moves on, shared by
    concurrent readers, over a file that a writer replaces atomically. */
module CredentialCache {
  datatype User = User(name: string, password: string)

  /** A version of the configuration file. */
  datatype Version = Version(mtime: int, users: seq<User>)

  datatype Cache = Cache(users: map<string, User>, modTime: int)

  // ---- the table of users ----

  function UserMap(users: seq<User>): map<string, User> {
    if users == [] then map[]
    else UserMap(users[..|users| - 1])[users[|users| - 1].name := users[|users| - 1]]
  }

  /** The last entry of a name wins, and only names with an entry are in the table. */
  lemma {:induction false} UserMapIsLastEntry(users: seq<User>, name: string)
    ensures name in UserMap(users) <==> exists u | u in users :: u.name == name
    ensures name in UserMap(users) ==>
              exists i | 0 <= i < |users| ::
                && users[i] == UserMap(users)[name] && users[i].name == name
                && forall k | i < k < |users| :: users[k].name != name
  {
    if users != [] {
      var n := |users| - 1;
      UserMapIsLastEntry(users[..n], name);
      assert users == users[..n] + [users[n]];
      if users[n].name != name && name in UserMap(users) {
        var i :| 0 <= i < n && users[..n][i] == UserMap(users[..n])[name] && users[..n][i].name == name
                 && forall k | i < k < n :: users[..n][k].name != name;
        assert users[i] == UserMap(users)[name];
        assert forall k | i < k < n :: users[k] == users[..n][k];
      }
    }
  }

  function PasswordOf(users: map<string, User>, name: string): string {
    if name in users then users[name].password else ""
  }

  // ---- the critical sections ----

  predicate Unchanged(c: Cache, mtime: int) {
    mtime <= c.modTime
  }

  function Installed(c: Cache, users: seq<User>, mtime: int): Cache {
    if mtime <= c.modTime then c else Cache(UserMap(users), mtime)
  }

  /** What one reader may observe of the file, at three moments. */
  datatype Stat = NoStat | StatAt(mtime: int)
  datatype Load = LoadFailed | FileMissing | Loaded(mtime: int, users: seq<User>)

  /** Go's zero time, which a missing file is reported with. */
  const ZERO_TIME: int := 0

  function Reloaded(c: Cache, first: Stat, load: Load): Cache {
    if first.NoStat? || Unchanged(c, first.mtime) then c
    else
      match load
      case LoadFailed => c
      case FileMissing => Installed(c, [], ZERO_TIME)
      case Loaded(mtime, users) => Installed(c, users, mtime)
  }

  /** Both looks at the file show a time after the cache's, and loading works. */
  predicate IsNewer(modTime: int, first: Stat, load: Load) {
    && first.StatAt? && first.mtime > modTime
    && !load.LoadFailed? && TimeOf(load) > modTime
  }

  function TimeOf(load: Load): int {
    if load.Loaded? then load.mtime else ZERO_TIME
  }

  function UsersOf(load: Load): seq<User> {
    if load.Loaded? then load.users else []
  }

  /** The password of the last entry of a name, or none. */
  function LastPassword(users: seq<User>, name: string): string {
    if users == [] then ""
    else if users[|users| - 1].name == name then users[|users| - 1].password
    else LastPassword(users[..|users| - 1], name)
  }

  lemma {:induction false} LastPasswordIsServed(users: seq<User>, name: string)
    ensures PasswordOf(UserMap(users), name) == LastPassword(users, name)
  {
    if users != [] {
      LastPasswordIsServed(users[..|users| - 1], name);
    }
  }

  class Config {
    var users: map<string, User>
    var modTime: int
    const configFile: string

    ghost function Value(): Cache
      reads this
    {
      Cache(users, modTime)
    }

    constructor (users: seq<User>, configFile: string, modTime: int)
      ensures Value() == Cache(UserMap(users), modTime) && this.configFile == configFile
    {
      this.configFile := configFile;
      this.modTime := modTime;
      new;
      var m := UsersToMap(users);
      this.users := m;
    }

    /** One reader on its own, whatever it gets to see of the file. */
    method ReloadIfChanged(first: Stat, load: Load)
      modifies this
      ensures Value() == if configFile == "" then old(Value()) else Reloaded(old(Value()), first, load)
    {
      if configFile == "" || first.NoStat? {
        return;
      }
      var upToDate := !(first.mtime > modTime);
      if upToDate || load.LoadFailed? {
        return;
      }
      var mtime, conf := ZERO_TIME, [];
      if load.Loaded? {
        mtime, conf := load.mtime, load.users;
      }
      if !(mtime > modTime) {
        return;
      }
      users := UsersToMap(conf);
      modTime := mtime;
    }

    method GetPassword(name: string, first: Stat, load: Load) returns (password: string)
      modifies this
      ensures Value() == if configFile == "" then old(Value()) else Reloaded(old(Value()), first, load)
      ensures password == PasswordOf(Value().users, name)
      ensures configFile != "" && IsNewer(old(modTime), first, load) ==>
                modTime == TimeOf(load) && password == LastPassword(UsersOf(load), name)
      ensures !(configFile != "" && IsNewer(old(modTime), first, load)) ==>
                modTime == old(modTime) && users == old(users)
    {
      ghost var loaded := UsersOf(load);
      LastPasswordIsServed(loaded, name);
      ReloadIfChanged(first, load);
      password := if name in users then users[name].password else "";
    }
  }

  method UsersToMap(users: seq<User>) returns (m: map<string, User>)
    ensures m == UserMap(users)
  {
    m := map[];
    for i := 0 to |users|
      invariant m == UserMap(users[..i])
    {
      assert users[..i + 1][..i] == users[..i];
      m := m[users[i].name := users[i]];
    }
    assert users[..|users|] == users;
  }

  // ---- readers and a writer, interleaved ----

  /** Where a reader is: what its own stat saw, and what its load has seen since. */
  datatype Reader =
    | Idle
    | Statted(saw: nat)
    | Stale(saw: nat)
    | LoadStatted(saw: nat, stat: nat)
    | LoadRead(saw: nat, stat: nat, content: nat)
    | Ready(saw: nat)
    | ReadyBlind

  datatype Answer = Answer(name: string, password: string, saw: int)

  /** `files` are the versions written so far, the last one current. `timeOf` and `contentOf` say which
      versions the cache's time and users come from. */
  datatype State = State(
    files: seq<Version>, cache: Cache, timeOf: nat, contentOf: nat,
    readers: map<nat, Reader>, answers: seq<Answer>)

  datatype Event =
    | Publish(version: Version)
    | StatFile(r: nat)
    | CompareTime(r: nat)
    | StatForLoad(r: nat)
    | ReadContent(r: nat)
    | Install(r: nat)
    | Reply(r: nat, name: string)
    | Fail(r: nat)

  function At(s: State, r: nat): Reader {
    if r in s.readers then s.readers[r] else Idle
  }

  function Current(s: State): nat
    requires s.files != []
  {
    |s.files| - 1
  }

  predicate Possible(s: State, e: Event) {
    && s.files != []
    && match e
       case Publish(v) => v.mtime > s.files[Current(s)].mtime
       case StatFile(r) => At(s, r).Idle?
       case CompareTime(r) => At(s, r).Statted? && At(s, r).saw < |s.files|
       case StatForLoad(r) => At(s, r).Stale?
       case ReadContent(r) => At(s, r).LoadStatted?
       case Install(r) => At(s, r).LoadRead? && At(s, r).stat < |s.files| && At(s, r).content < |s.files|
       case Reply(r, name) => At(s, r).Ready? || At(s, r).ReadyBlind?
       case Fail(r) => At(s, r).Idle? || At(s, r).Stale? || At(s, r).LoadStatted?
  }

  function Step(s: State, e: Event): State
    requires Possible(s, e)
  {
    match e
    case Publish(v) => s.(files := s.files + [v])
    case StatFile(r) => s.(readers := s.readers[r := Statted(Current(s))])
    case CompareTime(r) =>
      var saw := At(s, r).saw;
      s.(readers := s.readers[r := if Unchanged(s.cache, s.files[saw].mtime) then Ready(saw) else Stale(saw)])
    case StatForLoad(r) => s.(readers := s.readers[r := LoadStatted(At(s, r).saw, Current(s))])
    case ReadContent(r) => s.(readers := s.readers[r := LoadRead(At(s, r).saw, At(s, r).stat, Current(s))])
    case Install(r) =>
      var at := At(s, r);
      var mtime := s.files[at.stat].mtime;
      s.(readers := s.readers[r := Ready(at.saw)],
         cache := Installed(s.cache, s.files[at.content].users, mtime),
         timeOf := if Unchanged(s.cache, mtime) then s.timeOf else at.stat,
         contentOf := if Unchanged(s.cache, mtime) then s.contentOf else at.content)
    case Reply(r, name) =>
      var at := At(s, r);
      s.(readers := s.readers[r := Idle],
         answers := s.answers + [Answer(name, PasswordOf(s.cache.users, name), if at.Ready? then at.saw else -1)])
    case Fail(r) => s.(readers := s.readers[r := ReadyBlind])
  }

  predicate TimesIncrease(files: seq<Version>) {
    forall i, j | 0 <= i < j < |files| :: files[i].mtime < files[j].mtime
  }

  predicate ReaderOk(s: State, r: Reader) {
    match r
    case Idle => true
    case Statted(saw) => saw < |s.files|
    case Stale(saw) => saw < |s.files|
    case LoadStatted(saw, stat) => saw <= stat < |s.files|
    case LoadRead(saw, stat, content) => saw <= stat <= content < |s.files|
    case Ready(saw) => saw <= s.timeOf
    case ReadyBlind => true
  }

  /** An answer comes from some version no older than the one the reader's own stat saw. */
  predicate Fresh(files: seq<Version>, a: Answer) {
    exists c | 0 <= c < |files| :: a.saw <= c && a.password == PasswordOf(UserMap(files[c].users), a.name)
  }

  ghost predicate Consistent(s: State) {
    && s.files != [] && TimesIncrease(s.files)
    && s.timeOf <= s.contentOf < |s.files|
    && s.cache.modTime == s.files[s.timeOf].mtime
    && s.cache.users == UserMap(s.files[s.contentOf].users)
    && (forall r | r in s.readers :: ReaderOk(s, s.readers[r]))
    && (forall a | a in s.answers :: Fresh(s.files, a))
  }

  lemma FreshStays(files: seq<Version>, v: Version, a: Answer)
    requires Fresh(files, a)
    ensures Fresh(files + [v], a)
  {
    var c :| 0 <= c < |files| && a.saw <= c && a.password == PasswordOf(UserMap(files[c].users), a.name);
    assert (files + [v])[c] == files[c];
  }

  lemma PublishConsistent(s: State, v: Version)
    requires Consistent(s) && Possible(s, Publish(v))
    ensures Consistent(Step(s, Publish(v)))
  {
    hide UserMap, PasswordOf, Fresh;
    forall a | a in s.answers ensures Fresh(s.files + [v], a) {
      FreshStays(s.files, v, a);
    }
  }

  lemma ReplyConsistent(s: State, r: nat, name: string)
    requires Consistent(s) && Possible(s, Reply(r, name))
    ensures Consistent(Step(s, Reply(r, name)))
  {
    hide UserMap, PasswordOf;
    var t := Step(s, Reply(r, name));
    var a := t.answers[|s.answers|];
    assert a.password == PasswordOf(UserMap(s.files[s.contentOf].users), a.name);
    assert a.saw <= s.contentOf;
    assert Fresh(s.files, a);
  }

  lemma StepConsistent(s: State, e: Event)
    requires Consistent(s) && Possible(s, e)
    ensures Consistent(Step(s, e))
    ensures s.cache.modTime <= Step(s, e).cache.modTime && s.timeOf <= Step(s, e).timeOf
  {
    hide UserMap, PasswordOf, Fresh;
    match e {
      case Publish(v) => PublishConsistent(s, v);
      case Reply(r, name) => ReplyConsistent(s, r, name);
      case Install(r) =>
        assert ReaderOk(s, At(s, r));
      case _ =>
    }
  }

  /** A freshly loaded cache: stat first, content after it, possibly of a later version. */
  predicate JustLoaded(s: State) {
    && s.files != [] && TimesIncrease(s.files)
    && s.timeOf <= s.contentOf < |s.files|
    && s.cache == Cache(UserMap(s.files[s.contentOf].users), s.files[s.timeOf].mtime)
    && s.readers == map[] && s.answers == []
  }

  /** A run: each state follows from the one before by a possible event. */
  ghost predicate IsRun(states: seq<State>, events: seq<Event>) {
    && |states| == |events| + 1
    && JustLoaded(states[0])
    && forall i | 0 <= i < |events| :: Possible(states[i], events[i]) && states[i + 1] == Step(states[i], events[i])
  }

  /** In every interleaving: the recorded time never goes back, the users are never older than it, and every
      reader whose stat and load succeeded answers from a version no older than its own stat saw. */
  lemma {:induction false} RunsAreFresh(states: seq<State>, events: seq<Event>, i: nat, j: nat)
    requires IsRun(states, events) && i <= j < |states|
    ensures Consistent(states[j])
    ensures states[i].cache.modTime <= states[j].cache.modTime
    decreases j
  {
    hide Step, Possible, TimesIncrease, ReaderOk, Fresh, UserMap;
    if j > 0 {
      RunsAreFresh(states, events, if i < j then i else j - 1, j - 1);
      assert Possible(states[j - 1], events[j - 1]) && states[j] == Step(states[j - 1], events[j - 1]);
      StepConsistent(states[j - 1], events[j - 1]);
    }
  }

  lemma AtStart(s: State)
    requires JustLoaded(s)
    ensures IsRun([s], [])
  {
  }

  /** A run that ends in `s` and can take one more event. */
  ghost predicate EndsIn(states: seq<State>, events: seq<Event>, s: State) {
    IsRun(states, events) && states[|states| - 1] == s
  }

  lemma OneMore(states: seq<State>, events: seq<Event>, s: State, e: Event)
    returns (states': seq<State>, events': seq<Event>, s': State)
    requires EndsIn(states, events, s) && Possible(s, e)
    ensures s' == Step(s, e) && EndsIn(states', events', s')
    ensures states' == states + [s']
  {
    s' := Step(s, e);
    states', events' := states + [s'], events + [e];
  }

  // ---- one reader among others ----

  function Published(s: State, vs: seq<Version>): State {
    s.(files := s.files + vs)
  }

  /** The steps of one reader, `a` and `b` being what is published between its stat and its load's, and between
      that and its reading. */
  function ReaderTurn(s: State, r: nat, a: seq<Version>, b: seq<Version>): State
    requires s.files != [] && At(s, r).Idle?
  {
    var s1 := Step(Step(s, StatFile(r)), CompareTime(r));
    if At(s1, r).Ready? then s1
    else Step(Step(Published(Step(Published(s1, a), StatForLoad(r)), b), ReadContent(r)), Install(r))
  }

  /** A reader that no other disturbs does to the shared cache exactly what one reader does to its own, given
      what it saw of the file at the three moments. */
  lemma ReaderTurnIsReload(s: State, r: nat, a: seq<Version>, b: seq<Version>)
    requires s.files != [] && At(s, r).Idle?
    ensures var files := s.files + a + b;
            ReaderTurn(s, r, a, b).cache
              == Reloaded(s.cache, StatAt(s.files[|s.files| - 1].mtime),
                          Loaded((s.files + a)[|s.files + a| - 1].mtime, files[|files| - 1].users))
    ensures At(ReaderTurn(s, r, a, b), r).Ready?
  {
    hide UserMap;
    var k := |s.files| - 1;
    var s1 := Step(Step(s, StatFile(r)), CompareTime(r));
    if !At(s1, r).Ready? {
      var s2 := Step(Published(s1, a), StatForLoad(r));
      var s3 := Step(Published(s2, b), ReadContent(r));
      assert At(s3, r) == LoadRead(k, |s.files + a| - 1, |s.files + a + b| - 1);
      assert s3.files == s.files + a + b;
    }
  }

  // ---- when the content steps back ----

  /** An install by a load whose stat is newer than the cache's time but whose content is older than its users. */
  predicate Overtaken(s: State, e: Event) {
    e.Install? && At(s, e.r).LoadRead? && s.timeOf < At(s, e.r).stat && At(s, e.r).content < s.contentOf
  }

  /** Content steps back at no other event than such an install. What this takes is a cache that was torn before:
      the content of a load is no older than its stat, so the users must have been newer than the cache's time. */
  lemma StepsBackIffOvertaken(states: seq<State>, events: seq<Event>, i: nat)
    requires IsRun(states, events) && i < |events|
    ensures states[i + 1].contentOf < states[i].contentOf <==> Overtaken(states[i], events[i])
    ensures Overtaken(states[i], events[i]) ==> states[i].timeOf < states[i].contentOf
  {
    hide UserMap, PasswordOf, Fresh;
    RunsAreFresh(states, events, i, i);
    var s := states[i];
    if events[i].Install? {
      assert ReaderOk(s, At(s, events[i].r));
    }
  }

  /** No load is torn: nothing is published between its stat and its read, and the first was not torn either. */
  ghost predicate NoTornLoads(states: seq<State>, events: seq<Event>)
    requires IsRun(states, events)
  {
    && states[0].timeOf == states[0].contentOf
    && forall i | 0 <= i < |events| && events[i].ReadContent? ::
         At(states[i], events[i].r).LoadStatted? && At(states[i], events[i].r).stat == Current(states[i])
  }

  ghost predicate Whole(s: State) {
    && s.timeOf == s.contentOf
    && forall r | r in s.readers && s.readers[r].LoadRead? :: s.readers[r].stat == s.readers[r].content
  }

  /** Without torn loads users and time always come from one version, and the content never steps back. */
  lemma {:induction false} NoTornLoadsNoStepBack(states: seq<State>, events: seq<Event>, i: nat, j: nat)
    requires IsRun(states, events) && NoTornLoads(states, events)
    requires i <= j < |states|
    ensures Whole(states[j]) && states[i].contentOf <= states[j].contentOf
    decreases j
  {
    hide UserMap, PasswordOf, Consistent;
    if j > 0 {
      NoTornLoadsNoStepBack(states, events, if i < j then i else j - 1, j - 1);
      RunsAreFresh(states, events, j - 1, j - 1);
      WholeStays(states[j - 1], events[j - 1]);
    }
  }

  lemma WholeStays(s: State, e: Event)
    requires Consistent(s) && Whole(s) && Possible(s, e)
    requires e.ReadContent? ==> At(s, e.r).stat == Current(s)
    ensures Whole(Step(s, e)) && s.contentOf <= Step(s, e).contentOf
  {
    hide UserMap, PasswordOf, Fresh;
    if e.Install? {
      assert ReaderOk(s, At(s, e.r));
    }
  }

  /** A version of the file in which one user has the password `p`. */
  function WithPassword(mtime: int, p: string): Version {
    Version(mtime, [User("u", p)])
  }

  lemma PasswordServed(mtime: int, p: string)
    ensures PasswordOf(UserMap(WithPassword(mtime, p).users), "u") == p
  {
    assert WithPassword(mtime, p).users[..0] == [];
  }

  /** Reader 1 has its load's stat, reader 2 a newer one and the content to go with it. */
  lemma LoadsOverlap() returns (states: seq<State>, events: seq<Event>, s: State)
    ensures EndsIn(states, events, s)
    ensures s.files == [WithPassword(0, "zero"), WithPassword(1, "one"), WithPassword(2, "two")]
    ensures s.cache.modTime == 0 && s.timeOf == s.contentOf == 0 && s.answers == []
    ensures At(s, 1) == LoadStatted(1, 1) && At(s, 2) == LoadRead(2, 2, 2)
  {
    s := State([WithPassword(0, "zero"), WithPassword(1, "one")],
               Cache(UserMap([User("u", "zero")]), 0), 0, 0, map[], []);
    states, events := [s], [];
    AtStart(s);
    hide IsRun, EndsIn, UserMap;
    states, events, s := Turn(states, events, s, 1);
    states, events, s := OneMore(states, events, s, Publish(WithPassword(2, "two")));
    states, events, s := Turn(states, events, s, 2);
    states, events, s := OneMore(states, events, s, ReadContent(2));
  }

  /** A reader finds the file changed and makes its load's stat, the writer being idle. */
  lemma Turn(states: seq<State>, events: seq<Event>, s: State, r: nat)
    returns (states': seq<State>, events': seq<Event>, s': State)
    requires EndsIn(states, events, s) && s.files != [] && At(s, r).Idle?
    requires s.files[Current(s)].mtime > s.cache.modTime
    ensures EndsIn(states', events', s')
    ensures s' == s.(readers := s.readers[r := LoadStatted(Current(s), Current(s))])
  {
    hide IsRun, EndsIn;
    var states1, events1, s1 := OneMore(states, events, s, StatFile(r));
    var states2, events2, s2 := OneMore(states1, events1, s1, CompareTime(r));
    states', events', s' := OneMore(states2, events2, s2, StatForLoad(r));
    assert s'.readers == s.readers[r := LoadStatted(Current(s), Current(s))];
  }

  /** The content served may step back: of two readers whose loads overlap, the one with the older time may
      have read the newer content, and is then overtaken. One user's password is answered from version 3, and
      after that from version 2. */
  lemma ContentMayStepBack() returns (states: seq<State>, events: seq<Event>, s: State)
    ensures EndsIn(states, events, s)
    ensures s.files == [WithPassword(0, "zero"), WithPassword(1, "one"),
                        WithPassword(2, "two"), WithPassword(3, "three")]
    ensures s.answers == [Answer("u", "three", 1), Answer("u", "two", 2)]
    ensures exists i | 0 < i < |states| :: states[i].contentOf < states[i - 1].contentOf
  {
    states, events, s := LoadsOverlap();
    hide IsRun, EndsIn, UserMap, PasswordOf, Fresh;
    states, events, s := OneMore(states, events, s, Publish(WithPassword(3, "three")));
    states, events, s := OneMore(states, events, s, ReadContent(1));
    states, events, s := OneMore(states, events, s, Install(1));
    PasswordServed(3, "three");
    states, events, s := OneMore(states, events, s, Reply(1, "u"));
    states, events, s := OneMore(states, events, s, Install(2));
    ghost var n := |states| - 1;
    states, events, s := ReplyWith(states, events, s, n);
  }

  /** The last reply of that run. */
  lemma ReplyWith(states: seq<State>, events: seq<Event>, s: State, n: nat)
    returns (states': seq<State>, events': seq<Event>, s': State)
    requires EndsIn(states, events, s) && n == |states| - 1 && n > 0
    requires states[n].contentOf < states[n - 1].contentOf
    requires At(s, 2) == Ready(2) && s.cache.users == UserMap(WithPassword(2, "two").users) && s.files != []
    ensures EndsIn(states', events', s')
    ensures s'.files == s.files && s'.answers == s.answers + [Answer("u", "two", 2)]
    ensures exists i | 0 < i < |states'| :: states'[i].contentOf < states'[i - 1].contentOf
  {
    hide UserMap, PasswordOf;
    PasswordServed(2, "two");
    states', events', s' := OneMore(states, events, s, Reply(2, "u"));
    assert states'[..n + 1] == states;
    assert states'[n] == states[n] && states'[n - 1] == states[n - 1];
  }
}
