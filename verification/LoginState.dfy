/** The OIDC login state: a transaction in the caller's cookie, valid for a while after its creation, and
    the cache of states already consumed, which forgets an entry that long after its consumption. */
module LoginState {
  datatype Transaction = Transaction(state: string, createdAt: int) {
    function ExpiresAt(ttl: int): int {
      createdAt + ttl
    }
  }

  type Consumed = map<string, int>

  function Purged(states: Consumed, now: int): Consumed {
    map s | s in states && states[s] > now :: states[s]
  }

  datatype Marking = Marking(accepted: bool, states: Consumed)

  function Marked(states: Consumed, ttl: int, state: string, now: int): Marking {
    if state == "" then Marking(false, states)
    else if state in Purged(states, now) then Marking(false, Purged(states, now))
    else Marking(true, Purged(states, now)[state := now + ttl])
  }

  /** newOIDCConsumedStateCache falls back to the default for a lifetime that is not positive. */
  const CACHE_EXPIRATION: int := 120_000_000_000

  class ConsumedStateCache {
    const ttl: int
    var states: Consumed

    constructor (ttl: int)
      ensures states == map[] && this.ttl > 0
      ensures ttl > 0 ==> this.ttl == ttl
      ensures ttl <= 0 ==> this.ttl == CACHE_EXPIRATION
    {
      this.ttl := if ttl <= 0 then CACHE_EXPIRATION else ttl;
      states := map[];
    }

    method MarkConsumed(state: string, now: int) returns (accepted: bool)
      modifies this
      ensures Marking(accepted, states) == Marked(old(states), ttl, state, now)
    {
      if state == "" {
        return false;
      }
      var cached := states.Keys;
      while cached != {}
        invariant cached <= states.Keys <= old(states).Keys
        invariant forall s | s in states :: states[s] == old(states)[s]
        invariant forall s | s in old(states) && s !in cached :: s in states <==> old(states)[s] > now
        decreases cached
      {
        var s :| s in cached;
        cached := cached - {s};
        if !(states[s] > now) {
          states := states - {s};
        }
      }
      assert states == Purged(old(states), now);
      if state in states {
        return false;
      }
      states := states[state := now + ttl];
      return true;
    }
  }

  /** One callback: the transaction of its cookie, the time of the expiry check, the time taken for marking,
      and the time at which it got the cache's lock. */
  datatype Callback = Callback(tx: Transaction, checkedAt: int, now: int, lockedAt: int)

  /** Only callbacks whose transaction has not expired at their check get to the cache. */
  predicate Live(ttl: int, c: Callback) {
    c.tx.ExpiresAt(ttl) > c.checkedAt
  }

  function StatesAfter(ttl: int, cs: seq<Callback>, n: nat): Consumed
    requires n <= |cs|
  {
    if n == 0 then map[]
    else if !Live(ttl, cs[n - 1]) then StatesAfter(ttl, cs, n - 1)
    else Marked(StatesAfter(ttl, cs, n - 1), ttl, cs[n - 1].tx.state, cs[n - 1].now).states
  }

  predicate Accepted(ttl: int, cs: seq<Callback>, i: nat)
    requires i < |cs|
  {
    Live(ttl, cs[i]) && Marked(StatesAfter(ttl, cs, i), ttl, cs[i].tx.state, cs[i].now).accepted
  }

  /** One clock that never goes back, callbacks in the order in which they get the lock, and one creation
      for each state. */
  predicate WellTimed(cs: seq<Callback>) {
    && (forall c | c in cs :: c.tx.createdAt <= c.checkedAt <= c.now <= c.lockedAt)
    && (forall i, j | 0 <= i < j < |cs| :: cs[i].lockedAt <= cs[j].lockedAt)
    && (forall i, j | 0 <= i < j < |cs| && cs[i].tx.state == cs[j].tx.state :: cs[i].tx == cs[j].tx)
  }

  /** An entry stays until a callback's time reaches the end of its lifetime. */
  lemma {:induction false} EntryStays(ttl: int, cs: seq<Callback>, i: nat, n: nat)
    requires i < n <= |cs| && Accepted(ttl, cs, i)
    requires forall m | i < m < n :: cs[m].now < cs[i].now + ttl
    ensures var states := StatesAfter(ttl, cs, n);
            cs[i].tx.state in states && states[cs[i].tx.state] == cs[i].now + ttl
    decreases n
  {
    if n > i + 1 {
      EntryStays(ttl, cs, i, n - 1);
    }
  }

  /** A second acceptance takes a callback that waited, between its own expiry check and the lock, longer
      than the transaction was old when it was first consumed. */
  lemma SecondAcceptanceNeedsDelay(ttl: int, cs: seq<Callback>, i: nat, j: nat)
    requires ttl > 0 && WellTimed(cs) && i < j < |cs|
    requires cs[i].tx.state == cs[j].tx.state
    requires Accepted(ttl, cs, i) && Accepted(ttl, cs, j)
    ensures cs[j].lockedAt - cs[j].checkedAt > cs[i].now - cs[i].tx.createdAt
  {
    assert cs[j] in cs && cs[i] in cs;
    if forall m | i < m < j :: cs[m].now < cs[i].now + ttl {
      EntryStays(ttl, cs, i, j);
    } else {
      var m :| i < m < j && cs[m].now >= cs[i].now + ttl;
      assert cs[m] in cs;
    }
  }

  /** With every callback an atomic step, no state is accepted twice in any run. */
  lemma ConsumedAtMostOnce(ttl: int, cs: seq<Callback>, i: nat, j: nat)
    requires ttl > 0 && WellTimed(cs) && i < j < |cs|
    requires cs[j].lockedAt == cs[j].checkedAt
    requires cs[i].tx.state == cs[j].tx.state
    ensures !(Accepted(ttl, cs, i) && Accepted(ttl, cs, j))
  {
    assert cs[i] in cs;
    if Accepted(ttl, cs, i) && Accepted(ttl, cs, j) {
      SecondAcceptanceNeedsDelay(ttl, cs, i, j);
    }
  }

  /** No run accepts a state again within `gap` of the expiry check, having first consumed it at `age`. */
  ghost predicate SafeFor(ttl: int, age: int, gap: int) {
    forall cs: seq<Callback>, i: nat, j: nat | WellTimed(cs) && i < j < |cs| ::
      cs[i].tx.state == cs[j].tx.state && cs[i].now - cs[i].tx.createdAt == age
      && cs[j].lockedAt - cs[j].checkedAt <= gap && Accepted(ttl, cs, i)
      ==> !Accepted(ttl, cs, j)
  }

  lemma LateReplay(ttl: int, age: int) returns (cs: seq<Callback>)
    requires 0 <= age < ttl
    ensures |cs| == 2 && WellTimed(cs) && cs[0].tx == cs[1].tx
    ensures cs[0].now - cs[0].tx.createdAt == age && cs[1].lockedAt - cs[1].checkedAt == age + 1
    ensures Accepted(ttl, cs, 0) && Accepted(ttl, cs, 1)
  {
    var tx := Transaction("s", 0);
    cs := [Callback(tx, age, age, age), Callback(tx, ttl - 1, ttl + age, ttl + age)];
    assert StatesAfter(ttl, cs, 0) == map[];
    assert Purged(map[], age) == map[];
    assert StatesAfter(ttl, cs, 1) == map["s" := age + ttl];
    assert Purged(map["s" := age + ttl], ttl + age) == map[];
  }

  /** The guarantee is exact: a delay is harmless if and only if it does not exceed the transaction's age at
      its first consumption. */
  lemma DelayBoundIsExact(ttl: int, age: int, gap: int)
    requires 0 <= age < ttl
    ensures SafeFor(ttl, age, gap) <==> gap <= age
  {
    if gap <= age {
      forall cs: seq<Callback>, i: nat, j: nat | WellTimed(cs) && i < j < |cs|
        && cs[i].tx.state == cs[j].tx.state && cs[i].now - cs[i].tx.createdAt == age
        && cs[j].lockedAt - cs[j].checkedAt <= gap && Accepted(ttl, cs, i)
        ensures !Accepted(ttl, cs, j)
      {
        if Accepted(ttl, cs, j) {
          SecondAcceptanceNeedsDelay(ttl, cs, i, j);
        }
      }
    } else {
      var cs := LateReplay(ttl, age);
      assert !SafeFor(ttl, age, gap);
    }
  }

  // ---- acceptance ----

  /** A state is accepted exactly if it is not empty and not recorded for longer than now; it is then recorded
      for a lifetime from now, and of the others exactly those that have not run out stay. */
  lemma MarkedMeaning(states: Consumed, ttl: int, state: string, now: int)
    ensures var m := Marked(states, ttl, state, now);
            && (m.accepted <==> state != "" && (state in states ==> states[state] <= now))
            && (m.accepted ==> state in m.states && m.states[state] == now + ttl)
            && (state != "" ==>
                  forall s | s != state || !m.accepted ::
                    && (s in m.states <==> s in states && states[s] > now)
                    && (s in m.states ==> m.states[s] == states[s]))
  {
  }

  /** What is recorded was accepted before. */
  lemma {:induction false} RecordedWasAccepted(ttl: int, cs: seq<Callback>, n: nat, state: string) returns (i: nat)
    requires n <= |cs| && state in StatesAfter(ttl, cs, n)
    ensures i < n && cs[i].tx.state == state && Accepted(ttl, cs, i)
    decreases n
  {
    i := n - 1;
    if !(Accepted(ttl, cs, i) && cs[i].tx.state == state) {
      i := RecordedWasAccepted(ttl, cs, n - 1, state);
    }
  }

  /** With every callback an atomic step, a live callback is accepted if and only if its state is not empty and
      was not accepted before: no login is refused for any other reason. */
  lemma AcceptedIffFirst(ttl: int, cs: seq<Callback>, j: nat)
    requires ttl > 0 && WellTimed(cs) && j < |cs| && cs[j].lockedAt == cs[j].checkedAt
    ensures Accepted(ttl, cs, j)
       <==> Live(ttl, cs[j]) && cs[j].tx.state != ""
            && forall i | 0 <= i < j && cs[i].tx.state == cs[j].tx.state :: !Accepted(ttl, cs, i)
  {
    hide WellTimed, StatesAfter, Marked, Accepted, Live;
    if Accepted(ttl, cs, j) {
      AcceptedIsLive(ttl, cs, j);
      forall i | 0 <= i < j && cs[i].tx.state == cs[j].tx.state ensures !Accepted(ttl, cs, i) {
        ConsumedAtMostOnce(ttl, cs, i, j);
      }
    } else if Live(ttl, cs[j]) && cs[j].tx.state != "" {
      var i := RefusedWasAccepted(ttl, cs, j);
    }
  }

  lemma AcceptedIsLive(ttl: int, cs: seq<Callback>, j: nat)
    requires j < |cs| && Accepted(ttl, cs, j)
    ensures Live(ttl, cs[j]) && cs[j].tx.state != ""
  {
  }

  lemma RefusedWasAccepted(ttl: int, cs: seq<Callback>, j: nat) returns (i: nat)
    requires j < |cs| && !Accepted(ttl, cs, j) && Live(ttl, cs[j]) && cs[j].tx.state != ""
    ensures i < j && cs[i].tx.state == cs[j].tx.state && Accepted(ttl, cs, i)
  {
    hide StatesAfter;
    var states := StatesAfter(ttl, cs, j);
    assert cs[j].tx.state in states;
    i := RecordedWasAccepted(ttl, cs, j, cs[j].tx.state);
  }
}
