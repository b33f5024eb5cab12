/** The KDC proxy's fan-out: one request to every KDC that can be reached, the first usable reply back.
    Replies carry the length prefix of section 7.2.2 of RFC 4120. */
module KdcProxy {
  import opened Bytes
  import opened Framing
  import opened Relay

  const MAX_LENGTH: nat := 131072

  function Put32Big(n: nat): (b: Bytes)
    ensures |b| == 4
  {
    [n / 16777216 % 256, n / 65536 % 256, n / 256 % 256, n % 256]
  }

  function Get32Big(b: Bytes): (n: nat)
    requires |b| >= 4
  {
    b[0] as int * 16777216 + b[1] as int * 65536 + b[2] as int * 256 + b[3] as int
  }

  lemma Get32BigOfPut(n: nat, post: Bytes)
    requires n < 0x1_0000_0000
    ensures Get32Big(Put32Big(n) + post) == n
  {
    Digits32(n);
  }

  /** Most significant byte first. */
  lemma BigEndian()
    ensures Put32Big(0x01020304) == [1, 2, 3, 4] && Get32Big([1, 2, 3, 4]) == 0x01020304
  {
  }

  // ---- one reply ----

  datatype Reply = NoReply | Reply(bytes: Bytes)

  /** What awaitReply sends for a connection that yields `queue`. */
  function AwaitedReply(isUdp: bool, queue: seq<Read>): Reply {
    if isUdp then
      match NextChunk(queue, MAX_LENGTH)
      case None => NoReply
      case Chunk(c, _) => Reply(Put32Big(|c|) + c)
    else
      var s := StreamOf(queue);
      if |s| < 4 then NoReply
      else
        var length := Get32Big(s);
        if length > MAX_LENGTH || |s| < 4 + length then NoReply else Reply(s[..4 + length])
  }

  /** From either kind of connection, a reply's prefix is the length of what follows it. */
  lemma PrefixIsLength(isUdp: bool, queue: seq<Read>)
    ensures match AwaitedReply(isUdp, queue)
            case NoReply => true
            case Reply(b) => |b| >= 4 && Get32Big(b) == |b| - 4
  {
    match AwaitedReply(isUdp, queue)
    case NoReply =>
    case Reply(b) =>
      if isUdp {
        PendingSplit(queue, MAX_LENGTH);
        Get32BigOfPut(|b| - 4, b[4..]);
        assert b == Put32Big(|b| - 4) + b[4..];
      }
  }

  /** A stream's reply is the start of the stream that its own prefix measures, within the limit; there is none
      if and only if the stream has no such start. */
  lemma StreamReply(queue: seq<Read>, b: Bytes)
    ensures AwaitedReply(false, queue) == Reply(b)
       <==> b <= StreamOf(queue) && |b| >= 4 && |b| - 4 == Get32Big(b) <= MAX_LENGTH
  {
    var s := StreamOf(queue);
    if b <= s && |b| >= 4 {
      assert s[0] == b[0] && s[1] == b[1] && s[2] == b[2] && s[3] == b[3];
      assert Get32Big(s) == Get32Big(b);
    }
    if AwaitedReply(false, queue).Reply? {
      var r := AwaitedReply(false, queue).bytes;
      assert r[0] == s[0] && r[1] == s[1] && r[2] == s[2] && r[3] == s[3];
    }
  }

  /** A datagram's reply is its first 131072 bytes behind their number; there is none if and only if the first
      read fails. */
  lemma DatagramReply(queue: seq<Read>)
    ensures AwaitedReply(true, queue).NoReply? <==> queue == [] || queue[0].Broken?
    ensures match AwaitedReply(true, queue)
            case NoReply => true
            case Reply(b) =>
              && |b| >= 4 && Get32Big(b) == |b| - 4
              && b[4..] <= queue[0].data
              && |b| - 4 == if |queue[0].data| <= 131072 then |queue[0].data| else 131072
  {
    PrefixIsLength(true, queue);
  }

  /** What a reply is, whatever yields it. */
  predicate ReplyOfKdc(isUdp: bool, queue: seq<Read>, b: Bytes) {
    && |b| >= 4 && |b| - 4 == Get32Big(b) <= MAX_LENGTH
    && if isUdp then
         && queue != [] && queue[0].Frame? && b[4..] <= queue[0].data
         && (|b| - 4 < MAX_LENGTH ==> b[4..] == queue[0].data)
       else b <= StreamOf(queue)
  }

  lemma ReplyIs(isUdp: bool, queue: seq<Read>, b: Bytes)
    requires AwaitedReply(isUdp, queue) == Reply(b)
    ensures ReplyOfKdc(isUdp, queue, b)
  {
    hide Get32Big, StreamOf, AwaitedReply;
    if isUdp {
      DatagramReply(queue);
    } else {
      StreamReply(queue, b);
    }
  }

  /** io.ReadFull: all `n` bytes, or an error if the stream ends before. */
  method ReadFull(conn: Conn, n: nat) returns (b: Bytes, ok: bool)
    modifies conn`incoming
    ensures ok <==> |StreamOf(old(conn.incoming))| >= n
    ensures ok ==> b + StreamOf(conn.incoming) == StreamOf(old(conn.incoming)) && |b| == n
  {
    ghost var stream := StreamOf(conn.incoming);
    b := [];
    while |b| < n
      invariant |b| <= n
      invariant b + StreamOf(conn.incoming) == stream
      decreases Pending(conn.incoming)
    {
      ghost var queue := conn.incoming;
      StreamAfterChunk(queue, n - |b|);
      PendingSplit(queue, n - |b|);
      var p, failed := conn.ReadUpTo(n - |b|);
      if failed {
        return b, false;
      }
      b := b + p;
    }
    ok := true;
  }

  method AwaitReply(conn: Conn, isUdp: bool) returns (reply: Reply)
    modifies conn`incoming
    ensures reply == AwaitedReply(isUdp, old(conn.incoming))
  {
    if isUdp {
      var buf, failed := conn.ReadUpTo(MAX_LENGTH);
      if failed {
        return NoReply;
      }
      return Reply(Put32Big(|buf|) + buf);
    }
    ghost var stream := StreamOf(conn.incoming);
    var lengthPrefix, ok := ReadFull(conn, 4);
    if !ok {
      return NoReply;
    }
    assert stream[..4] == lengthPrefix;
    var length := Get32Big(lengthPrefix);
    if length > MAX_LENGTH {
      return NoReply;
    }
    var rest;
    rest, ok := ReadFull(conn, length);
    if !ok {
      return NoReply;
    }
    assert stream[..4 + length] == lengthPrefix + rest;
    return Reply(lengthPrefix + rest);
  }

  // ---- starting the connections ----

  datatype Kdc = Kdc(isUdp: bool, dials: bool, accepts: bool)

  /** A KDC takes part if it can be dialled and written to; over UDP the prefix must be there to be left out. */
  predicate Starts(k: Kdc, data: Bytes) {
    k.dials && k.accepts && (k.isUdp ==> |data| >= 4)
  }

  datatype Request = Request(kdc: nat, payload: Bytes)

  function Started(kdcs: seq<Kdc>, data: Bytes): seq<Request> {
    if kdcs == [] then []
    else
      var n := |kdcs| - 1;
      Started(kdcs[..n], data)
      + if Starts(kdcs[n], data) then [Request(n, PayloadOf(kdcs[n], data))] else []
  }

  /** Over UDP the request goes out without its length prefix. */
  function PayloadOf(k: Kdc, data: Bytes): Bytes {
    if k.isUdp && |data| >= 4 then data[4..] else data
  }

  /** A request that is sent on is the caller's, over UDP without the four bytes of its prefix. */
  lemma {:induction false} StartedPayloads(kdcs: seq<Kdc>, data: Bytes)
    ensures forall r | r in Started(kdcs, data) ::
              && r.kdc < |kdcs| && kdcs[r.kdc].dials && kdcs[r.kdc].accepts
              && if kdcs[r.kdc].isUdp then |data| >= 4 && data[..4] + r.payload == data else r.payload == data
    ensures forall k: nat | k < |kdcs| && kdcs[k].dials && kdcs[k].accepts && (kdcs[k].isUdp ==> |data| >= 4) ::
              Request(k, PayloadOf(kdcs[k], data)) in Started(kdcs, data)
  {
    if kdcs != [] {
      var n := |kdcs| - 1;
      StartedPayloads(kdcs[..n], data);
      assert forall k: nat | k < n :: kdcs[k] == kdcs[..n][k];
    }
  }

  function Ids(rs: seq<Request>): seq<nat> {
    if rs == [] then [] else Ids(rs[..|rs| - 1]) + [rs[|rs| - 1].kdc]
  }

  lemma IdsAppend(rs: seq<Request>, r: Request, k: nat)
    ensures multiset(Ids(rs + [r]))[k] == multiset(Ids(rs))[k] + if r.kdc == k then 1 else 0
  {
    assert (rs + [r])[..|rs|] == rs;
  }

  lemma {:induction false} StartedIds(kdcs: seq<Kdc>, data: Bytes, k: nat)
    ensures multiset(Ids(Started(kdcs, data)))[k] == if k < |kdcs| && Starts(kdcs[k], data) then 1 else 0
  {
    hide Ids, Starts;
    if kdcs == [] {
      assert Ids([]) == [] by { NoIds(); }
    } else {
      var n := |kdcs| - 1;
      StartedIds(kdcs[..n], data, k);
      IdsAppend(Started(kdcs[..n], data), Request(n, PayloadOf(kdcs[n], data)), k);
      assert Started(kdcs[..n], data) + [] == Started(kdcs[..n], data);
    }
  }

  lemma NoIds()
    ensures Ids([]) == []
  {
  }

  /** The dial loop: `closed` are the connections given up on the way. */
  method DialAll(kdcs: seq<Kdc>, data: Bytes) returns (started: seq<Request>, closed: multiset<nat>)
    ensures started == Started(kdcs, data)
    ensures forall k: nat :: closed[k] == if k < |kdcs| && kdcs[k].dials && !Starts(kdcs[k], data) then 1 else 0
  {
    started, closed := [], multiset{};
    var i := 0;
    while i < |kdcs|
      invariant 0 <= i <= |kdcs|
      invariant started == Started(kdcs[..i], data)
      invariant forall k: nat :: closed[k] == if k < i && kdcs[k].dials && !Starts(kdcs[k], data) then 1 else 0
    {
      assert kdcs[..i + 1][..i] == kdcs[..i];
      if kdcs[i].dials {
        if kdcs[i].isUdp && |data| < 4 {
          closed := closed + multiset{i};
        } else if !kdcs[i].accepts {
          closed := closed + multiset{i};
        } else {
          started := started + [Request(i, if kdcs[i].isUdp then data[4..] else data)];
        }
      }
      i := i + 1;
    }
    assert kdcs[..i] == kdcs;
  }

  /** With the deferred closes: every connection that was dialled is closed exactly once. */
  method StartAll(kdcs: seq<Kdc>, data: Bytes) returns (started: seq<Request>, closed: multiset<nat>)
    ensures started == Started(kdcs, data)
    ensures forall k: nat :: closed[k] == if k < |kdcs| && kdcs[k].dials then 1 else 0
  {
    started, closed := DialAll(kdcs, data);
    hide Started, Ids, Starts;
    ghost var early := closed;
    var d := 0;
    assert started[..0] == [];
    NoIds();
    while d < |started|
      invariant 0 <= d <= |started|
      invariant forall k: nat :: closed[k] == early[k] + multiset(Ids(started[..d]))[k]
    {
      forall k: nat ensures multiset(Ids(started[..d + 1]))[k]
                         == multiset(Ids(started[..d]))[k] + if started[d].kdc == k then 1 else 0
      {
        assert started[..d + 1] == started[..d] + [started[d]];
        IdsAppend(started[..d], started[d], k);
      }
      closed := closed + multiset{started[d].kdc};
      d := d + 1;
    }
    assert started[..d] == started;
    forall k: nat ensures closed[k] == if k < |kdcs| && kdcs[k].dials then 1 else 0 {
      StartedIds(kdcs, data, k);
      OnlyDialledStart(kdcs, data, k);
    }
  }

  lemma OnlyDialledStart(kdcs: seq<Kdc>, data: Bytes, k: nat)
    ensures k < |kdcs| && Starts(kdcs[k], data) ==> kdcs[k].dials
  {
  }

  // ---- the replies, in every order of arrival ----

  datatype Result = Waiting | Returned(bytes: Bytes) | AllFailed

  /** The goroutines that have not sent yet, those that have in the order of their sends, and how many
      replies the caller has taken off the channel. */
  datatype FanOut = FanOut(pending: set<nat>, order: seq<nat>, taken: nat, result: Result)

  datatype Move = Send(i: nat) | Receive

  function Below(n: nat): (s: set<nat>)
    ensures |s| == n
    ensures forall i: nat :: i in s <==> i < n
  {
    if n == 0 then {} else Below(n - 1) + {n - 1}
  }

  function Init(n: nat): FanOut {
    FanOut(Below(n), [], 0, Waiting)
  }

  function Queued(s: FanOut): int {
    |s.order| - s.taken
  }

  /** A send needs room in the channel's buffer of `cap`, a receive something in it. */
  predicate Can(cap: nat, s: FanOut, m: Move) {
    match m
    case Send(i) => i in s.pending && Queued(s) < cap
    case Receive => s.result.Waiting? && 0 <= s.taken < |s.order|
  }

  function ReplyOf(replies: seq<Reply>, i: nat): Reply {
    if i < |replies| then replies[i] else NoReply
  }

  function Apply(replies: seq<Reply>, cap: nat, s: FanOut, m: Move): FanOut
    requires Can(cap, s, m)
  {
    match m
    case Send(i) => s.(pending := s.pending - {i}, order := s.order + [i])
    case Receive =>
      var r := ReplyOf(replies, s.order[s.taken]);
      s.(taken := s.taken + 1,
         result := if r.Reply? then Returned(r.bytes)
                   else if s.taken + 1 == |replies| then AllFailed else Waiting)
  }

  ghost predicate Arises(replies: seq<Reply>, cap: nat, s: FanOut, n: nat)
    decreases n
  {
    if n == 0 then s == Init(|replies|)
    else exists r: FanOut, m: Move :: Arises(replies, cap, r, n - 1) && Can(cap, r, m) && s == Apply(replies, cap, r, m)
  }

  /** The first `n` replies sent were unusable. */
  predicate NoneUsable(replies: seq<Reply>, order: seq<nat>, n: nat)
    requires n <= |order|
  {
    forall k | 0 <= k < n :: ReplyOf(replies, order[k]).NoReply?
  }

  predicate Distinct(order: seq<nat>) {
    forall a, b | 0 <= a < b < |order| :: order[a] != order[b]
  }

  ghost predicate Accounted(replies: seq<Reply>, s: FanOut) {
    && s.taken <= |s.order|
    && |s.pending| + |s.order| == |replies|
    && (forall i | i in s.pending :: i < |replies| && i !in s.order)
    && (forall i: nat | i < |replies| :: i in s.pending || i in s.order)
    && Distinct(s.order)
    && match s.result
       case Waiting => NoneUsable(replies, s.order, s.taken) && (s.taken < |replies| || |replies| == 0)
       case Returned(b) =>
         && s.taken > 0 && ReplyOf(replies, s.order[s.taken - 1]) == Reply(b)
         && NoneUsable(replies, s.order, s.taken - 1)
       case AllFailed => s.taken == |replies| && NoneUsable(replies, s.order, s.taken)
  }

  lemma InitAccounted(replies: seq<Reply>)
    ensures Accounted(replies, Init(|replies|))
  {
  }

  lemma MoveAccounted(replies: seq<Reply>, cap: nat, s: FanOut, m: Move)
    requires Accounted(replies, s) && Can(cap, s, m)
    ensures Accounted(replies, Apply(replies, cap, s, m))
  {
    hide ReplyOf;
    var t := Apply(replies, cap, s, m);
    if m.Send? {
      assert forall k | 0 <= k < |s.order| :: t.order[k] == s.order[k];
      assert t.order[|s.order|] == m.i;
      assert forall k | k in s.order || k == m.i :: k in t.order;
    }
  }

  lemma {:induction false} AlwaysAccounted(replies: seq<Reply>, cap: nat, s: FanOut, n: nat)
    requires Arises(replies, cap, s, n)
    ensures Accounted(replies, s)
    decreases n
  {
    hide Accounted, Can, Apply, Init;
    if n == 0 {
      InitAccounted(replies);
    } else {
      var r: FanOut, m: Move :| Arises(replies, cap, r, n - 1) && Can(cap, r, m) && s == Apply(replies, cap, r, m);
      AlwaysAccounted(replies, cap, r, n - 1);
      MoveAccounted(replies, cap, r, m);
    }
  }

  lemma PendingIsCounted(s: FanOut, i: nat)
    requires i in s.pending
    ensures |s.pending| > 0
  {
  }

  /** In every order of arrival, with a buffer for every KDC: no goroutine sends twice or waits to send; the
      caller, while it waits, has a reply or a goroutine that will send one; it returns the first usable reply
      in the order of the sends, or fails when every one of them was unusable. */
  lemma FanOutIsSound(replies: seq<Reply>, cap: nat, s: FanOut, n: nat)
    requires |replies| <= cap && Arises(replies, cap, s, n)
    ensures forall i | i in s.pending :: Can(cap, s, Send(i)) && i !in s.order
    ensures Distinct(s.order) && s.taken <= |s.order| <= |replies|
    ensures s.result.Waiting? && |replies| > 0 ==> Can(cap, s, Receive) || s.pending != {}
    ensures s.result.Returned? ==>
              exists k | 0 <= k < |s.order| ::
                ReplyOf(replies, s.order[k]) == Reply(s.result.bytes) && NoneUsable(replies, s.order, k)
    ensures s.result.AllFailed? ==> forall i: nat | i < |replies| :: replies[i].NoReply?
  {
    hide ReplyOf, Arises;
    AlwaysAccounted(replies, cap, s, n);
    forall i | i in s.pending ensures Can(cap, s, Send(i)) {
      PendingIsCounted(s, i);
    }
    if s.result.AllFailed? {
      forall i: nat | i < |replies| ensures replies[i].NoReply? {
        AllSent(replies, s, i);
      }
    }
  }

  lemma AllSent(replies: seq<Reply>, s: FanOut, i: nat)
    requires Accounted(replies, s) && s.result.AllFailed? && i < |replies|
    ensures replies[i].NoReply?
  {
    assert s.pending == {};
    assert i in s.order;
    var k: nat :| k < |s.order| && s.order[k] == i;
    assert ReplyOf(replies, s.order[k]).NoReply?;
  }

  // ---- the whole of forward ----

  lemma {:induction false} StartedAreKdcs(kdcs: seq<Kdc>, data: Bytes)
    ensures |Started(kdcs, data)| <= |kdcs|
    ensures forall r | r in Started(kdcs, data) :: r.kdc < |kdcs| && Starts(kdcs[r.kdc], data)
  {
    hide Starts;
    if kdcs != [] {
      StartedAreKdcs(kdcs[..|kdcs| - 1], data);
    }
  }

  /** What the goroutines send, one for each connection started: what awaitReply makes of what its KDC yields. */
  function RepliesOf(kdcs: seq<Kdc>, data: Bytes, queues: seq<seq<Read>>): (replies: seq<Reply>)
    requires |queues| == |kdcs|
    ensures |replies| == |Started(kdcs, data)|
  {
    StartedAreKdcs(kdcs, data);
    var started := Started(kdcs, data);
    seq(|started|, i requires 0 <= i < |started| =>
      assert started[i] in started;
      AwaitedReply(kdcs[started[i].kdc].isUdp, queues[started[i].kdc]))
  }

  /** forward, with a channel for as many replies as there are KDCs, in every order in which the goroutines
      send: none of them waits to send or sends twice; the caller never waits for a reply that will not come;
      what it returns is the first usable reply of those sent, from a KDC that was started and with the bytes that
      this one yields; and it fails only if no started KDC gave a usable one. */
  lemma ForwardIsSound(kdcs: seq<Kdc>, data: Bytes, queues: seq<seq<Read>>, s: FanOut, n: nat)
    requires |queues| == |kdcs|
    requires Arises(RepliesOf(kdcs, data, queues), |kdcs|, s, n)
    ensures var started, replies := Started(kdcs, data), RepliesOf(kdcs, data, queues);
            && (forall i | i in s.pending :: Can(|kdcs|, s, Send(i)) && i !in s.order)
            && Distinct(s.order) && s.taken <= |s.order| <= |started|
            && (s.result.Waiting? && started != [] ==> Can(|kdcs|, s, Receive) || s.pending != {})
            && (s.result.Returned? ==>
                  exists k | 0 <= k < |s.order| ::
                    && s.order[k] < |started| && NoneUsable(replies, s.order, k)
                    && replies[s.order[k]] == Reply(s.result.bytes))
            && (s.result.Returned? ==>
                  exists r | r in started ::
                    r.kdc < |kdcs| && ReplyOfKdc(kdcs[r.kdc].isUdp, queues[r.kdc], s.result.bytes))
            && (s.result.AllFailed? ==> forall i: nat | i < |started| :: replies[i].NoReply?)
  {
    hide Arises, Started, Can, AwaitedReply, Get32Big, ReplyOfKdc;
    var started, replies := Started(kdcs, data), RepliesOf(kdcs, data, queues);
    StartedAreKdcs(kdcs, data);
    FanOutIsSound(replies, |kdcs|, s, n);
    if s.result.Returned? {
      var k :| 0 <= k < |s.order| && ReplyOf(replies, s.order[k]) == Reply(s.result.bytes)
               && NoneUsable(replies, s.order, k);
      var r := started[s.order[k]];
      assert r in started;
      ReplyIs(kdcs[r.kdc].isUdp, queues[r.kdc], s.result.bytes);
    }
  }
}
