/** The sliding-window rate limiter. Each identity has a queue of recent accepted
    requests; entries a minute old or older are dropped before the queue is measured. */
module RateLimiter {
  /** The window of the program, in seconds; what it promises is stated for sixty. */
  const WINDOW := 60.0

  ghost predicate Ascending(times: seq<real>) {
    forall i, j :: 0 <= i < j < |times| ==> times[i] <= times[j]
  }

  /** How many of the times lie less than a minute before `now`. */
  ghost function Recent(times: seq<real>, now: real): nat {
    if times == [] then 0
    else Recent(times[..|times| - 1], now) + if now - times[|times| - 1] < 60.0 then 1 else 0
  }

  lemma {:induction false} RecentSplit(times: seq<real>, k: nat, now: real)
    requires k <= |times|
    requires forall i :: 0 <= i < k ==> now - times[i] >= 60.0
    requires forall i :: k <= i < |times| ==> now - times[i] < 60.0
    ensures Recent(times, now) == |times| - k
    decreases |times|
  {
    if times == [] {
    } else {
      var n := |times| - 1;
      RecentSplit(times[..n], if k <= n then k else n, now);
    }
  }

  /** Accepted requests `limit` places apart are at least a minute apart. */
  ghost predicate Spaced(times: seq<real>, limit: nat) {
    forall i {:trigger SpacedAt(times, limit, i)} :: SpacedAt(times, limit, i)
  }

  ghost predicate SpacedAt(times: seq<real>, limit: nat, i: int) {
    0 <= i && i + limit < |times| ==> times[i + limit] - times[i] >= 60.0
  }

  /** So no half-open minute holds more than `limit` accepted requests. */
  lemma WindowBound(times: seq<real>, limit: nat, start: real, i: nat, j: nat)
    requires Spaced(times, limit) && Ascending(times) && i <= j < |times|
    requires start <= times[i] && times[j] < start + 60.0
    ensures j - i + 1 <= limit
  {
    if i + limit <= j {
      ApartAtDistance(times, limit, i, j);
    }
  }

  lemma ApartAtDistance(times: seq<real>, limit: nat, i: nat, j: nat)
    requires Spaced(times, limit) && Ascending(times) && i + limit <= j < |times|
    ensures times[j] - times[i] >= 60.0
  {
    assert SpacedAt(times, limit, i);
    assert i + limit == j || times[i + limit] <= times[j];
  }

  ghost predicate NoLater(times: seq<real>, clock: real) {
    forall i :: 0 <= i < |times| ==> times[i] <= clock
  }

  ghost predicate AllOld(times: seq<real>, k: int, clock: real) {
    forall i :: 0 <= i < k <= |times| ==> clock - times[i] >= 60.0
  }

  ghost predicate EndsWith(times: seq<real>, queue: seq<real>) {
    |queue| <= |times| && forall i :: 0 <= i < |queue| ==> queue[i] == times[|times| - |queue| + i]
  }

  /** The queue is what is left of the accepted times; what was dropped is a minute old. */
  ghost predicate Tracks(queue: seq<real>, times: seq<real>, clock: real) {
    && EndsWith(times, queue)
    && AllOld(times, |times| - |queue|, clock)
    && NoLater(times, clock)
    && Ascending(times)
  }

  lemma TracksLater(queue: seq<real>, times: seq<real>, clock: real, now: real)
    requires Tracks(queue, times, clock) && clock <= now
    ensures Tracks(queue, times, now)
  {
  }

  lemma AcceptTracks(queue: seq<real>, times: seq<real>, now: real)
    requires Tracks(queue, times, now)
    ensures Tracks(queue + [now], times + [now], now)
  {
  }

  lemma DropTracks(queue: seq<real>, times: seq<real>, now: real)
    requires Tracks(queue, times, now) && queue != [] && now - queue[0] >= 60.0
    ensures Tracks(queue[1..], times, now)
  {
    assert times[|times| - |queue|] == queue[0];
  }

  /** Dropping old entries from the front. */
  method DropOld(queue: seq<real>, now: real, ghost times: seq<real>) returns (rest: seq<real>)
    requires Tracks(queue, times, now)
    ensures Tracks(rest, times, now) && (rest != [] ==> now - rest[0] < 60.0)
  {
    rest := queue;
    while rest != [] && now - rest[0] >= WINDOW
      invariant Tracks(rest, times, now)
    {
      DropTracks(rest, times, now);
      rest := rest[1..];
    }
  }

  lemma QueueIsRecent(queue: seq<real>, times: seq<real>, now: real)
    requires Tracks(queue, times, now) && (queue != [] ==> now - queue[0] < 60.0)
    ensures |queue| == Recent(times, now)
  {
    var k := |times| - |queue|;
    forall i | k <= i < |times| ensures now - times[i] < 60.0 {
      assert queue[0] == times[k];
      assert i == k || times[k] <= times[i];
    }
    RecentSplit(times, k, now);
  }

  lemma AcceptKeepsSpacing(times: seq<real>, limit: nat, now: real)
    requires Spaced(times, limit) && Ascending(times) && Recent(times, now) < limit
    requires NoLater(times, now)
    ensures Spaced(times + [now], limit) && Ascending(times + [now])
  {
    var more := times + [now];
    var n := |times|;
    forall i ensures SpacedAt(more, limit, i) {
      assert SpacedAt(times, limit, i);
      if 0 <= i && i + limit == n && now - times[i] < 60.0 {
        RecentFrom(times, i, now);
      }
    }
  }

  lemma {:induction false} RecentFrom(times: seq<real>, i: nat, now: real)
    requires Ascending(times) && i < |times| && now - times[i] < 60.0
    ensures Recent(times, now) >= |times| - i
    decreases |times|
  {
    var n := |times| - 1;
    if i < n {
      RecentFrom(times[..n], i, now);
      assert times[i] <= times[n];
    }
  }

  /** One identity's accepted times after a request at `now`. */
  ghost function Serve(times: seq<real>, limit: nat, now: real): seq<real> {
    if Recent(times, now) < limit then times + [now] else times
  }

  /** One identity's accepted times after all its arrivals. */
  ghost function Served(limit: nat, arrivals: seq<real>): seq<real> {
    if arrivals == [] then []
    else Serve(Served(limit, arrivals[..|arrivals| - 1]), limit, arrivals[|arrivals| - 1])
  }

  /** Over every run with a clock that does not go back, the accepted times keep their distance. */
  lemma {:induction false} EveryRunSpaced(limit: nat, arrivals: seq<real>)
    requires Ascending(arrivals)
    ensures Spaced(Served(limit, arrivals), limit) && Ascending(Served(limit, arrivals))
    ensures arrivals != [] ==> NoLater(Served(limit, arrivals), arrivals[|arrivals| - 1])
    decreases |arrivals|
  {
    if arrivals == [] {
      assert forall i :: SpacedAt([], limit, i);
    } else {
      var n := |arrivals| - 1;
      var now := arrivals[n];
      var times := Served(limit, arrivals[..n]);
      EveryRunSpaced(limit, arrivals[..n]);
      assert n > 0 ==> arrivals[n - 1] <= now;
      assert NoLater(times, now);
      if Recent(times, now) < limit {
        AcceptKeepsSpacing(times, limit, now);
      }
    }
  }

  ghost predicate Sound(queue: seq<real>, times: seq<real>, clock: real, limit: nat) {
    Tracks(queue, times, clock) && Spaced(times, limit)
  }

  lemma SoundLater(queue: seq<real>, times: seq<real>, clock: real, now: real, limit: nat)
    requires Sound(queue, times, clock, limit) && clock <= now
    ensures Sound(queue, times, now, limit)
  {
    TracksLater(queue, times, clock, now);
  }

  /** One request against the queue of its identity. */
  method Admit(queue: seq<real>, limit: nat, now: real, ghost times: seq<real>) returns (ok: bool, rest: seq<real>)
    requires Sound(queue, times, now, limit)
    ensures ok <==> Recent(times, now) < limit
    ensures Sound(rest, Serve(times, limit, now), now, limit)
  {
    rest := DropOld(queue, now, times);
    QueueIsRecent(rest, times, now);
    ok := |rest| < limit;
    if ok {
      AcceptKeepsSpacing(times, limit, now);
      AcceptTracks(rest, times, now);
      rest := rest + [now];
    }
  }

  class Limiter {
    const limit: nat
    var history: map<string, seq<real>>
    /** Every accepted request so far, and the time of the last one of any kind. */
    ghost var accepted: map<string, seq<real>>
    ghost var clock: real

    function Queue(identity: string): seq<real>
      reads this
    {
      if identity in history then history[identity] else []
    }

    ghost function Accepted(identity: string): seq<real>
      reads this
    {
      if identity in accepted then accepted[identity] else []
    }

    ghost predicate ValidFor(identity: string)
      reads this
    {
      Sound(Queue(identity), Accepted(identity), clock, limit)
    }

    ghost predicate Valid()
      reads this
    {
      forall identity {:trigger ValidFor(identity)} :: ValidFor(identity)
    }

    constructor (limit: nat, now: real)
      ensures Valid() && this.limit == limit && accepted == map[] && clock == now
    {
      this.limit := limit;
      history, accepted, clock := map[], map[], now;
    }

    /** A request is accepted exactly when fewer than `limit` requests of its identity were
        accepted less than a minute before it, and other identities are not affected. */
    method Dispatch(identity: string, now: real) returns (ok: bool)
      requires Valid() && clock <= now
      modifies this
      ensures Valid() && clock == now
      ensures ok <==> Recent(old(Accepted(identity)), now) < limit
      ensures Accepted(identity) == Serve(old(Accepted(identity)), limit, now)
      ensures forall other :: other != identity ==> Accepted(other) == old(Accepted(other)) && Queue(other) == old(Queue(other))
    {
      ghost var times := Accepted(identity);
      assert ValidFor(identity);
      SoundLater(Queue(identity), times, clock, now, limit);
      var queue;
      ok, queue := Admit(Queue(identity), limit, now, times);
      label before:
      history := history[identity := queue];
      accepted := accepted[identity := Serve(times, limit, now)];
      clock := now;
      forall other ensures ValidFor(other) {
        if other != identity {
          assert old@before(ValidFor(other));
          SoundLater(Queue(other), Accepted(other), old@before(clock), now, limit);
        }
      }
    }
  }
}
