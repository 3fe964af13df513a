/** The sliding-window limit on document mutations (`document_rate_limiter.py`).  Times are the monotonic
    clock's, in seconds. */
module RateLimiter {
  import opened Text

  const MAX_REQUESTS := 100
  const WINDOW_SECONDS := 60.0

  // ---------------------------------------------------------------- time stamps

  /** The stamps later than the cutoff. */
  function After(stamps: seq<real>, cutoff: real): (r: seq<real>)
    ensures |r| <= |stamps|
  {
    if stamps == [] then []
    else
      var rest, last := After(stamps[..|stamps| - 1], cutoff), stamps[|stamps| - 1];
      if last > cutoff then rest + [last] else rest
  }

  lemma AfterSnoc(stamps: seq<real>, x: real, cutoff: real)
    ensures After(stamps + [x], cutoff) == After(stamps, cutoff) + if x > cutoff then [x] else []
  {
    SnocInit(stamps, x);
  }

  /** Pruning keeps exactly the stamps later than the cutoff. */
  lemma {:induction false} AfterExact(stamps: seq<real>, cutoff: real)
    ensures forall x :: multiset(After(stamps, cutoff))[x] == if x > cutoff then multiset(stamps)[x] else 0
  {
    if stamps != [] {
      var init, last := stamps[..|stamps| - 1], stamps[|stamps| - 1];
      AfterExact(init, cutoff);
      AfterSnoc(init, last, cutoff);
      assert stamps == init + [last];
    }
  }

  lemma {:induction false} AfterAfter(stamps: seq<real>, a: real, b: real)
    requires a <= b
    ensures After(After(stamps, a), b) == After(stamps, b)
    ensures |After(stamps, b)| <= |After(stamps, a)|
  {
    if stamps != [] {
      var init, last := stamps[..|stamps| - 1], stamps[|stamps| - 1];
      AfterAfter(init, a, b);
      AfterSnoc(After(init, a), last, b);
    }
  }

  /** How many stamps lie in the window of one minute that ends at `t`. */
  function InWindow(stamps: seq<real>, t: real): nat {
    if stamps == [] then 0
    else
      var last := stamps[|stamps| - 1];
      InWindow(stamps[..|stamps| - 1], t) + if t - WINDOW_SECONDS < last <= t then 1 else 0
  }

  lemma {:induction false} WindowWithinAfter(stamps: seq<real>, t: real)
    ensures InWindow(stamps, t) <= |After(stamps, t - WINDOW_SECONDS)|
  {
    if stamps != [] {
      WindowWithinAfter(stamps[..|stamps| - 1], t);
    }
  }

  function Min(stamps: seq<real>): (m: real)
    requires stamps != []
    ensures m in stamps && forall x :: x in stamps ==> m <= x
  {
    if |stamps| == 1 then stamps[0]
    else
      var m, last := Min(stamps[..|stamps| - 1]), stamps[|stamps| - 1];
      assert forall x :: x in stamps ==> x in stamps[..|stamps| - 1] || x == last;
      if last < m then last else m
  }

  /** Pruning drops something exactly when the oldest stamp has left the window. */
  lemma {:induction false} PrunesIff(stamps: seq<real>, cutoff: real)
    requires stamps != []
    ensures |After(stamps, cutoff)| < |stamps| <==> Min(stamps) <= cutoff
  {
    var init, last := stamps[..|stamps| - 1], stamps[|stamps| - 1];
    if init != [] {
      PrunesIff(init, cutoff);
      assert Min(stamps) == if last < Min(init) then last else Min(init);
    }
  }

  // ---------------------------------------------------------------- one user's requests

  /** When the limit is checked, and when the request is then recorded or the refusal worked out. */
  datatype Request = Request(check: real, stamp: real)

  /** The stamps kept for a user, and all stamps ever recorded for them. */
  datatype User = User(kept: seq<real>, log: seq<real>)

  predicate Refuses(kept: seq<real>, check: real) {
    |After(kept, check - WINDOW_SECONDS)| >= MAX_REQUESTS
  }

  function Next(u: User, r: Request): User {
    var kept := After(u.kept, r.check - WINDOW_SECONDS);
    if |kept| >= MAX_REQUESTS then User(kept, u.log) else User(kept + [r.stamp], u.log + [r.stamp])
  }

  function Run(requests: seq<Request>): User {
    if requests == [] then User([], []) else Next(Run(requests[..|requests| - 1]), requests[|requests| - 1])
  }

  /** The clock never runs backwards. */
  predicate Clocked(requests: seq<Request>) {
    if requests == [] then true
    else
      var init, last := requests[..|requests| - 1], requests[|requests| - 1];
      Clocked(init) && last.check <= last.stamp && (init != [] ==> init[|init| - 1].stamp <= last.check)
  }

  /** What has been pruned is out of every window that ends at `now` or later. */
  ghost predicate Faithful(u: User, now: real) {
    forall cutoff :: cutoff >= now - WINDOW_SECONDS ==> After(u.kept, cutoff) == After(u.log, cutoff)
  }

  ghost predicate NoneAfter(u: User, now: real) {
    forall x :: x in u.log || x in u.kept ==> x <= now
  }

  ghost predicate Limited(u: User) {
    && |u.kept| <= MAX_REQUESTS
    && forall t :: InWindow(u.log, t) <= MAX_REQUESTS
  }

  ghost predicate Sound(u: User, now: real) {
    Faithful(u, now) && NoneAfter(u, now) && Limited(u)
  }

  lemma PruneFaithful(u: User, now: real, check: real)
    requires Faithful(u, now) && now <= check
    ensures After(u.kept, check - WINDOW_SECONDS) == After(u.log, check - WINDOW_SECONDS)
    ensures Faithful(User(After(u.kept, check - WINDOW_SECONDS), u.log), check)
  {
    forall cutoff | cutoff >= check - WINDOW_SECONDS
      ensures After(After(u.kept, check - WINDOW_SECONDS), cutoff) == After(u.log, cutoff)
    {
      AfterAfter(u.kept, check - WINDOW_SECONDS, cutoff);
    }
  }

  lemma RecordFaithful(u: User, check: real, stamp: real)
    requires Faithful(u, check) && check <= stamp
    ensures Faithful(User(u.kept + [stamp], u.log + [stamp]), stamp)
  {
    forall cutoff | cutoff >= stamp - WINDOW_SECONDS
      ensures After(u.kept + [stamp], cutoff) == After(u.log + [stamp], cutoff)
    {
      AfterSnoc(u.kept, stamp, cutoff);
      AfterSnoc(u.log, stamp, cutoff);
    }
  }

  lemma InWindowSnoc(stamps: seq<real>, x: real, t: real)
    ensures InWindow(stamps + [x], t) == InWindow(stamps, t) + if t - WINDOW_SECONDS < x <= t then 1 else 0
  {
    SnocInit(stamps, x);
  }

  lemma WindowAfterCheck(log: seq<real>, check: real, t: real)
    requires check <= t
    ensures InWindow(log, t) <= |After(log, check - WINDOW_SECONDS)|
  {
    WindowWithinAfter(log, t);
    AfterAfter(log, check - WINDOW_SECONDS, t - WINDOW_SECONDS);
  }

  /** A recorded request keeps every window within the limit, those that end before it and those after. */
  lemma RecordLimited(log: seq<real>, check: real, stamp: real, t: real)
    requires check <= stamp && InWindow(log, t) <= MAX_REQUESTS
    requires |After(log, check - WINDOW_SECONDS)| < MAX_REQUESTS
    ensures InWindow(log + [stamp], t) <= MAX_REQUESTS
  {
    InWindowSnoc(log, stamp, t);
    if stamp <= t {
      WindowAfterCheck(log, check, t);
    }
  }

  lemma {:induction false} AfterSubset(stamps: seq<real>, cutoff: real, x: real)
    requires x in After(stamps, cutoff)
    ensures x in stamps && x > cutoff
  {
    var init, last := stamps[..|stamps| - 1], stamps[|stamps| - 1];
    if x != last || last <= cutoff {
      AfterSubset(init, cutoff, x);
    }
  }

  lemma PrunedSound(u: User, now: real, check: real, kept: seq<real>)
    requires Sound(u, now) && now <= check && kept == After(u.kept, check - WINDOW_SECONDS)
    ensures Sound(User(kept, u.log), check) && kept == After(u.log, check - WINDOW_SECONDS)
  {
    PruneFaithful(u, now, check);
    forall x | x in kept ensures x <= check {
      AfterSubset(u.kept, check - WINDOW_SECONDS, x);
    }
  }

  lemma RecordedSound(u: User, check: real, stamp: real)
    requires Sound(u, check) && check <= stamp && |u.kept| < MAX_REQUESTS
    requires u.kept == After(u.log, check - WINDOW_SECONDS)
    ensures Sound(User(u.kept + [stamp], u.log + [stamp]), stamp)
  {
    RecordFaithful(u, check, stamp);
    forall t ensures InWindow(u.log + [stamp], t) <= MAX_REQUESTS {
      RecordLimited(u.log, check, stamp, t);
    }
  }

  lemma LaterSound(u: User, now: real, later: real)
    requires Sound(u, now) && now <= later
    ensures Sound(u, later)
  {
  }

  lemma NextWhen(u: User, r: Request, kept: seq<real>)
    requires kept == After(u.kept, r.check - WINDOW_SECONDS)
    ensures Next(u, r) == if Refuses(u.kept, r.check) then User(kept, u.log)
                          else User(kept + [r.stamp], u.log + [r.stamp])
  {
  }

  lemma NextSound(u: User, now: real, r: Request, next: User)
    requires Sound(u, now) && now <= r.check <= r.stamp && next == Next(u, r)
    ensures Sound(next, r.stamp)
  {
    var kept := After(u.kept, r.check - WINDOW_SECONDS);
    NextWhen(u, r, kept);
    PrunedSound(u, now, r.check, kept);
    if Refuses(u.kept, r.check) {
      LaterSound(User(kept, u.log), r.check, r.stamp);
    } else {
      RecordedSound(User(kept, u.log), r.check, r.stamp);
    }
  }

  /** On every run under a clock that never runs backwards, no window of one minute holds more than a
      hundred admitted requests, though the limiter forgets the stamps it prunes. */
  lemma {:induction false} RunsAreLimited(requests: seq<Request>, now: real)
    requires Clocked(requests) && (requests != [] ==> requests[|requests| - 1].stamp <= now)
    ensures Sound(Run(requests), now)
  {
    if requests != [] {
      var init, last := requests[..|requests| - 1], requests[|requests| - 1];
      RunsAreLimited(init, last.check);
      NextSound(Run(init), last.check, last, Run(requests));
    }
  }

  /** And it refuses no request without need: exactly those with a hundred admitted in the minute before. */
  lemma RefusesIff(requests: seq<Request>, check: real)
    requires Clocked(requests) && (requests != [] ==> requests[|requests| - 1].stamp <= check)
    ensures Refuses(Run(requests).kept, check) <==> InWindow(Run(requests).log, check) >= MAX_REQUESTS
  {
    RunsAreLimited(requests, check);
    var u := Run(requests);
    PruneFaithful(u, check, check);
    AllInWindow(u.log, check);
  }

  lemma {:induction false} AllInWindow(stamps: seq<real>, t: real)
    requires forall x :: x in stamps ==> x <= t
    ensures InWindow(stamps, t) == |After(stamps, t - WINDOW_SECONDS)|
  {
    if stamps != [] {
      var init, last := stamps[..|stamps| - 1], stamps[|stamps| - 1];
      assert last in stamps;
      forall x | x in init ensures x <= t {
        assert x in stamps;
      }
      AllInWindow(init, t);
    }
  }

  // ---------------------------------------------------------------- when to retry

  /** `int(x)`: towards zero. */
  function Truncate(x: real): int {
    if x >= 0.0 then x.Floor else -((-x).Floor)
  }

  function RetryAfter(kept: seq<real>, now: real): int {
    if kept == [] then 0
    else
      var seconds := Truncate(WINDOW_SECONDS - (now - Min(kept)));
      if seconds > 1 then seconds else 1
  }

  /** After a refusal, with nothing admitted in between, a check passes exactly when the oldest of the
      hundred stamps has left the window. */
  lemma PassesIff(kept: seq<real>, t: real)
    requires |kept| == MAX_REQUESTS
    ensures !Refuses(kept, t) <==> t >= Min(kept) + WINDOW_SECONDS
  {
    PrunesIff(kept, t - WINDOW_SECONDS);
  }

  /** The advised delay is between one second and sixty; one second more than it is always enough; the delay
      itself is enough only if less than a second, or a whole number of seconds, was left. */
  lemma RetryAfterEnough(kept: seq<real>, now: real, t: real)
    requires |kept| == MAX_REQUESTS && forall x :: x in kept ==> x <= now
    ensures 1 <= RetryAfter(kept, now) <= 60
    ensures t >= now + RetryAfter(kept, now) as real + 1.0 ==> !Refuses(kept, t)
    ensures var left := WINDOW_SECONDS - (now - Min(kept));
            !Refuses(kept, now + RetryAfter(kept, now) as real) <==> left <= 1.0 || left.Floor as real == left
  {
    PassesIff(kept, t);
    PassesIff(kept, now + RetryAfter(kept, now) as real);
  }

  /** The advised delay is what is left of the minute after the oldest stamp, in whole seconds rounded down, and
      one when less than a second is left. */
  lemma RetryAfterExact(kept: seq<real>, now: real, oldest: real)
    requires oldest in kept && forall x :: x in kept ==> oldest <= x
    ensures var left := oldest + 60.0 - now;
            var delay := RetryAfter(kept, now);
            if left < 1.0 then delay == 1 else delay as real <= left < delay as real + 1.0
  {
    assert Min(kept) == oldest;
  }

  // ---------------------------------------------------------------- the limiter

  function Kept(requests: map<string, seq<real>>, user: string): seq<real> {
    if user in requests then requests[user] else []
  }

  datatype Verdict = Admitted | TooMany(retryAfter: int)

  class Limiter {
    var requests: map<string, seq<real>>
    ghost var log: map<string, seq<real>>

    ghost function View(user: string): User
      reads this
    {
      User(Kept(requests, user), Kept(log, user))
    }

    constructor ()
      ensures forall user :: View(user) == Run([])
    {
      requests, log := map[], map[];
    }

    method PruneExpired(user: string, now: real)
      modifies this`requests
      ensures Kept(requests, user) == After(Kept(old(requests), user), now - WINDOW_SECONDS)
      ensures requests - {user} == old(requests) - {user}
      ensures user in requests ==> requests[user] != []
    {
      var cutoff := now - WINDOW_SECONDS;
      var stamps, kept := Kept(requests, user), [];
      for i := 0 to |stamps|
        invariant kept == After(stamps[..i], cutoff) && requests == old(requests)
      {
        TakeSnoc(stamps, i);
        SnocInit(stamps[..i], stamps[i]);
        if stamps[i] > cutoff {
          kept := kept + [stamps[i]];
        }
      }
      TakeAll(stamps);
      if kept == [] {
        requests := requests - {user};
      } else {
        requests := requests[user := kept];
      }
    }

    method CheckDocumentRateLimit(user: string, now: real) returns (exceeded: bool)
      modifies this`requests
      ensures Kept(requests, user) == After(Kept(old(requests), user), now - WINDOW_SECONDS)
      ensures requests - {user} == old(requests) - {user}
      ensures exceeded <==> Refuses(Kept(old(requests), user), now)
    {
      PruneExpired(user, now);
      exceeded := |Kept(requests, user)| >= MAX_REQUESTS;
    }

    method RecordDocumentRequest(user: string, now: real)
      modifies this
      ensures View(user) == User(old(View(user)).kept + [now], old(View(user)).log + [now])
      ensures requests - {user} == old(requests) - {user} && log - {user} == old(log) - {user}
    {
      requests := requests[user := Kept(requests, user) + [now]];
      log := log[user := Kept(log, user) + [now]];
    }

    method GetRetryAfter(user: string, now: real) returns (seconds: int)
      ensures seconds == RetryAfter(Kept(requests, user), now)
      ensures Kept(requests, user) == [] ==> seconds == 0
    {
      var stamps := Kept(requests, user);
      if stamps == [] {
        return 0;
      }
      var oldest := stamps[0];
      for i := 1 to |stamps|
        invariant oldest == Min(stamps[..i])
      {
        assert stamps[..i + 1][..i] == stamps[..i];
        if stamps[i] < oldest {
          oldest := stamps[i];
        }
      }
      TakeAll(stamps);
      seconds := Truncate(WINDOW_SECONDS - (now - oldest));
      if seconds < 1 {
        seconds := 1;
      }
    }

    /** One request: checked at `r.check`; recorded, or answered with a delay, at `r.stamp`. */
    method CheckRateLimit(user: string, r: Request) returns (verdict: Verdict)
      modifies this
      ensures View(user) == Next(old(View(user)), r)
      ensures verdict == if Refuses(old(View(user)).kept, r.check) then TooMany(RetryAfter(View(user).kept, r.stamp))
                         else Admitted
      ensures requests - {user} == old(requests) - {user} && log - {user} == old(log) - {user}
      ensures verdict == Admitted ==>
                && View(user).log == old(View(user)).log + [r.stamp]
                && View(user).kept == After(old(View(user)).kept, r.check - 60.0) + [r.stamp]
      ensures verdict != Admitted ==>
                && View(user).log == old(View(user)).log
                && View(user).kept == After(old(View(user)).kept, r.check - 60.0)
      ensures verdict == Admitted <==> |After(old(View(user)).kept, r.check - 60.0)| < 100
    {
      ghost var u := View(user);
      var exceeded := CheckDocumentRateLimit(user, r.check);
      NextWhen(u, r, Kept(requests, user));
      if exceeded {
        var seconds := GetRetryAfter(user, r.stamp);
        return TooMany(seconds);
      }
      RecordDocumentRequest(user, r.stamp);
      return Admitted;
    }
  }
}
