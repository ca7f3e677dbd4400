/** The sliding-window rate limiter, over whole runs. Times are real numbers. */
module RateLimit {
  datatype Config = Config(limit: nat, window: nat) {
    /** Both settings come from `positive_int_env`. */
    predicate Valid() {
      limit > 0 && window > 0
    }
  }

  datatype Verdict = Admitted | Rejected(retryAfter: int)

  datatype Arrival = Arrival(client: string, time: real)

  /** The deque without the entries at or before the cutoff that stand at its front. */
  function Prune(hits: seq<real>, cutoff: real): (r: seq<real>)
    ensures |r| <= |hits|
  {
    if hits != [] && hits[0] <= cutoff then Prune(hits[1..], cutoff) else hits
  }

  function Cutoff(c: Config, now: real): real {
    now - c.window as real
  }

  function RetryAfter(c: Config, oldest: real, now: real): int {
    var wait := (c.window as real - (now - oldest)).Floor + 1;
    if wait < 1 then 1 else wait
  }

  /** One client's deque and the verdict after a request at `now`. */
  function Enforced(c: Config, hits: seq<real>, now: real): (r: (seq<real>, Verdict))
    requires c.Valid()
  {
    var kept := Prune(hits, Cutoff(c, now));
    if |kept| >= c.limit then (kept, Rejected(RetryAfter(c, kept[0], now))) else (kept + [now], Admitted)
  }

  /** One client's deque, and all its admissions ever. */
  datatype Log = Log(hits: seq<real>, all: seq<real>)

  function Serve(c: Config, log: Log, now: real): Log
    requires c.Valid()
  {
    var (hits, verdict) := Enforced(c, log.hits, now);
    Log(hits, if verdict.Admitted? then log.all + [now] else log.all)
  }

  function After(c: Config, times: seq<real>): Log
    requires c.Valid()
  {
    if times == [] then Log([], []) else Serve(c, After(c, times[..|times| - 1]), times[|times| - 1])
  }

  ghost predicate Sorted(s: seq<real>) {
    forall i, j :: 0 <= i < j < |s| ==> s[i] <= s[j]
  }

  /** How many entries lie after the cutoff. */
  function Later(s: seq<real>, cutoff: real): nat {
    if s == [] then 0 else Later(s[..|s| - 1], cutoff) + if s[|s| - 1] > cutoff then 1 else 0
  }

  /** How many admissions lie in the window (t - window, t]. */
  function Within(c: Config, s: seq<real>, t: real): nat {
    if s == [] then 0 else Within(c, s[..|s| - 1], t) + if Cutoff(c, t) < s[|s| - 1] <= t then 1 else 0
  }

  // ----- The deque stands for the whole history -----

  lemma {:induction false} PruneDrops(hits: seq<real>, cutoff: real) returns (n: nat)
    requires Sorted(hits)
    ensures n <= |hits| && Prune(hits, cutoff) == hits[n..]
    ensures forall i :: 0 <= i < n ==> hits[i] <= cutoff
    ensures forall i :: n <= i < |hits| ==> hits[i] > cutoff
  {
    if hits != [] && hits[0] <= cutoff {
      var m := PruneDrops(hits[1..], cutoff);
      n := m + 1;
      assert hits[1..][m..] == hits[n..];
      forall i | n <= i < |hits|
        ensures hits[i] > cutoff
      {
        assert hits[i] == hits[1..][i - 1];
      }
    } else {
      n := 0;
    }
  }

  /** The deque is what the history has after some prefix, all of it at or before the cutoff. */
  ghost predicate Keeps(log: Log, cutoff: real) {
    && Sorted(log.all) && |log.hits| <= |log.all| && log.all[|log.all| - |log.hits|..] == log.hits
    && forall i :: 0 <= i < |log.all| - |log.hits| ==> log.all[i] <= cutoff
  }

  /** The dropped entries are out of every window from `last`, the time of the latest request, on. */
  ghost predicate Represents(c: Config, log: Log, last: real) {
    Keeps(log, Cutoff(c, last)) && (forall i :: 0 <= i < |log.all| ==> log.all[i] <= last) && |log.hits| <= c.limit
  }

  lemma {:induction false} LaterSplits(s: seq<real>, cutoff: real, n: nat)
    requires n <= |s|
    requires forall i :: 0 <= i < n ==> s[i] <= cutoff
    requires forall i :: n <= i < |s| ==> s[i] > cutoff
    ensures Later(s, cutoff) == |s| - n
  {
    if s != [] {
      LaterSplits(s[..|s| - 1], cutoff, if n < |s| then n else n - 1);
    }
  }

  lemma {:induction false} PruneSkips(s: seq<real>, k: nat, cutoff: real)
    requires k <= |s| && forall i :: 0 <= i < k ==> s[i] <= cutoff
    ensures Prune(s, cutoff) == Prune(s[k..], cutoff)
  {
    if k == 0 {
      assert s[k..] == s;
    } else {
      PruneSkips(s[1..], k - 1, cutoff);
      assert s[1..][k - 1..] == s[k..];
    }
  }

  lemma SamePrune(log: Log, cutoff: real)
    requires Keeps(log, cutoff)
    ensures Prune(log.hits, cutoff) == Prune(log.all, cutoff)
  {
    PruneSkips(log.all, |log.all| - |log.hits|, cutoff);
  }

  /** The pruned deque holds exactly the admissions that the full history has after the cutoff. */
  lemma PrunedIsWindow(log: Log, cutoff: real) returns (n: nat)
    requires Keeps(log, cutoff)
    ensures n <= |log.all| && Prune(log.hits, cutoff) == log.all[n..]
    ensures forall i :: 0 <= i < n ==> log.all[i] <= cutoff
    ensures forall i :: n <= i < |log.all| ==> log.all[i] > cutoff
    ensures |Prune(log.hits, cutoff)| == Later(log.all, cutoff)
  {
    SamePrune(log, cutoff);
    n := PruneDrops(log.all, cutoff);
    LaterSplits(log.all, cutoff, n);
  }

  lemma PruneKeeps(log: Log, cutoff: real)
    requires Keeps(log, cutoff)
    ensures Keeps(Log(Prune(log.hits, cutoff), log.all), cutoff)
  {
    var n := PrunedIsWindow(log, cutoff);
  }

  lemma AppendKeeps(log: Log, cutoff: real, now: real)
    requires Keeps(log, cutoff) && forall i :: 0 <= i < |log.all| ==> log.all[i] <= now
    ensures Keeps(Log(log.hits + [now], log.all + [now]), cutoff)
  {
    var k := |log.all| - |log.hits|;
    assert (log.all + [now])[k..] == log.all[k..] + [now];
  }

  lemma ServeRepresents(c: Config, log: Log, last: real, now: real)
    requires c.Valid() && Represents(c, log, last) && last <= now
    ensures Represents(c, log, now) && Represents(c, Serve(c, log, now), now)
  {
    var cutoff := Cutoff(c, now);
    assert Keeps(log, cutoff);
    PruneKeeps(log, cutoff);
    AppendKeeps(Log(Prune(log.hits, cutoff), log.all), cutoff, now);
  }

  lemma {:induction false} AfterRepresents(c: Config, times: seq<real>)
    requires c.Valid() && Sorted(times) && times != []
    ensures Represents(c, After(c, times), times[|times| - 1])
  {
    var n := |times| - 1;
    if n == 0 {
      assert times[..0] == [];
      assert After(c, times[..0]) == Log([], []);
      assert Represents(c, Log([], []), times[0]);
      ServeRepresents(c, Log([], []), times[0], times[0]);
    } else {
      AfterRepresents(c, times[..n]);
      ServeRepresents(c, After(c, times[..n]), times[n - 1], times[n]);
    }
  }

  lemma StateRepresents(c: Config, times: seq<real>, now: real)
    requires c.Valid() && Sorted(times + [now])
    ensures Represents(c, After(c, times), now) && Sorted(times)
  {
    var s := times + [now];
    forall i, j | 0 <= i < j < |times|
      ensures times[i] <= times[j]
    {
      assert s[i] <= s[j];
    }
    if times != [] {
      AfterRepresents(c, times);
      assert s[|times| - 1] <= s[|times|];
      ServeRepresents(c, After(c, times), times[|times| - 1], now);
    }
  }

  /** The deque admits exactly when fewer than `limit` admissions of the full history are in the window. */
  lemma DecidesAsFullHistory(c: Config, times: seq<real>, now: real)
    requires c.Valid() && Sorted(times + [now])
    ensures var log := After(c, times);
            Enforced(c, log.hits, now).1.Admitted? <==> Later(log.all, Cutoff(c, now)) < c.limit
  {
    StateRepresents(c, times, now);
    var n := PrunedIsWindow(After(c, times), Cutoff(c, now));
  }

  // ----- No window holds more than the limit -----

  lemma {:induction false} WithinIsLater(c: Config, s: seq<real>, t: real, now: real)
    requires now <= t
    ensures Within(c, s, t) <= Later(s, Cutoff(c, now))
  {
    if s != [] {
      WithinIsLater(c, s[..|s| - 1], t, now);
    }
  }

  lemma WithinSnoc(c: Config, s: seq<real>, x: real, t: real)
    ensures Within(c, s + [x], t) == Within(c, s, t) + if Cutoff(c, t) < x <= t then 1 else 0
  {
    assert (s + [x])[..|s|] == s;
  }

  /** At every instant of every run, at most `limit` of a client's admissions lie in the window that ends there. */
  lemma {:induction false} NoWindowOverflows(c: Config, times: seq<real>, t: real)
    requires c.Valid() && Sorted(times)
    ensures Within(c, After(c, times).all, t) <= c.limit
  {
    if times != [] {
      var n := |times| - 1;
      var log, now := After(c, times[..n]), times[n];
      NoWindowOverflows(c, times[..n], t);
      assert times[..n] + [now] == times;
      if Enforced(c, log.hits, now).1.Admitted? {
        DecidesAsFullHistory(c, times[..n], now);
        WithinSnoc(c, log.all, now, t);
        if now <= t {
          WithinIsLater(c, log.all, t, now);
        }
      }
    }
  }

  // ----- Retry-After -----

  /** A rejected request leaves the deque, full with `limit` entries, as it was. */
  lemma RejectionChangesNothing(c: Config, times: seq<real>, now: real)
    requires c.Valid() && Sorted(times + [now])
    requires Enforced(c, After(c, times).hits, now).1.Rejected?
    ensures Serve(c, After(c, times), now) == After(c, times) && |After(c, times).hits| == c.limit
  {
    var log := After(c, times);
    StateRepresents(c, times, now);
    PruneWhole(log.hits, Cutoff(c, now));
  }

  lemma {:induction false} PruneWhole(hits: seq<real>, cutoff: real)
    ensures Prune(hits, cutoff) == hits || |Prune(hits, cutoff)| < |hits|
  {
  }

  /**
   * A client rejected at `now` that asks again at `later`, with no admission of its own in between, is admitted exactly
   * when the oldest entry has left the window.
   */
  lemma AdmittedIffOldestLeft(c: Config, times: seq<real>, now: real, later: real)
    requires c.Valid() && Sorted(times + [now]) && now <= later
    requires Enforced(c, After(c, times).hits, now).1.Rejected?
    ensures var kept := Enforced(c, After(c, times).hits, now).0;
            kept != [] && (Enforced(c, kept, later).1.Admitted? <==> later >= kept[0] + c.window as real)
  {
    var log := After(c, times);
    StateRepresents(c, times, now);
    var n := PrunedIsWindow(log, Cutoff(c, now));
    var kept := Enforced(c, log.hits, now).0;
    forall i, j | 0 <= i < j < |kept|
      ensures kept[i] <= kept[j]
    {
      assert kept[i] == log.all[n + i] && kept[j] == log.all[n + j];
    }
    assert |kept| == c.limit;
    var m := PruneDrops(kept, Cutoff(c, later));
    assert m > 0 <==> kept[0] <= Cutoff(c, later);
  }

  /** The announced wait ends at the first whole second after the oldest entry has left the window. */
  lemma RetryRounds(c: Config, oldest: real, now: real)
    requires now < oldest + c.window as real
    ensures var wait, leaves := RetryAfter(c, oldest, now), oldest + c.window as real;
            wait >= 1 && now + (wait - 1) as real <= leaves < now + wait as real
  {
    var rest := c.window as real - (now - oldest);
    assert rest.Floor as real <= rest < (rest.Floor + 1) as real;
  }

  /** Waiting as long as the rejection says is enough, and waiting one second less is not unless the oldest entry leaves just then. */
  lemma RetryAfterSuffices(c: Config, times: seq<real>, now: real, later: real)
    requires c.Valid() && Sorted(times + [now]) && now <= later
    requires Enforced(c, After(c, times).hits, now).1.Rejected?
    ensures var (kept, verdict) := Enforced(c, After(c, times).hits, now);
            && verdict.retryAfter >= 1 && kept != []
            && (later >= now + verdict.retryAfter as real ==> Enforced(c, kept, later).1.Admitted?)
            && (later <= now + (verdict.retryAfter - 1) as real && later != kept[0] + c.window as real
                ==> Enforced(c, kept, later).1.Rejected?)
  {
    var log := After(c, times);
    StateRepresents(c, times, now);
    var n := PrunedIsWindow(log, Cutoff(c, now));
    var kept := Enforced(c, log.hits, now).0;
    assert kept[0] == log.all[n];
    RetryRounds(c, kept[0], now);
    AdmittedIffOldestLeft(c, times, now, later);
  }

  // ----- All clients -----

  function HitsOf(all: map<string, seq<real>>, client: string): seq<real> {
    if client in all then all[client] else []
  }

  /** The deques of all clients after some requests. */
  function Deques(c: Config, arrivals: seq<Arrival>): map<string, seq<real>>
    requires c.Valid()
  {
    if arrivals == [] then map[] else
      var before, a := Deques(c, arrivals[..|arrivals| - 1]), arrivals[|arrivals| - 1];
      before[a.client := Enforced(c, HitsOf(before, a.client), a.time).0]
  }

  /** When one client asked. */
  function TimesOf(arrivals: seq<Arrival>, client: string): seq<real> {
    if arrivals == [] then [] else
      var a := arrivals[|arrivals| - 1];
      TimesOf(arrivals[..|arrivals| - 1], client) + if a.client == client then [a.time] else []
  }

  /** No client's deque depends on the others. */
  lemma {:induction false} ClientsAreIndependent(c: Config, arrivals: seq<Arrival>, client: string)
    requires c.Valid()
    ensures HitsOf(Deques(c, arrivals), client) == After(c, TimesOf(arrivals, client)).hits
  {
    if arrivals != [] {
      var n := |arrivals| - 1;
      ClientsAreIndependent(c, arrivals[..n], client);
      var before := TimesOf(arrivals[..n], client);
      if arrivals[n].client == client {
        assert (before + [arrivals[n].time])[..|before|] == before;
      } else {
        assert before + [] == before;
      }
    }
  }

  ghost predicate InOrder(arrivals: seq<Arrival>) {
    forall i, j :: 0 <= i < j < |arrivals| ==> arrivals[i].time <= arrivals[j].time
  }

  lemma {:induction false} TimesInOrder(arrivals: seq<Arrival>, client: string)
    requires InOrder(arrivals)
    ensures Sorted(TimesOf(arrivals, client))
    ensures arrivals != [] ==> forall i :: 0 <= i < |TimesOf(arrivals, client)| ==> TimesOf(arrivals, client)[i] <= arrivals[|arrivals| - 1].time
  {
    if arrivals != [] {
      var n := |arrivals| - 1;
      TimesInOrder(arrivals[..n], client);
      assert n > 0 ==> arrivals[n - 1].time <= arrivals[n].time;
    }
  }

  /**
   * On a clock that never goes back, the limiter admits a request of any client exactly when that client has had fewer
   * than `limit` admissions in the window that ends now, and then no window of any client ever holds more than `limit`.
   */
  lemma LimiterIsExact(c: Config, arrivals: seq<Arrival>, a: Arrival, t: real)
    requires c.Valid() && InOrder(arrivals + [a])
    ensures var all := After(c, TimesOf(arrivals, a.client)).all;
            && (Enforced(c, HitsOf(Deques(c, arrivals), a.client), a.time).1.Admitted? <==> Later(all, Cutoff(c, a.time)) < c.limit)
            && Within(c, all, t) <= c.limit
  {
    ClientsAreIndependent(c, arrivals, a.client);
    TimesInOrder(arrivals + [a], a.client);
    assert (arrivals + [a])[..|arrivals|] == arrivals;
    assert TimesOf(arrivals + [a], a.client) == TimesOf(arrivals, a.client) + [a.time];
    DecidesAsFullHistory(c, TimesOf(arrivals, a.client), a.time);
    StateRepresents(c, TimesOf(arrivals, a.client), a.time);
    NoWindowOverflows(c, TimesOf(arrivals, a.client), t);
  }

  class RateLimiter {
    const config: Config
    var hits: map<string, seq<real>>
    ghost var arrivals: seq<Arrival>

    ghost predicate Valid()
      reads this
    {
      config.Valid() && hits == Deques(config, arrivals)
    }

    constructor (config: Config)
      requires config.Valid()
      ensures Valid() && this.config == config && arrivals == []
    {
      this.config := config;
      hits := map[];
      arrivals := [];
    }

    /** `enforce_rate_limit`; `Rejected` stands for the 429 response. */
    method Enforce(client: string, now: real) returns (verdict: Verdict)
      requires Valid()
      modifies this
      ensures Valid() && arrivals == old(arrivals) + [Arrival(client, now)]
      ensures (HitsOf(hits, client), verdict) == Enforced(config, old(HitsOf(hits, client)), now)
      ensures forall other :: other != client ==> HitsOf(hits, other) == old(HitsOf(hits, other))
    {
      var queue := HitsOf(hits, client);
      var cutoff := Cutoff(config, now);
      while queue != [] && queue[0] <= cutoff
        invariant Prune(queue, cutoff) == Prune(HitsOf(hits, client), cutoff)
        decreases |queue|
      {
        queue := queue[1..];
      }
      if |queue| >= config.limit {
        verdict := Rejected(RetryAfter(config, queue[0], now));
      } else {
        verdict := Admitted;
        queue := queue + [now];
      }
      arrivals := arrivals + [Arrival(client, now)];
      assert arrivals[..|arrivals| - 1] == old(arrivals);
      hits := hits[client := queue];
    }
  }
}
