/**
 The sliding-window limiter: each client's list of allowed times is filtered in place on every
 request. The reference keeps the whole history and never forgets.
 */
module RateLimiter {
  import opened Text

  datatype Limiter = Limiter(limit: int, window: nat, clients: map<string, seq<int>>)
  datatype Request = Request(ip: string, now: int)
  datatype Entry = Entry(client: string, now: int, ok: bool)

  function Client(ip: string): string { if Trim(ip) == "" then "unknown" else ip }

  function Since(times: seq<int>, cutoff: int): (r: seq<int>)
    ensures |r| <= |times|
  {
    if times == [] then []
    else Since(times[..|times| - 1], cutoff) + (if times[|times| - 1] >= cutoff then [times[|times| - 1]] else [])
  }

  function TimesOf(l: Limiter, client: string): seq<int> {
    if client in l.clients then l.clients[client] else []
  }

  /** One call of `allow`: the new state and the answer. */
  function Step(l: Limiter, r: Request): (Limiter, bool) {
    if l.limit <= 0 then (l, true) else
    var c := Client(r.ip);
    var keep := Since(TimesOf(l, c), r.now - l.window);
    if |keep| >= l.limit then (l.(clients := l.clients[c := keep]), false)
    else (l.(clients := l.clients[c := keep + [r.now]]), true)
  }

  // ---- the code ----

  /** Kept entries are written over the front of the list they are read from. */
  method FilterInPlace(times: array<int>, cutoff: int) returns (n: nat)
    modifies times
    ensures n <= times.Length && times[..n] == Since(old(times[..]), cutoff)
  {
    ghost var was := times[..];
    n := 0;
    for i := 0 to times.Length
      invariant n <= i && times[..n] == Since(was[..i], cutoff) && times[i..] == was[i..]
    {
      assert was[..i + 1][..i] == was[..i] && times[i] == was[i];
      if times[i] >= cutoff {
        ghost var kept := times[..n];
        times[n] := times[i];
        n := n + 1;
        assert times[..n] == kept + [was[i]];
      }
    }
    assert was[..times.Length] == was;
  }

  class IpRateLimiter {
    const limit: int
    const window: nat
    var clients: map<string, seq<int>>

    function State(): Limiter
      reads this
    {
      Limiter(limit, window, clients)
    }

    constructor (limit: int, window: nat)
      ensures State() == Limiter(limit, window, map[])
    {
      this.limit := limit;
      this.window := window;
      clients := map[];
    }

    method Allow(ip: string, now: int) returns (ok: bool)
      modifies this
      ensures (State(), ok) == Step(old(State()), Request(ip, now))
    {
      if limit <= 0 { return true; }
      var client := ip;
      if Trim(ip) == "" { client := "unknown"; }
      var cutoff := now - window;
      var prev := if client in clients then clients[client] else [];
      var buffer := new int[|prev|](i requires 0 <= i < |prev| => prev[i]);
      assert buffer[..] == prev;
      var n := FilterInPlace(buffer, cutoff);
      var keep := buffer[..n];
      if |keep| >= limit {
        clients := clients[client := keep];
        return false;
      }
      keep := keep + [now];
      clients := clients[client := keep];
      return true;
    }
  }

  // ---- the full history ----

  /** The times of all requests of a client that were ever allowed. */
  function Allowed(log: seq<Entry>, client: string): seq<int> {
    if log == [] then [] else
    var e := log[|log| - 1];
    Allowed(log[..|log| - 1], client) + (if e.ok && e.client == client then [e.now] else [])
  }

  /** Fewer than the limit allowed in the window that ends now. */
  predicate Admits(limit: int, window: nat, log: seq<Entry>, r: Request) {
    limit <= 0 || |Since(Allowed(log, Client(r.ip)), r.now - window)| < limit
  }

  function History(limit: int, window: nat, rs: seq<Request>): (log: seq<Entry>)
    ensures |log| == |rs|
  {
    if rs == [] then [] else
    var log, r := History(limit, window, rs[..|rs| - 1]), rs[|rs| - 1];
    log + [Entry(Client(r.ip), r.now, Admits(limit, window, log, r))]
  }

  /** The state after a run, and the answers. */
  function Run(limit: int, window: nat, rs: seq<Request>): (s: (Limiter, seq<bool>))
    ensures |s.1| == |rs| && s.0.limit == limit && s.0.window == window
  {
    if rs == [] then (Limiter(limit, window, map[]), []) else
    var s := Run(limit, window, rs[..|rs| - 1]);
    var (l, ok) := Step(s.0, rs[|rs| - 1]);
    (l, s.1 + [ok])
  }

  predicate ClockForward(rs: seq<Request>) {
    forall i, j | 0 <= i < j < |rs| :: rs[i].now <= rs[j].now
  }

  lemma {:induction false} SinceOfSince(times: seq<int>, lo: int, hi: int)
    requires lo <= hi
    ensures Since(Since(times, lo), hi) == Since(times, hi)
  {
    if times != [] {
      var n := |times| - 1;
      SinceOfSince(times[..n], lo, hi);
      if times[n] >= lo { SinceSnoc(Since(times[..n], lo), times[n], hi); }
      else { assert Since(times, lo) == Since(times[..n], lo) && Since(times, hi) == Since(times[..n], hi); }
    }
  }

  lemma {:induction false} SinceSnoc(times: seq<int>, t: int, cutoff: int)
    ensures Since(times + [t], cutoff) == Since(times, cutoff) + if t >= cutoff then [t] else []
  {
  }

  lemma {:induction false} AllowedSnoc(log: seq<Entry>, e: Entry, client: string)
    ensures Allowed(log + [e], client) == Allowed(log, client) + if e.ok && e.client == client then [e.now] else []
  {
  }

  /** The kept list and the whole history agree on every window that can still be asked about. */
  ghost predicate Agrees(l: Limiter, log: seq<Entry>, now: int) {
    forall c: string, cutoff: int | cutoff >= now - l.window ::
      Since(TimesOf(l, c), cutoff) == Since(Allowed(log, c), cutoff)
  }

  lemma {:induction false} StepAgrees(l: Limiter, log: seq<Entry>, now: int, r: Request)
    requires l.limit > 0 && Agrees(l, log, now) && now <= r.now
    ensures var ok := Admits(l.limit, l.window, log, r);
      Step(l, r).1 == ok && Agrees(Step(l, r).0, log + [Entry(Client(r.ip), r.now, ok)], r.now)
  {
    var ok := Admits(l.limit, l.window, log, r);
    var e := Entry(Client(r.ip), r.now, ok);
    var l' := Step(l, r).0;
    var keep := Since(TimesOf(l, e.client), r.now - l.window);
    forall c: string, cutoff: int | cutoff >= r.now - l.window
      ensures Since(TimesOf(l', c), cutoff) == Since(Allowed(log + [e], c), cutoff)
    {
      AllowedSnoc(log, e, c);
      assert Since(TimesOf(l, c), cutoff) == Since(Allowed(log, c), cutoff);
      if c == e.client && ok {
        SinceOfSince(TimesOf(l, c), r.now - l.window, cutoff);
        SinceSnoc(keep, r.now, cutoff);
        SinceSnoc(Allowed(log, c), r.now, cutoff);
        assert TimesOf(l', c) == keep + [r.now];
      } else {
        assert Allowed(log + [e], c) == Allowed(log, c);
        if c == e.client { SinceOfSince(TimesOf(l, c), r.now - l.window, cutoff); }
      }
    }
  }

  lemma {:induction false} RunAgrees(limit: int, window: nat, rs: seq<Request>, now: int)
    requires limit > 0 && ClockForward(rs) && (rs != [] ==> rs[|rs| - 1].now <= now)
    ensures Agrees(Run(limit, window, rs).0, History(limit, window, rs), now)
    ensures forall i | 0 <= i < |rs| :: Run(limit, window, rs).1[i] == History(limit, window, rs)[i].ok
    decreases |rs|
  {
    if rs != [] {
      var n := |rs| - 1;
      RunAgrees(limit, window, rs[..n], rs[n].now);
      StepAgrees(Run(limit, window, rs[..n]).0, History(limit, window, rs[..n]), rs[n].now, rs[n]);
    }
  }

  lemma {:induction false} NoLimit(limit: int, window: nat, rs: seq<Request>)
    requires limit <= 0
    ensures forall i | 0 <= i < |rs| :: Run(limit, window, rs).1[i] && History(limit, window, rs)[i].ok
  {
    if rs != [] {
      var n := |rs| - 1;
      NoLimit(limit, window, rs[..n]);
      var s := Run(limit, window, rs[..n]);
      assert Step(s.0, rs[n]) == (s.0, true);
      assert Run(limit, window, rs).1 == s.1 + [true];
    }
  }

  /** In every run with a non-decreasing clock the limiter answers as the full history would. */
  lemma {:induction false} LimiterRefinesHistory(limit: int, window: nat, rs: seq<Request>)
    requires ClockForward(rs)
    ensures forall i | 0 <= i < |rs| :: Run(limit, window, rs).1[i] == History(limit, window, rs)[i].ok
  {
    if limit <= 0 { NoLimit(limit, window, rs); }
    else { RunAgrees(limit, window, rs, if rs == [] then 0 else rs[|rs| - 1].now); }
  }

  // ---- no window holds more than the limit ----

  function Count(times: seq<int>, lo: int, hi: int): (n: nat) {
    if times == [] then 0
    else Count(times[..|times| - 1], lo, hi) + if lo <= times[|times| - 1] <= hi then 1 else 0
  }

  lemma {:induction false} CountAtMostSince(times: seq<int>, lo: int, hi: int, cutoff: int)
    requires cutoff <= lo
    ensures Count(times, lo, hi) <= |Since(times, cutoff)|
  {
    if times != [] { CountAtMostSince(times[..|times| - 1], lo, hi, cutoff); }
  }

  lemma {:induction false} CountSnoc(times: seq<int>, t: int, lo: int, hi: int)
    ensures Count(times + [t], lo, hi) == Count(times, lo, hi) + if lo <= t <= hi then 1 else 0
  {
  }

  /** In the reference history no closed window holds more than the limit. */
  lemma {:induction false} HistoryWithinLimit(limit: int, window: nat, rs: seq<Request>, client: string, start: int)
    requires limit > 0
    ensures Count(Allowed(History(limit, window, rs), client), start, start + window) <= limit
  {
    if rs != [] {
      var n := |rs| - 1;
      HistoryWithinLimit(limit, window, rs[..n], client, start);
      WindowAfter(limit, window, History(limit, window, rs[..n]), rs[n], client, start);
    }
  }

  lemma {:induction false} WindowAfter(limit: int, window: nat, log: seq<Entry>, r: Request, client: string, start: int)
    requires limit > 0 && Count(Allowed(log, client), start, start + window) <= limit
    ensures Count(Allowed(log + [Entry(Client(r.ip), r.now, Admits(limit, window, log, r))], client), start, start + window) <= limit
  {
    var e := Entry(Client(r.ip), r.now, Admits(limit, window, log, r));
    var before := Allowed(log, client);
    AllowedSnoc(log, e, client);
    if e.ok && e.client == client {
      CountSnoc(before, r.now, start, start + window);
      if start <= r.now <= start + window { CountAtMostSince(before, start, start + window, r.now - window); }
    } else {
      assert Allowed(log + [e], client) == before;
    }
  }

  /** The requests of a run with the limiter's own answers. */
  function Answered(rs: seq<Request>, answers: seq<bool>): (log: seq<Entry>)
    requires |rs| == |answers|
    ensures |log| == |rs|
  {
    seq(|rs|, i requires 0 <= i < |rs| => Entry(Client(rs[i].ip), rs[i].now, answers[i]))
  }

  lemma {:induction false} HistoryEntries(limit: int, window: nat, rs: seq<Request>, i: nat)
    requires i < |rs|
    ensures History(limit, window, rs)[i].client == Client(rs[i].ip) && History(limit, window, rs)[i].now == rs[i].now
  {
    if i < |rs| - 1 { HistoryEntries(limit, window, rs[..|rs| - 1], i); }
  }

  /** With a non-decreasing clock the limiter never allows a client more than the limit in any
      closed window of the configured length. */
  lemma {:induction false} NoWindowOverLimit(limit: int, window: nat, rs: seq<Request>, client: string, start: int)
    requires limit > 0 && ClockForward(rs)
    ensures Count(Allowed(Answered(rs, Run(limit, window, rs).1), client), start, start + window) <= limit
  {
    LimiterRefinesHistory(limit, window, rs);
    var log := History(limit, window, rs);
    forall i | 0 <= i < |rs| ensures log[i] == Answered(rs, Run(limit, window, rs).1)[i] {
      HistoryEntries(limit, window, rs, i);
    }
    assert log == Answered(rs, Run(limit, window, rs).1);
    HistoryWithinLimit(limit, window, rs, client, start);
  }

  // ---- who shares a limit ----

  /** Requests are counted together exactly when they come from the same address, or both from
      none, which also counts as the client called unknown. */
  lemma {:induction false} ClientsShared(a: string, b: string)
    ensures Client(a) == Client(b) <==>
      a == b || ((Trim(a) == "" || a == "unknown") && (Trim(b) == "" || b == "unknown"))
  {
    assert Trim("unknown") == "unknown";
  }

  /** After a request the client's list holds nothing older than the window. */
  lemma {:induction false} OldTimesAreForgotten(l: Limiter, r: Request)
    requires l.limit > 0
    ensures forall t | t in TimesOf(Step(l, r).0, Client(r.ip)) :: t >= r.now - l.window || t == r.now
  {
    SinceIsRecent(TimesOf(l, Client(r.ip)), r.now - l.window);
  }

  lemma {:induction false} SinceIsRecent(times: seq<int>, cutoff: int)
    ensures forall t | t in Since(times, cutoff) :: t >= cutoff
  {
    if times != [] { SinceIsRecent(times[..|times| - 1], cutoff); }
  }
}
