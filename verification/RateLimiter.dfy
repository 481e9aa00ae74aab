/** The outbound rate tracker: two fixed windows per user, reset lazily, with escalation. */
module RateLimiter {
  import opened Prelude

  const ESCALATE_AFTER: nat := 3

  datatype Counter = Counter(count: int, start: real)
  datatype Limits = Limits(perHour: int, perDay: int)
  datatype Window = Hour | Day

  /** The policy action string: OK, or DEFER_IF_PERMIT/REJECT naming the window that was full. */
  datatype Decision = Ok | Defer(window: Window) | Reject(window: Window)

  function Length(w: Window): (r: real) { if w.Hour? then 3600.0 else 86400.0 }

  function Limit(l: Limits, w: Window): int { if w.Hour? then l.perHour else l.perDay }

  /** The number of messages one window really admits: a limit below one still admits the first. */
  function Cap(l: Limits, w: Window): int { Max(1, Limit(l, w)) }

  predicate Expired(entry: Option<Counter>, window: real, now: real) {
    entry.None? || now - entry.value.start > window
  }

  /** (over the limit?, the entry to go on with). */
  function CheckCounter(entry: Option<Counter>, limit: int, window: real, now: real): (bool, Counter) {
    if Expired(entry, window, now) then (false, Counter(0, now))
    else (entry.value.count >= limit, entry.value)
  }

  function Get<V>(m: map<string, V>, u: string): Option<V> {
    if u in m then Some(m[u]) else None
  }

  // ---- The whole tracker ----

  datatype Tables = Tables(
    hourly: map<string, Counter>, daily: map<string, Counter>, denials: map<string, nat>)

  const EMPTY := Tables(map[], map[], map[])

  function Denials(s: Tables, u: string): nat { if u in s.denials then s.denials[u] else 0 }

  function Denial(denials: nat, w: Window): Decision {
    if denials >= ESCALATE_AFTER then Reject(w) else Defer(w)
  }

  function Refuse(s: Tables, u: string, w: Window): (Tables, Decision) {
    var n := Denials(s, u) + 1;
    (s.(denials := s.denials[u := n]), Denial(n, w))
  }

  function Track(l: Limits, s: Tables, u: string, now: real): (Tables, Decision) {
    var (overHour, h) := CheckCounter(Get(s.hourly, u), l.perHour, Length(Hour), now);
    if overHour then Refuse(s, u, Hour) else
    var (overDay, d) := CheckCounter(Get(s.daily, u), l.perDay, Length(Day), now);
    if overDay then Refuse(s, u, Day) else
    (Tables(s.hourly[u := h.(count := h.count + 1)],
            s.daily[u := d.(count := d.count + 1)],
            s.denials - {u}), Ok)
  }

  function Fresh(m: map<string, Counter>, window: real, now: real): map<string, Counter> {
    map u | u in m && now - m[u].start <= window :: m[u]
  }

  function Pruned(s: Tables, now: real): Tables {
    Tables(Fresh(s.hourly, Length(Hour), now), Fresh(s.daily, Length(Day), now),
           map u | u in s.denials && s.denials[u] != 0 :: s.denials[u])
  }

  /** A counter that is still running and has used up its limit. */
  predicate FullIn(m: map<string, Counter>, u: string, now: real, window: real, limit: int) {
    u in m && now - m[u].start <= window && m[u].count >= limit
  }

  /** What a pruned table keeps: the counters whose window is still running, as they are. */
  ghost predicate Live(m: map<string, Counter>, r: map<string, Counter>, window: real, now: real) {
    && (forall u :: u in r <==> u in m && now - m[u].start <= window)
    && (forall u :: u in r ==> r[u] == m[u])
  }

  /** The daemon's object. Limits come from the environment once, at start-up. */
  class RateTracker {
    const limits: Limits
    var hourly: map<string, Counter>
    var daily: map<string, Counter>
    var consecutive: map<string, nat>
    var lastPrune: real

    function State(): Tables
      reads this
    {
      Tables(hourly, daily, consecutive)
    }

    constructor (limits: Limits)
      ensures State() == EMPTY && lastPrune == 0.0 && this.limits == limits
    {
      this.limits := limits;
      hourly, daily, consecutive, lastPrune := map[], map[], map[], 0.0;
    }

    method CheckAndTrack(username: string, now: real) returns (decision: Decision)
      modifies this
      ensures (State(), decision) == Track(limits, old(State()), username, now)
      ensures lastPrune == old(lastPrune)
      // Admitted exactly when neither window is both live and full; otherwise the answer names the full one, the hour
      // first, and is REJECT from the third denial in a row on.
      ensures var hourFull := FullIn(old(hourly), username, now, 3600.0, limits.perHour);
        var dayFull := FullIn(old(daily), username, now, 86400.0, limits.perDay);
        var third := username in old(consecutive) && old(consecutive)[username] >= 2;
        && (decision == Ok <==> !hourFull && !dayFull)
        && (hourFull ==> decision == if third then Reject(Hour) else Defer(Hour))
        && (!hourFull && dayFull ==> decision == if third then Reject(Day) else Defer(Day))
      // Nobody else's entries move.
      ensures forall u | u != username ::
        Get(hourly, u) == Get(old(hourly), u) && Get(daily, u) == Get(old(daily), u)
        && Get(consecutive, u) == Get(old(consecutive), u)
    {
      var (overHour, h) := CheckCounter(Get(hourly, username), limits.perHour, Length(Hour), now);
      assert overHour <==> FullIn(hourly, username, now, 3600.0, limits.perHour);
      if overHour {
        decision := Deny(username, Hour);
        return;
      }
      var (overDay, d) := CheckCounter(Get(daily, username), limits.perDay, Length(Day), now);
      assert overDay <==> FullIn(daily, username, now, 86400.0, limits.perDay);
      if overDay {
        decision := Deny(username, Day);
        return;
      }
      hourly := hourly[username := h.(count := h.count + 1)];
      daily := daily[username := d.(count := d.count + 1)];
      consecutive := consecutive - {username};
      decision := Ok;
    }

    method Deny(username: string, w: Window) returns (decision: Decision)
      modifies `consecutive
      ensures (State(), decision) == Refuse(old(State()), username, w)
    {
      var count := (if username in consecutive then consecutive[username] else 0) + 1;
      consecutive := consecutive[username := count];
      decision := if count >= ESCALATE_AFTER then Reject(w) else Defer(w);
    }

    method Prune(now: real)
      modifies this
      ensures State() == Pruned(old(State()), now) && lastPrune == now
      ensures Live(old(hourly), hourly, 3600.0, now) && Live(old(daily), daily, 86400.0, now)
      ensures forall u :: u in consecutive <==> u in old(consecutive) && old(consecutive)[u] != 0
    {
      hourly := DropStale(hourly, Length(Hour), now);
      daily := DropStale(daily, Length(Day), now);
      var idle := set u | u in consecutive && consecutive[u] == 0;
      consecutive := consecutive - idle;
      lastPrune := now;
    }

    static method DropStale(m: map<string, Counter>, window: real, now: real)
      returns (r: map<string, Counter>)
      ensures r == Fresh(m, window, now) && Live(m, r, window, now)
    {
      var stale := set u | u in m && now - m[u].start > window;
      r := m;
      while stale != {}
        invariant stale <= r.Keys <= m.Keys
        invariant forall u :: u in r ==> r[u] == m[u]
        invariant forall u :: u in m && u !in r ==> now - m[u].start > window
        invariant forall u :: u in r && u !in stale ==> now - m[u].start <= window
        decreases stale
      {
        var u :| u in stale;
        stale, r := stale - {u}, r - {u};
      }
    }
  }

  // ---- Runs ----

  datatype Event = Request(user: string, time: real) | Prune(time: real)
  datatype Answer = Answered(user: string, time: real, decision: Decision) | Swept(time: real)

  function Step(l: Limits, s: Tables, e: Event): (Tables, Answer) {
    match e
    case Request(u, t) => var (s', d) := Track(l, s, u, t); (s', Answered(u, t, d))
    case Prune(t) => (Pruned(s, t), Swept(t))
  }

  /** One answer per event. */
  function Run(l: Limits, s: Tables, es: seq<Event>): (r: seq<Answer>)
    ensures |r| == |es|
    ensures forall i :: 0 <= i < |es| ==> r[i].time == es[i].time
    ensures forall i :: 0 <= i < |es| ==> (r[i].Answered? <==> es[i].Request?)
    ensures forall i :: 0 <= i < |es| && es[i].Request? ==> r[i].user == es[i].user
    decreases es
  {
    if es == [] then [] else
    var (s', a) := Step(l, s, es[0]);
    [a] + Run(l, s', es[1..])
  }

  /** The tables a run leaves. */
  function Left(l: Limits, s: Tables, es: seq<Event>): Tables
    decreases es
  {
    if es == [] then s else Left(l, Step(l, s, es[0]).0, es[1..])
  }

  lemma {:induction false} RunInTwo(l: Limits, s: Tables, a: seq<Event>, b: seq<Event>)
    ensures Run(l, s, a + b) == Run(l, s, a) + Run(l, Left(l, s, a), b)
    ensures Left(l, s, a + b) == Left(l, Left(l, s, a), b)
    decreases a
  {
    if a == [] {
      assert a + b == b;
    } else {
      var (s', answer) := Step(l, s, a[0]);
      assert (a + b)[1..] == a[1..] + b;
      RunInTwo(l, s', a[1..], b);
      JoinAgain([answer], Run(l, s', a[1..]), Run(l, Left(l, s, a), b));
    }
  }

  /** The clock never goes backwards. */
  predicate Ordered(es: seq<Event>, from: real) {
    es == [] || (from <= es[0].time && Ordered(es[1..], es[0].time))
  }

  function RequestTimes(u: string, es: seq<Event>): seq<real> {
    if es == [] then [] else
    (if es[0].Request? && es[0].user == u then [es[0].time] else []) + RequestTimes(u, es[1..])
  }

  function AnswersTo(u: string, answers: seq<Answer>): seq<Answer> {
    if answers == [] then [] else
    (if answers[0].Answered? && answers[0].user == u then [answers[0]] else []) + AnswersTo(u, answers[1..])
  }

  // ---- One user alone, with nothing ever pruned ----

  datatype Account = Account(hourly: Option<Counter>, daily: Option<Counter>, denials: nat)

  const NEWCOMER := Account(None, None, 0)

  function Entry(a: Account, w: Window): Option<Counter> { if w.Hour? then a.hourly else a.daily }

  function Judge(l: Limits, a: Account, now: real): (Account, Decision) {
    var (overHour, h) := CheckCounter(a.hourly, l.perHour, Length(Hour), now);
    if overHour then (a.(denials := a.denials + 1), Denial(a.denials + 1, Hour)) else
    var (overDay, d) := CheckCounter(a.daily, l.perDay, Length(Day), now);
    if overDay then (a.(denials := a.denials + 1), Denial(a.denials + 1, Day)) else
    (Account(Some(h.(count := h.count + 1)), Some(d.(count := d.count + 1)), 0), Ok)
  }

  function History(l: Limits, u: string, a: Account, times: seq<real>): (r: seq<Answer>)
    ensures |r| == |times|
    ensures forall i :: 0 <= i < |r| ==> r[i].Answered? && r[i].user == u && r[i].time == times[i]
    decreases times
  {
    if times == [] then [] else
    var (a', d) := Judge(l, a, times[0]);
    [Answered(u, times[0], d)] + History(l, u, a', times[1..])
  }

  /** A table entry stands for a user's counter: equal, or pruned because it can never count again. */
  ghost predicate Stands(entry: Option<Counter>, c: Option<Counter>, window: real, now: real) {
    entry == c || (entry.None? && Expired(c, window, now))
  }

  ghost predicate Represents(s: Tables, u: string, a: Account, now: real) {
    && Stands(Get(s.hourly, u), a.hourly, Length(Hour), now)
    && Stands(Get(s.daily, u), a.daily, Length(Day), now)
    && Denials(s, u) == a.denials
  }

  lemma PruneRepresents(s: Tables, u: string, a: Account, now: real, t: real)
    requires Represents(s, u, a, now) && now <= t
    ensures Represents(Pruned(s, t), u, a, t)
  {
  }

  lemma TrackOther(l: Limits, s: Tables, u: string, v: string, a: Account, now: real, t: real)
    requires Represents(s, u, a, now) && now <= t && v != u
    ensures Represents(Track(l, s, v, t).0, u, a, t)
  {
  }

  lemma StepRepresents(l: Limits, s: Tables, u: string, a: Account, now: real, e: Event)
    requires Represents(s, u, a, now) && now <= e.time
    ensures var (s', answer) := Step(l, s, e);
      if e.Request? && e.user == u then
        var (a', d) := Judge(l, a, e.time);
        Represents(s', u, a', e.time) && answer == Answered(u, e.time, d)
      else Represents(s', u, a, e.time)
  {
    if e.Prune? {
      PruneRepresents(s, u, a, now, e.time);
    } else if e.user != u {
      TrackOther(l, s, u, e.user, a, now, e.time);
    }
  }

  lemma RunCons(l: Limits, s: Tables, es: seq<Event>, u: string)
    requires es != []
    ensures var (s', a) := Step(l, s, es[0]);
      AnswersTo(u, Run(l, s, es))
      == (if a.Answered? && a.user == u then [a] else []) + AnswersTo(u, Run(l, s', es[1..]))
  {
    var (s', a) := Step(l, s, es[0]);
    assert Run(l, s, es)[1..] == Run(l, s', es[1..]);
  }

  lemma HistoryCons(l: Limits, u: string, a: Account, t: real, times: seq<real>)
    ensures var (a', d) := Judge(l, a, t);
      History(l, u, a, [t] + times) == [Answered(u, t, d)] + History(l, u, a', times)
  {
    assert ([t] + times)[1..] == times;
  }

  /** One event seen from both sides, with the next states named and their definitions left behind. */
  lemma StepBothSides(l: Limits, s: Tables, u: string, a: Account, now: real, es: seq<Event>)
    returns (s': Tables, a': Account, mine: seq<Answer>)
    requires es != [] && Represents(s, u, a, now) && now <= es[0].time
    ensures Represents(s', u, a', es[0].time)
    ensures AnswersTo(u, Run(l, s, es)) == mine + AnswersTo(u, Run(l, s', es[1..]))
    ensures History(l, u, a, RequestTimes(u, es)) == mine + History(l, u, a', RequestTimes(u, es[1..]))
  {
    var e, times := es[0], RequestTimes(u, es[1..]);
    StepRepresents(l, s, u, a, now, e);
    RunCons(l, s, es, u);
    s' := Step(l, s, e).0;
    if e.Request? && e.user == u {
      a', mine := Judge(l, a, e.time).0, [Answered(u, e.time, Judge(l, a, e.time).1)];
      HistoryCons(l, u, a, e.time, times);
    } else {
      a', mine := a, [];
      assert RequestTimes(u, es) == times;
    }
  }

  /** The tracker answers each user as if that user were alone and nothing were ever pruned. */
  lemma {:induction false} TrackerIsPerUser(l: Limits, s: Tables, u: string, a: Account, now: real, es: seq<Event>)
    requires Represents(s, u, a, now) && Ordered(es, now)
    ensures AnswersTo(u, Run(l, s, es)) == History(l, u, a, RequestTimes(u, es))
    decreases es
  {
    if es != [] {
      var s', a', mine := StepBothSides(l, s, u, a, now, es);
      TrackerIsPerUser(l, s', u, a', es[0].time, es[1..]);
    }
  }

  /** Neither pruning nor other users' traffic changes any answer a user gets. */
  lemma PruningAndOthersInvisible(l: Limits, u: string, es: seq<Event>, es': seq<Event>, from: real)
    requires Ordered(es, from) && Ordered(es', from)
    requires RequestTimes(u, es) == RequestTimes(u, es')
    ensures AnswersTo(u, Run(l, EMPTY, es)) == AnswersTo(u, Run(l, EMPTY, es'))
  {
    TrackerIsPerUser(l, EMPTY, u, NEWCOMER, from, es);
    TrackerIsPerUser(l, EMPTY, u, NEWCOMER, from, es');
  }

  // ---- Escalation ----

  predicate Denied(a: Answer) { a.Answered? && !a.decision.Ok? }

  lemma HistoryFirst(l: Limits, u: string, a: Account, times: seq<real>)
    requires times != []
    ensures var (a', d) := Judge(l, a, times[0]);
      History(l, u, a, times) == [Answered(u, times[0], d)] + History(l, u, a', times[1..])
  {
  }

  lemma JudgeDenials(l: Limits, a: Account, now: real)
    ensures var (a', d) := Judge(l, a, now);
      && a'.denials == (if d.Ok? then 0 else a.denials + 1)
      && (d.Reject? <==> !d.Ok? && a.denials >= 2)
  {
  }

  /** The request at `i` was denied; `earlier` denials in a row stand before the history. */
  predicate DeniedAt(h: seq<Answer>, earlier: nat, i: int)
    requires i < |h|
  {
    if i >= 0 then Denied(h[i]) else earlier >= -i
  }

  predicate ThreeDenied(h: seq<Answer>, earlier: nat, i: nat)
    requires i < |h|
  {
    DeniedAt(h, earlier, i) && DeniedAt(h, earlier, i - 1) && DeniedAt(h, earlier, i - 2)
  }

  lemma ThreeDeniedShift(first: Answer, rest: seq<Answer>, earlier: nat, i: nat)
    requires i < |rest|
    ensures ThreeDenied([first] + rest, earlier, i + 1)
       <==> ThreeDenied(rest, if Denied(first) then earlier + 1 else 0, i)
  {
  }

  lemma {:induction false} RejectFrom(l: Limits, u: string, a: Account, times: seq<real>, i: nat)
    requires i < |times|
    ensures var h := History(l, u, a, times); h[i].decision.Reject? <==> ThreeDenied(h, a.denials, i)
    decreases times
  {
    HistoryFirst(l, u, a, times);
    JudgeDenials(l, a, times[0]);
    if i > 0 {
      var (a', d) := Judge(l, a, times[0]);
      RejectFrom(l, u, a', times[1..], i - 1);
      ThreeDeniedShift(Answered(u, times[0], d), History(l, u, a', times[1..]), a.denials, i - 1);
    }
  }

  /** REJECT exactly when this and the two preceding requests of the same user were denied. */
  lemma RejectIffThirdDenialInARow(l: Limits, u: string, es: seq<Event>, from: real, i: nat)
    requires Ordered(es, from)
    requires i < |AnswersTo(u, Run(l, EMPTY, es))|
    ensures var mine := AnswersTo(u, Run(l, EMPTY, es));
      mine[i].Answered? &&
      (mine[i].decision.Reject? <==>
        i >= 2 && Denied(mine[i]) && Denied(mine[i-1]) && Denied(mine[i-2]))
  {
    TrackerIsPerUser(l, EMPTY, u, NEWCOMER, from, es);
    RejectFrom(l, u, NEWCOMER, RequestTimes(u, es), i);
  }

  // ---- Retries never extend a block ----

  /** The answers with DEFER and REJECT not told apart. */
  function Verdicts(answers: seq<Answer>): (r: seq<Answer>)
    ensures |r| == |answers|
  {
    if answers == [] then [] else [Verdict(answers[0])] + Verdicts(answers[1..])
  }

  function Verdict(a: Answer): Answer {
    if a.Answered? && a.decision.Reject? then a.(decision := Defer(a.decision.window)) else a
  }

  predicate SameCounters(s: Tables, s': Tables) { s.hourly == s'.hourly && s.daily == s'.daily }

  lemma StepIgnoresDenials(l: Limits, s: Tables, s': Tables, e: Event)
    requires SameCounters(s, s')
    ensures var (t, a) := Step(l, s, e);
      var (t', a') := Step(l, s', e);
      SameCounters(t, t') && Verdict(a) == Verdict(a') && (Denied(a) ==> SameCounters(s, t))
  {
  }

  /** Erasing any denied requests leaves every other verdict, and the window it names, as it was. */
  lemma {:induction false} ErasingDenialsIsInvisible(
    l: Limits, s: Tables, s': Tables, es: seq<Event>, marks: seq<bool>)
    requires |marks| == |es| && SameCounters(s, s')
    requires forall i :: 0 <= i < |es| && !marks[i] ==> Denied(Run(l, s, es)[i])
    ensures Verdicts(Run(l, s', Keep(es, marks))) == Keep(Verdicts(Run(l, s, es)), marks)
    decreases es
  {
    if es != [] {
      var t, t' := Step(l, s, es[0]).0, Step(l, s', es[0]).0;
      var rest := Keep(es[1..], marks[1..]);
      StepIgnoresDenials(l, s, s', es[0]);
      assert Run(l, s, es)[1..] == Run(l, t, es[1..]);
      forall i | 0 <= i < |es| - 1 && !marks[1..][i]
        ensures Denied(Run(l, t, es[1..])[i])
      {
        assert Denied(Run(l, s, es)[i + 1]);
      }
      if marks[0] {
        ErasingDenialsIsInvisible(l, t, t', es[1..], marks[1..]);
        assert ([es[0]] + rest)[1..] == rest;
        assert Run(l, s', [es[0]] + rest)[1..] == Run(l, t', rest);
      } else {
        assert Denied(Run(l, s, es)[0]);
        ErasingDenialsIsInvisible(l, t, s', es[1..], marks[1..]);
        assert [] + rest == rest;
      }
    }
  }

  // ---- The bound over an arbitrary interval ----

  function Admitted(answers: seq<Answer>, lo: real, hi: real): nat {
    if answers == [] then 0 else
    (if answers[0].Answered? && answers[0].decision.Ok? && lo <= answers[0].time <= hi then 1 else 0)
    + Admitted(answers[1..], lo, hi)
  }

  /** `lo` moved on by `k` windows. */
  function After(lo: real, w: Window, k: nat): real
    decreases k
  {
    if k == 0 then lo else After(lo, w, k - 1) + Length(w)
  }

  lemma {:induction false} AfterIsProduct(lo: real, w: Window, k: nat)
    ensures After(lo, w, k) == lo + (k as real) * Length(w)
    decreases k
  {
    if k > 0 {
      AfterIsProduct(lo, w, k - 1);
      assert (k as real) == ((k - 1) as real) + 1.0;
      assert (k as real) * Length(w) == ((k - 1) as real) * Length(w) + Length(w);
    }
  }

  lemma {:induction false} AfterMonotone(lo: real, w: Window, j: nat, k: nat)
    requires j <= k
    ensures After(lo, w, j) <= After(lo, w, k)
    decreases k
  {
    if j < k {
      AfterMonotone(lo, w, j, k - 1);
    }
  }

  predicate Sorted(times: seq<real>, from: real) {
    times == [] || (from <= times[0] && Sorted(times[1..], times[0]))
  }

  lemma {:induction false} NothingAfter(l: Limits, u: string, a: Account, times: seq<real>, lo: real, hi: real, from: real)
    requires Sorted(times, from) && hi < from
    ensures Admitted(History(l, u, a, times), lo, hi) == 0
    decreases times
  {
    if times != [] {
      NothingAfter(l, u, Judge(l, a, times[0]).0, times[1..], lo, hi, times[0]);
    }
  }

  /** `n` messages were admitted since `lo`, in windows of which `m` started at or after `lo`. */
  ghost predicate Tally(entry: Option<Counter>, cap: int, w: Window, lo: real, hi: real, n: nat, m: nat) {
    match entry
    case None => n == 0 && m == 0
    case Some(c) =>
      && 1 <= c.count <= cap
      && (m == 0 ==> c.start < lo && n < c.count)
      && (m >= 1 ==> lo <= c.start <= hi && n < m * cap + c.count)
      && (m >= 2 ==> After(lo, w, m - 1) < c.start)
  }

  lemma TallyBounds(entry: Option<Counter>, cap: int, w: Window, lo: real, k: nat, n: nat, m: nat)
    requires cap >= 1 && k >= 1 && Tally(entry, cap, w, lo, After(lo, w, k), n, m)
    ensures n <= (k + 1) * cap - 1
  {
    if m > k {
      AfterMonotone(lo, w, k, m - 1);
      assert false;
    }
    MulMonotone(m, k, cap);
    assert (k + 1) * cap == k * cap + cap;
  }

  lemma MulMonotone(m: nat, k: nat, c: int)
    requires m <= k && c >= 0
    ensures m * c <= k * c
  {
  }

  lemma TallyStep(l: Limits, a: Account, w: Window, lo: real, hi: real, n: nat, m: nat, t: real)
    returns (n': nat, m': nat)
    requires Tally(Entry(a, w), Cap(l, w), w, lo, hi, n, m)
    requires m >= 1 ==> lo <= t
    requires t <= hi && (Entry(a, w).Some? ==> Entry(a, w).value.start <= t)
    requires t < lo ==> n == 0
    ensures var (a', d) := Judge(l, a, t);
      && Tally(Entry(a', w), Cap(l, w), w, lo, hi, n', m')
      && n' == n + (if d.Ok? && lo <= t then 1 else 0)
      && (t < lo ==> m' == 0)
      && (Entry(a', w).Some? ==> Entry(a', w).value.start <= t)
  {
    var (a', d) := Judge(l, a, t);
    var cap := Cap(l, w);
    n' := n + if d.Ok? && lo <= t then 1 else 0;
    m' := if d.Ok? && lo <= t && Expired(Entry(a, w), Length(w), t) then m + 1 else m;
    if m' == m + 1 {
      assert (m + 1) * cap == m * cap + cap;
    }
  }

  lemma {:induction false} WindowBoundFrom(
    l: Limits, u: string, a: Account, times: seq<real>, from: real, w: Window, lo: real, k: nat, n: nat, m: nat)
    requires k >= 1 && Sorted(times, from)
    requires Tally(Entry(a, w), Cap(l, w), w, lo, After(lo, w, k), n, m)
    requires Entry(a, w).Some? ==> Entry(a, w).value.start <= from
    requires (m >= 1 || n > 0) ==> lo <= from
    ensures n + Admitted(History(l, u, a, times), lo, After(lo, w, k)) <= (k + 1) * Cap(l, w) - 1
    decreases times
  {
    var hi := After(lo, w, k);
    TallyBounds(Entry(a, w), Cap(l, w), w, lo, k, n, m);
    if times != [] {
      var t := times[0];
      if hi < t {
        assert Sorted(times, t);
        NothingAfter(l, u, a, times, lo, hi, t);
      } else {
        var n', m' := TallyStep(l, a, w, lo, hi, n, m, t);
        WindowBoundFrom(l, u, Judge(l, a, t).0, times[1..], t, w, lo, k, n', m');
      }
    }
  }

  lemma {:induction false} AnswersToSnoc(u: string, answers: seq<Answer>, a: Answer)
    ensures AnswersTo(u, answers + [a]) == AnswersTo(u, answers) + if a.Answered? && a.user == u then [a] else []
  {
    if answers == [] {
      assert answers + [a] == [a] && [a][1..] == [];
    } else {
      assert (answers + [a])[1..] == answers[1..] + [a];
      AnswersToSnoc(u, answers[1..], a);
    }
  }

  lemma {:induction false} AdmittedSnoc(answers: seq<Answer>, a: Answer, lo: real, hi: real)
    ensures Admitted(answers + [a], lo, hi)
         == Admitted(answers, lo, hi) + if a.Answered? && a.decision.Ok? && lo <= a.time <= hi then 1 else 0
  {
    if answers == [] {
      assert answers + [a] == [a] && [a][1..] == [];
    } else {
      assert (answers + [a])[1..] == answers[1..] + [a];
      AdmittedSnoc(answers[1..], a, lo, hi);
    }
  }

  lemma {:induction false} OrderedSnoc(es: seq<Event>, e: Event, from: real)
    requires Ordered(es, from) && from <= e.time && forall x :: x in es ==> x.time <= e.time
    ensures Ordered(es + [e], from)
  {
    if es == [] {
      assert es + [e] == [e] && [e][1..] == [];
    } else {
      assert (es + [e])[1..] == es[1..] + [e] && es[0] in es;
      OrderedSnoc(es[1..], e, es[0].time);
    }
  }

  lemma {:induction false} RequestTimesSorted(u: string, es: seq<Event>, from: real)
    requires Ordered(es, from)
    ensures Sorted(RequestTimes(u, es), from)
  {
    if es != [] {
      RequestTimesSorted(u, es[1..], es[0].time);
      var rest := RequestTimes(u, es[1..]);
      if es[0].Request? && es[0].user == u {
        assert ([es[0].time] + rest)[1..] == rest;
      } else {
        assert [] + rest == rest;
      }
    }
  }

  lemma BoundAfter(l: Limits, u: string, es: seq<Event>, from: real, w: Window, lo: real, k: nat)
    requires k >= 1 && Ordered(es, from)
    ensures Admitted(AnswersTo(u, Run(l, EMPTY, es)), lo, After(lo, w, k)) <= (k + 1) * Cap(l, w) - 1
  {
    TrackerIsPerUser(l, EMPTY, u, NEWCOMER, from, es);
    RequestTimesSorted(u, es, from);
    WindowBoundFrom(l, u, NEWCOMER, RequestTimes(u, es), from, w, lo, k, 0, 0);
  }

  /** In every run, a closed interval of k windows holds at most (k+1)*cap - 1 messages of one user. */
  lemma IntervalBound(l: Limits, u: string, es: seq<Event>, from: real, w: Window, lo: real, k: nat)
    requires k >= 1 && Ordered(es, from)
    ensures Admitted(AnswersTo(u, Run(l, EMPTY, es)), lo, lo + (k as real) * Length(w))
         <= (k + 1) * Cap(l, w) - 1
  {
    AfterIsProduct(lo, w, k);
    BoundAfter(l, u, es, from, w, lo, k);
  }

  // ---- Runs in bursts ----

  /** So many requests at one moment. */
  datatype Burst = Burst(time: real, size: nat)

  function Repeat(t: real, n: nat): seq<real> {
    if n == 0 then [] else [t] + Repeat(t, n - 1)
  }

  function Requests(u: string, times: seq<real>): seq<Event> {
    if times == [] then [] else [Request(u, times[0])] + Requests(u, times[1..])
  }

  function Times(plan: seq<Burst>): seq<real> {
    if plan == [] then [] else Repeat(plan[0].time, plan[0].size) + Times(plan[1..])
  }

  predicate Chronological(plan: seq<Burst>, from: real) {
    plan == [] || (from <= plan[0].time && Chronological(plan[1..], plan[0].time))
  }

  /** The messages a plan puts into [lo, hi] when all of them are admitted. */
  function Planned(plan: seq<Burst>, lo: real, hi: real): nat {
    if plan == [] then 0 else
    (if lo <= plan[0].time <= hi then plan[0].size else 0) + Planned(plan[1..], lo, hi)
  }

  function Taken(entry: Option<Counter>, window: real, b: Burst): Counter {
    if Expired(entry, window, b.time) then Counter(b.size, b.time) else entry.value.(count := entry.value.count + b.size)
  }

  /** The account once a burst was admitted. */
  function Burdened(a: Account, b: Burst): Account {
    if b.size == 0 then a else Account(Some(Taken(a.hourly, Length(Hour), b)), Some(Taken(a.daily, Length(Day), b)), 0)
  }

  /** Neither window overflows on the way. */
  predicate Fits(l: Limits, a: Account, b: Burst) {
    b.size == 0 || (Taken(a.hourly, Length(Hour), b).count <= l.perHour && Taken(a.daily, Length(Day), b).count <= l.perDay)
  }

  predicate AllFit(l: Limits, a: Account, plan: seq<Burst>)
    decreases plan
  {
    plan == [] || (Fits(l, a, plan[0]) && AllFit(l, Burdened(a, plan[0]), plan[1..]))
  }

  lemma RequestFirst(u: string, t: real, es: seq<Event>)
    ensures RequestTimes(u, [Request(u, t)] + es) == [t] + RequestTimes(u, es)
    ensures forall from :: from <= t && Ordered(es, t) ==> Ordered([Request(u, t)] + es, from)
  {
    assert ([Request(u, t)] + es)[1..] == es;
  }

  lemma {:induction false} RequestsAre(u: string, times: seq<real>, from: real)
    requires Sorted(times, from)
    ensures Ordered(Requests(u, times), from) && RequestTimes(u, Requests(u, times)) == times
  {
    if times != [] {
      RequestsAre(u, times[1..], times[0]);
      RequestFirst(u, times[0], Requests(u, times[1..]));
    }
  }

  lemma {:induction false} RepeatSorted(t: real, n: nat, more: seq<real>, from: real)
    requires from <= t && Sorted(more, t)
    ensures Sorted(Repeat(t, n) + more, from)
  {
    if n == 0 {
      assert Repeat(t, n) + more == more;
    } else {
      RepeatSorted(t, n - 1, more, t);
      assert (Repeat(t, n) + more)[1..] == Repeat(t, n - 1) + more;
    }
  }

  lemma {:induction false} TimesSorted(plan: seq<Burst>, from: real)
    requires Chronological(plan, from)
    ensures Sorted(Times(plan), from)
  {
    if plan != [] {
      TimesSorted(plan[1..], plan[0].time);
      RepeatSorted(plan[0].time, plan[0].size, Times(plan[1..]), from);
    }
  }

  lemma AdmittedFirst(a: Answer, rest: seq<Answer>, lo: real, hi: real)
    ensures Admitted([a] + rest, lo, hi)
         == (if a.Answered? && a.decision.Ok? && lo <= a.time <= hi then 1 else 0) + Admitted(rest, lo, hi)
  {
    assert ([a] + rest)[1..] == rest;
  }

  lemma OneAdmitted(l: Limits, u: string, a: Account, t: real, more: seq<real>, lo: real, hi: real)
    requires Fits(l, a, Burst(t, 1))
    ensures Admitted(History(l, u, a, [t] + more), lo, hi)
         == (if lo <= t <= hi then 1 else 0) + Admitted(History(l, u, Burdened(a, Burst(t, 1)), more), lo, hi)
  {
    HistoryCons(l, u, a, t, more);
    assert Judge(l, a, t) == (Burdened(a, Burst(t, 1)), Ok);
    AdmittedFirst(Answered(u, t, Ok), History(l, u, Burdened(a, Burst(t, 1)), more), lo, hi);
  }

  lemma BurdenedInTwo(l: Limits, a: Account, t: real, n: nat)
    requires n >= 1 && Fits(l, a, Burst(t, n))
    ensures Fits(l, a, Burst(t, 1)) && Fits(l, Burdened(a, Burst(t, 1)), Burst(t, n - 1))
    ensures Burdened(Burdened(a, Burst(t, 1)), Burst(t, n - 1)) == Burdened(a, Burst(t, n))
  {
  }

  lemma RepeatFirst(t: real, n: nat, more: seq<real>)
    requires n >= 1
    ensures Repeat(t, n) + more == [t] + (Repeat(t, n - 1) + more)
  {
  }

  lemma {:induction false} BurstAdmitted(l: Limits, u: string, a: Account, t: real, n: nat, more: seq<real>, lo: real, hi: real)
    requires Fits(l, a, Burst(t, n))
    ensures Admitted(History(l, u, a, Repeat(t, n) + more), lo, hi)
         == (if lo <= t <= hi then n else 0) + Admitted(History(l, u, Burdened(a, Burst(t, n)), more), lo, hi)
    decreases n
  {
    if n == 0 {
      assert Repeat(t, n) + more == more;
    } else {
      var a', rest := Burdened(a, Burst(t, 1)), Repeat(t, n - 1) + more;
      RepeatFirst(t, n, more);
      BurdenedInTwo(l, a, t, n);
      OneAdmitted(l, u, a, t, rest, lo, hi);
      BurstAdmitted(l, u, a', t, n - 1, more, lo, hi);
    }
  }

  lemma {:induction false} PlanAdmitted(l: Limits, u: string, a: Account, plan: seq<Burst>, lo: real, hi: real)
    requires AllFit(l, a, plan)
    ensures Admitted(History(l, u, a, Times(plan)), lo, hi) == Planned(plan, lo, hi)
    decreases plan
  {
    if plan != [] {
      BurstAdmitted(l, u, a, plan[0].time, plan[0].size, Times(plan[1..]), lo, hi);
      PlanAdmitted(l, u, Burdened(a, plan[0]), plan[1..], lo, hi);
    }
  }

  /** A plan that fits is admitted in full by the whole tracker. */
  lemma PlanRuns(l: Limits, u: string, plan: seq<Burst>, from: real, lo: real, hi: real)
    requires Chronological(plan, from) && AllFit(l, NEWCOMER, plan)
    ensures var es := Requests(u, Times(plan));
      Ordered(es, from) && Admitted(AnswersTo(u, Run(l, EMPTY, es)), lo, hi) == Planned(plan, lo, hi)
  {
    TimesSorted(plan, from);
    RequestsAre(u, Times(plan), from);
    TrackerIsPerUser(l, EMPTY, u, NEWCOMER, from, Requests(u, Times(plan)));
    PlanAdmitted(l, u, NEWCOMER, plan, lo, hi);
  }

  // ---- The bound is reached ----

  /** `n` whole allowances, one `gap` after the other. */
  function Ladder(from: real, gap: real, n: nat, limit: nat): seq<Burst>
    decreases n
  {
    if n == 0 then [] else [Burst(from + gap, limit)] + Ladder(from + gap, gap, n - 1, limit)
  }

  /** A little more than a window, so that `k` of them end with the interval. */
  function Gap(w: Window, k: nat): real
    requires k >= 1
  {
    Length(w) + 1.0 / (k as real)
  }

  /** One message, the rest of its window's allowance at the last moment, then a whole window's each time. */
  function Spree(w: Window, limit: nat, k: nat): seq<Burst>
    requires limit >= 1 && k >= 1
  {
    [Burst(0.0, 1), Burst(Length(w), limit - 1)] + Ladder(0.0, Gap(w, k), k, limit)
  }

  function Other(w: Window): Window { if w.Hour? then Day else Hour }

  lemma {:induction false} LadderOrdered(from: real, gap: real, n: nat, limit: nat)
    requires gap >= 0.0
    ensures Chronological(Ladder(from, gap, n, limit), from)
    decreases n
  {
    if n > 0 {
      LadderOrdered(from + gap, gap, n - 1, limit);
    }
  }

  lemma MoreRungs(gap: real, n: nat)
    requires n >= 1
    ensures (n as real) * gap == gap + ((n - 1) as real) * gap
  {
    assert (n as real) == ((n - 1) as real) + 1.0;
  }

  lemma {:induction false} LadderPlanned(from: real, gap: real, n: nat, limit: nat, lo: real, hi: real)
    requires gap >= 0.0 && lo <= from + gap && from + (n as real) * gap <= hi
    ensures Planned(Ladder(from, gap, n, limit), lo, hi) == n * limit
    decreases n
  {
    if n > 0 {
      MoreRungs(gap, n);
      assert ((n - 1) as real) * gap >= 0.0;
      LadderPlanned(from + gap, gap, n - 1, limit, lo, hi);
      assert n * limit == limit + (n - 1) * limit;
    }
  }

  lemma RungFits(l: Limits, a: Account, w: Window, b: Burst, spare: nat)
    requires Entry(a, w).Some? && b.time - Entry(a, w).value.start > Length(w) && b.size <= Limit(l, w)
    requires Entry(a, Other(w)).Some? && 0 <= Entry(a, Other(w)).value.count <= Limit(l, Other(w)) - b.size - spare
    requires b.size >= 1
    ensures Fits(l, a, b)
    ensures var a' := Burdened(a, b);
      && Entry(a', w) == Some(Counter(b.size, b.time))
      && Entry(a', Other(w)).Some? && 0 <= Entry(a', Other(w)).value.count <= Limit(l, Other(w)) - spare
  {
  }

  lemma {:induction false} LadderFits(l: Limits, a: Account, w: Window, from: real, gap: real, n: nat, limit: nat)
    requires gap > Length(w) && 1 <= limit <= Limit(l, w)
    requires Entry(a, w).Some? && Entry(a, w).value.start == from
    requires Entry(a, Other(w)).Some? && 0 <= Entry(a, Other(w)).value.count <= Limit(l, Other(w)) - n * limit
    ensures AllFit(l, a, Ladder(from, gap, n, limit))
    decreases n
  {
    if n > 0 {
      assert n * limit == limit + (n - 1) * limit;
      var b := Burst(from + gap, limit);
      RungFits(l, a, w, b, (n - 1) * limit);
      LadderFits(l, Burdened(a, b), w, from + gap, gap, n - 1, limit);
    }
  }

  lemma GapsReach(w: Window, k: nat)
    requires k >= 1
    ensures Gap(w, k) > Length(w) && (k as real) * Gap(w, k) == (k as real) * Length(w) + 1.0
  {
  }

  lemma SpreeOrdered(w: Window, limit: nat, k: nat)
    requires limit >= 1 && k >= 1
    ensures Chronological(Spree(w, limit, k), 0.0)
  {
    GapsReach(w, k);
    LadderOrdered(0.0, Gap(w, k), k, limit);
  }

  lemma SpreePlanned(w: Window, limit: nat, k: nat)
    requires limit >= 1 && k >= 1
    ensures Planned(Spree(w, limit, k), Length(w), Length(w) + (k as real) * Length(w)) == (k + 1) * limit - 1
  {
    var lo, hi := Length(w), Length(w) + (k as real) * Length(w);
    var rungs := Ladder(0.0, Gap(w, k), k, limit);
    GapsReach(w, k);
    assert (k as real) * Length(w) >= 0.0;
    LadderPlanned(0.0, Gap(w, k), k, limit, lo, hi);
    assert Spree(w, limit, k)[1..] == [Burst(lo, limit - 1)] + rungs && Spree(w, limit, k)[1..][1..] == rungs;
  }

  lemma SpreeFits(l: Limits, w: Window, k: nat)
    requires k >= 1 && Limit(l, w) >= 1 && Limit(l, Other(w)) >= (k + 1) * Limit(l, w)
    ensures AllFit(l, NEWCOMER, Spree(w, Limit(l, w), k))
  {
    var limit := Limit(l, w);
    var rungs := Ladder(0.0, Gap(w, k), k, limit);
    var b0, b1 := Burst(0.0, 1), Burst(Length(w), limit - 1);
    var a1 := Burdened(NEWCOMER, b0);
    GapsReach(w, k);
    LadderFits(l, Burdened(a1, b1), w, 0.0, Gap(w, k), k, limit);
    assert Spree(w, limit, k)[1..] == [b1] + rungs && Spree(w, limit, k)[1..][1..] == rungs;
  }

  /** Runs that put (k+1)*limit - 1 messages into `k` windows: the bound above is tight for every `k`. */
  lemma BoundReached(l: Limits, u: string, w: Window, k: nat)
    requires k >= 1 && Limit(l, w) >= 1 && Limit(l, Other(w)) >= (k + 1) * Limit(l, w)
    ensures var es := Requests(u, Times(Spree(w, Limit(l, w), k)));
      && Ordered(es, 0.0)
      && Admitted(AnswersTo(u, Run(l, EMPTY, es)), Length(w), Length(w) + (k as real) * Length(w))
         == (k + 1) * Cap(l, w) - 1
  {
    SpreeOrdered(w, Limit(l, w), k);
    SpreePlanned(w, Limit(l, w), k);
    SpreeFits(l, w, k);
    PlanRuns(l, u, Spree(w, Limit(l, w), k), 0.0, Length(w), Length(w) + (k as real) * Length(w));
  }

  // ---- Sliding or not ----

  function InHour(l: Limits, u: string, es: seq<Event>, lo: real): nat {
    Admitted(AnswersTo(u, Run(l, EMPTY, es)), lo, lo + 3600.0)
  }

  /** The promise of a sliding window: never more than the hourly limit in any closed hour. */
  ghost predicate Slides(l: Limits, u: string) {
    forall es, from, lo :: Ordered(es, from) ==> InHour(l, u, es, lo) <= l.perHour
  }

  /** Both windows end while `early` messages and then `late` ones arrive. */
  function BothEnd(early: nat, late: nat): seq<Burst> {
    [Burst(0.0, 1), Burst(82800.0, 1), Burst(86400.0, early), Burst(86401.0, late)]
  }

  lemma BothEndIs(early: nat, late: nat)
    ensures var plan := BothEnd(early, late);
      && plan[1..] == [Burst(82800.0, 1), Burst(86400.0, early), Burst(86401.0, late)]
      && plan[1..][1..] == [Burst(86400.0, early), Burst(86401.0, late)]
      && plan[1..][1..][1..] == [Burst(86401.0, late)] && plan[1..][1..][1..][1..] == []
  {
  }

  lemma BothEndPlanned(early: nat, late: nat)
    ensures Chronological(BothEnd(early, late), 0.0) && Planned(BothEnd(early, late), 82801.0, 86401.0) == early + late
  {
    BothEndIs(early, late);
  }

  lemma BothEndFits(l: Limits, early: nat, late: nat)
    requires 1 + early <= l.perHour && 2 + early <= l.perDay && late <= l.perHour && late <= l.perDay
    ensures AllFit(l, NEWCOMER, BothEnd(early, late))
  {
    var early', late' := Burst(86400.0, early), Burst(86401.0, late);
    var a1 := Burdened(NEWCOMER, Burst(0.0, 1));
    var a2 := Burdened(a1, Burst(82800.0, 1));
    assert a2 == Account(Some(Counter(1, 82800.0)), Some(Counter(2, 0.0)), 0);
    var a3 := Burdened(a2, early');
    assert a3 == Account(Some(Counter(1 + early, 82800.0)), Some(Counter(2 + early, 0.0)), 0);
    BothEndIs(early, late);
    assert AllFit(l, a3, [late']);
  }

  lemma BothEndBreaks(l: Limits, u: string, early: nat, late: nat)
    requires 1 + early <= l.perHour && 2 + early <= l.perDay && late <= l.perHour && late <= l.perDay
    requires early + late > l.perHour
    ensures !Slides(l, u)
  {
    BothEndPlanned(early, late);
    BothEndFits(l, early, late);
    PlanRuns(l, u, BothEnd(early, late), 0.0, 82801.0, 86401.0);
    var es := Requests(u, Times(BothEnd(early, late)));
    assert Ordered(es, 0.0) && InHour(l, u, es, 82801.0) == early + late;
  }

  /** All messages of the hour from `lo` on came within the live hourly window. */
  predicate OneWindow(h: Counter, lo: real, n: nat) { h.start >= lo && n <= h.count }

  /** What is known of a user in the hour from `lo` on: `n` messages were admitted, `early` of them before the live
      daily window, which admitted `before` of its own in front of `lo`. */
  ghost predicate Ledger(l: Limits, h: Counter, d: Counter, lo: real, n: nat, early: nat, before: nat) {
    && 1 <= h.count <= Cap(l, Hour) && 1 <= d.count <= Cap(l, Day) && n + before == early + d.count
    && (h.start > d.start ==> d.count >= 2)
    && (n == 0 ==> early == 0 && h.start < lo)
    && (if d.start < lo then early == 0 && before >= 1 else before == 0)
    && (h.start < lo ==> n <= h.count)
    && (n > 0 ==> h.start >= lo - 3600.0)
    && (!OneWindow(h, lo, n) ==>
         && (early > 0 ==> early <= Cap(l, Day) - 2)
         && (n > 0 && d.start + 86400.0 < lo + 3600.0 ==> before >= 2))
  }

  /** The user's account, and when it was last written to at the latest. */
  ghost predicate Known(l: Limits, a: Account, last: real, lo: real, n: nat, early: nat, before: nat) {
    match (a.hourly, a.daily)
    case (None, None) => n == 0 && early == 0 && before == 0
    case (Some(h), Some(d)) => h.start <= last && d.start <= last && Ledger(l, h, d, lo, n, early, before)
    case _ => false
  }

  lemma KnownBounds(l: Limits, a: Account, last: real, lo: real, n: nat, early: nat, before: nat)
    requires Known(l, a, last, lo, n, early, before) && 1 <= l.perHour && l.perDay <= l.perHour
    ensures n <= Max(l.perHour, 2 * Cap(l, Day) - 2)
  {
  }

  lemma KnownStep(l: Limits, a: Account, last: real, lo: real, n: nat, early: nat, before: nat, t: real)
    returns (n': nat, early': nat, before': nat)
    requires Known(l, a, last, lo, n, early, before) && last <= t <= lo + 3600.0 && (last < lo ==> n == 0)
    ensures var (a', d) := Judge(l, a, t);
      Known(l, a', t, lo, n', early', before') && n' == n + if d.Ok? && lo <= t then 1 else 0
  {
    var (a', d) := Judge(l, a, t);
    if !d.Ok? {
      n', early', before' := n, early, before;
    } else if t < lo {
      n', early', before' := 0, 0, a'.daily.value.count;
    } else if Expired(a.daily, Length(Day), t) {
      n', early', before' := n + 1, n, 0;
    } else {
      n', early', before' := n + 1, early, before;
    }
  }

  lemma {:induction false} HourBoundFrom(
    l: Limits, u: string, a: Account, times: seq<real>, last: real, lo: real, n: nat, early: nat, before: nat)
    requires Sorted(times, last) && Known(l, a, last, lo, n, early, before) && (last < lo ==> n == 0)
    requires 1 <= l.perHour && l.perDay <= l.perHour
    ensures n + Admitted(History(l, u, a, times), lo, lo + 3600.0) <= Max(l.perHour, 2 * Cap(l, Day) - 2)
    decreases times
  {
    KnownBounds(l, a, last, lo, n, early, before);
    if times != [] {
      var t := times[0];
      if lo + 3600.0 < t {
        assert Sorted(times, t);
        NothingAfter(l, u, a, times, lo, lo + 3600.0, t);
      } else {
        var n', early', before' := KnownStep(l, a, last, lo, n, early, before, t);
        HourBoundFrom(l, u, Judge(l, a, t).0, times[1..], t, lo, n', early', before');
      }
    }
  }

  /** A daily limit no larger than the hourly one bounds a closed hour too: two messages lie before it
      when both windows end in it. */
  lemma HourBound(l: Limits, u: string, es: seq<Event>, from: real, lo: real)
    requires Ordered(es, from) && 1 <= l.perHour && l.perDay <= l.perHour
    ensures InHour(l, u, es, lo) <= Max(l.perHour, 2 * Cap(l, Day) - 2)
  {
    TrackerIsPerUser(l, EMPTY, u, NEWCOMER, from, es);
    RequestTimesSorted(u, es, from);
    HourBoundFrom(l, u, NEWCOMER, RequestTimes(u, es), from, lo, 0, 0, 0);
  }

  lemma FirstIsAdmitted(l: Limits, u: string)
    requires l.perHour < 1
    ensures !Slides(l, u)
  {
    var es := [Request(u, 0.0)];
    assert es[1..] == [] && Ordered(es, 0.0);
    assert Run(l, EMPTY, es) == [Answered(u, 0.0, Ok)];
    AdmittedFirst(Answered(u, 0.0, Ok), [], 0.0, 3600.0);
    assert AnswersTo(u, [Answered(u, 0.0, Ok)]) == [Answered(u, 0.0, Ok)];
    assert InHour(l, u, es, 0.0) == 1;
  }

  /** The limits under which fixed windows keep the promise. */
  predicate KeepsPromise(l: Limits) {
    l.perHour >= 1 && (l.perHour == 1 || (l.perDay <= l.perHour && 2 * Max(1, l.perDay) - 2 <= l.perHour))
  }

  lemma BrokenPromise(l: Limits, u: string)
    requires !KeepsPromise(l)
    ensures !Slides(l, u)
  {
    if l.perHour < 1 {
      FirstIsAdmitted(l, u);
    } else if l.perDay > l.perHour {
      BothEndBreaks(l, u, l.perHour - 1, l.perHour);
    } else {
      BothEndBreaks(l, u, l.perDay - 2, l.perDay);
    }
  }

  /** Exactly when the promise is kept, for all limits. */
  lemma SlidesIff(l: Limits, u: string)
    ensures Slides(l, u) <==> KeepsPromise(l)
  {
    if !KeepsPromise(l) {
      BrokenPromise(l, u);
    } else {
      forall es, from, lo | Ordered(es, from)
        ensures InHour(l, u, es, lo) <= l.perHour
      {
        if l.perHour == 1 {
          IntervalBound(l, u, es, from, Hour, lo, 1);
        } else {
          HourBound(l, u, es, from, lo);
        }
      }
    }
  }
}
