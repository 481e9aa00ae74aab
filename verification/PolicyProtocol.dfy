/** The Postfix policy protocol reader: framing, attribute parsing, one response per request. */
module PolicyProtocol {
  import opened Prelude
  import opened Text
  import RateLimiter

  const DELIMITER := "\n\n"

  // ---- Framing ----

  /** (complete requests, bytes still waiting for their delimiter). */
  function Frames(data: string): (r: (seq<string>, string))
    decreases |data|
  {
    match Index(data, DELIMITER)
    case None => ([], data)
    case Some(i) =>
      var rest := Frames(data[i+2..]);
      ([data[..i]] + rest.0, rest.1)
  }

  /** The byte stream that a list of requests and a leftover came from. */
  function Delimited(frames: seq<string>, rest: string): string {
    if frames == [] then rest else frames[0] + DELIMITER + Delimited(frames[1..], rest)
  }

  /** No delimiter starts inside the frame, even one that overlaps its end. */
  ghost predicate Unbroken(frame: string) { forall i: nat :: i < |frame| ==> !At(frame + DELIMITER, i, DELIMITER) }

  ghost predicate Undelimited(rest: string) { forall i: nat :: !At(rest, i, DELIMITER) }

  lemma FirstFrame(frame: string, rest: string)
    requires Unbroken(frame)
    ensures Frames(frame + DELIMITER + rest)
         == ([frame] + Frames(rest).0, Frames(rest).1)
  {
    var s := frame + DELIMITER + rest;
    forall j: nat | j < |frame|
      ensures !At(s, j, DELIMITER)
    {
      assert !At(frame + DELIMITER, j, DELIMITER);
      assert s[j..j+2] == (frame + DELIMITER)[j..j+2];
    }
    IndexIs(s, DELIMITER, |frame|);
    assert s[..|frame|] == frame && s[|frame|+2..] == rest;
  }

  lemma FrameEnds(data: string, i: nat)
    requires At(data, i, DELIMITER)
    ensures data[..i] + DELIMITER == data[..i+2] && data == data[..i] + DELIMITER + data[i+2..]
  {
  }

  lemma InPrefix(data: string, n: nat, j: nat)
    requires j + 2 <= n <= |data| && At(data[..n], j, DELIMITER)
    ensures At(data, j, DELIMITER)
  {
    assert data[..n][j..j+2] == data[j..j+2];
  }

  lemma FrameIsWhole(data: string, i: nat)
    requires Index(data, DELIMITER) == Some(i)
    ensures data == data[..i] + DELIMITER + data[i+2..] && Unbroken(data[..i])
  {
    var f := data[..i];
    FrameEnds(data, i);
    forall j: nat | j < |f|
      ensures !At(f + DELIMITER, j, DELIMITER)
    {
      IndexIsFirst(data, DELIMITER, j);
      if At(f + DELIMITER, j, DELIMITER) {
        InPrefix(data, i + 2, j);
      }
    }
  }

  lemma RestIsUndelimited(data: string)
    requires Index(data, DELIMITER).None?
    ensures Undelimited(data)
  {
    forall j: nat
      ensures !At(data, j, DELIMITER)
    {
      IndexIsFirst(data, DELIMITER, j);
    }
  }

  /** Framing cuts the stream without losing a byte, at every delimiter, and nowhere else. */
  lemma {:induction false} FramesRebuild(data: string)
    ensures var (frames, rest) := Frames(data);
      Delimited(frames, rest) == data && Undelimited(rest) && forall f :: f in frames ==> Unbroken(f)
    decreases |data|
  {
    match Index(data, DELIMITER)
    case None =>
      RestIsUndelimited(data);
    case Some(i) =>
      var f, tail := data[..i], data[i+2..];
      FramesRebuild(tail);
      FrameIsWhole(data, i);
      assert ([f] + Frames(tail).0)[1..] == Frames(tail).0;
  }

  /** ... and it is the only way to cut it so. */
  lemma {:induction false} FramesUnique(frames: seq<string>, rest: string)
    requires Undelimited(rest) && forall f :: f in frames ==> Unbroken(f)
    ensures Frames(Delimited(frames, rest)) == (frames, rest)
  {
    if frames == [] {
      IndexNone(rest, DELIMITER);
    } else {
      FramesUnique(frames[1..], rest);
      FirstFrame(frames[0], Delimited(frames[1..], rest));
      assert [frames[0]] + frames[1..] == frames;
    }
  }

  lemma {:induction false} DelimitedAppend(a: seq<string>, b: seq<string>, rest: string)
    ensures Delimited(a + b, rest) == Delimited(a, Delimited(b, rest))
  {
    if a == [] {
      assert a + b == b;
    } else {
      assert (a + b)[1..] == a[1..] + b;
      DelimitedAppend(a[1..], b, rest);
    }
  }

  lemma {:induction false} DelimitedThen(a: seq<string>, rest: string, more: string)
    ensures Delimited(a, rest) + more == Delimited(a, rest + more)
  {
    if a != [] {
      DelimitedThen(a[1..], rest, more);
      assert a[0] + DELIMITER + Delimited(a[1..], rest) + more == a[0] + DELIMITER + (Delimited(a[1..], rest) + more);
    }
  }

  /** Data that arrives later is framed together with what was left over, and nothing else. */
  lemma FramesAppend(a: string, b: string)
    ensures var (done, rest) := Frames(a);
      var (next, rest') := Frames(rest + b);
      Frames(a + b) == (done + next, rest')
  {
    var (done, rest) := Frames(a);
    var (next, rest') := Frames(rest + b);
    FramesRebuild(a);
    FramesRebuild(rest + b);
    DelimitedThen(done, rest, b);
    DelimitedAppend(done, next, rest');
    FramesUnique(done + next, rest');
  }

  // ---- Attributes ----

  /** The pieces between line breaks. A "\r\n" gives an extra empty piece, which holds no attribute. */
  function Lines(s: string): (r: seq<string>)
    ensures |r| >= 1
    ensures OneLine(s) ==> r == [s]
  {
    if s == "" then [""]
    else if IsLineBreak(s[0]) then assert !OneLine(s) by { assert s[0] in s; } [""] + Lines(s[1..])
    else var rest := Lines(s[1..]); assert [s[0]] + s[1..] == s; [[s[0]] + rest[0]] + rest[1..]
  }

  lemma LinesLonger(c: char, s: string)
    requires !IsLineBreak(c)
    ensures Lines([c] + s) == [[c] + Lines(s)[0]] + Lines(s)[1..]
  {
    assert ([c] + s)[1..] == s;
  }

  lemma {:induction false} LinesFirst(a: string, rest: string)
    requires OneLine(a)
    ensures Lines(a + "\n" + rest) == [a] + Lines(rest)
  {
    if a == "" {
      assert (a + "\n" + rest)[1..] == rest;
    } else {
      var tail := a[1..] + "\n" + rest;
      assert !IsLineBreak(a[0]) by { assert a[0] in a; }
      assert a + "\n" + rest == [a[0]] + tail;
      LinesFirst(a[1..], rest);
      LinesLonger(a[0], tail);
      assert [a[0]] + a[1..] == a;
    }
  }

  /** The line with the pair cut at `at`, both sides stripped. */
  function PairAt(request: map<string, string>, line: string, at: Option<nat>): map<string, string>
    requires at.Some? ==> at.value < |line|
  {
    match at
    case None => request
    case Some(i) => request[Strip(line[..i]) := Strip(line[i+1..])]
  }

  function WithLine(request: map<string, string>, line: string): map<string, string> {
    PairAt(request, Strip(line), Index(Strip(line), "="))
  }

  lemma EqualsIsNoSpace(s: string)
    requires AllSpace(s)
    ensures '=' !in s
  {
  }

  lemma AtCharacter(s: string, j: nat, c: char)
    ensures At(s, j, [c]) <==> j < |s| && s[j] == c
  {
    if j < |s| {
      assert s[j..j+1] == [s[j]];
    }
  }

  lemma FirstAt(s: string, c: char, i: nat)
    requires i < |s| && s[i] == c && forall j :: 0 <= j < i ==> s[j] != c
    ensures Index(s, [c]) == Some(i)
  {
    forall j: nat | j <= i
      ensures At(s, j, [c]) <==> j == i
    {
      AtCharacter(s, j, c);
    }
    IndexIs(s, [c], i);
  }

  lemma FirstOf(s: string, c: char)
    ensures match Index(s, [c])
      case None => c !in s
      case Some(i) => i < |s| && s[i] == c && forall j :: 0 <= j < i ==> s[j] != c
  {
    forall j: nat | j < |s| && (Index(s, [c]).Some? ==> j < Index(s, [c]).value)
      ensures s[j] != c
    {
      IndexIsFirst(s, [c], j);
      AtCharacter(s, j, c);
    }
    if Index(s, [c]).Some? {
      AtCharacter(s, Index(s, [c]).value, c);
    }
  }

  lemma NotIn(s: string, c: char)
    requires c !in s
    ensures Index(s, [c]) == None
  {
    FirstOf(s, c);
  }

  lemma IndexWithin(f: string, l: string, k: string, c: char)
    requires c !in f && c !in k
    ensures Index(f + l + k, [c]) == if Index(l, [c]).None? then None else Some(|f| + Index(l, [c]).value)
  {
    hide Index;
    FirstOf(l, c);
    if Index(l, [c]).None? {
      NotIn(f + l + k, c);
    } else {
      var s, i := f + l + k, |f| + Index(l, [c]).value;
      forall j | 0 <= j < i
        ensures s[j] != c
      {
        assert if j < |f| then s[j] == f[j] && f[j] in f else s[j] == l[j-|f|];
      }
      FirstAt(s, c, i);
    }
  }

  lemma CutAround(f: string, l: string, k: string, i: nat)
    requires i < |l|
    ensures (f + l + k)[..|f|+i] == f + l[..i] && (f + l + k)[|f|+i+1..] == l[i+1..] + k
  {
  }

  lemma PairInside(request: map<string, string>, line: string, f: string, l: string, k: string, i: nat)
    requires line == f + l + k && AllSpace(f) && AllSpace(k) && i < |l|
    ensures PairAt(request, line, Some(|f| + i)) == PairAt(request, l, Some(i))
  {
    CutAround(f, l, k, i);
    StripFront(f, l[..i]);
    StripBack(l[i+1..], k);
  }

  lemma EqualsInside(line: string, f: string, l: string, k: string)
    requires line == f + l + k && AllSpace(f) && AllSpace(k)
    ensures Index(line, "=") == if Index(l, "=").None? then None else Some(|f| + Index(l, "=").value)
  {
    EqualsIsNoSpace(f);
    EqualsIsNoSpace(k);
    IndexWithin(f, l, k, '=');
  }

  /** A line sets what stands in front of its first '=' to what stands behind it, both without the white space around;
      a line without one sets nothing. */
  lemma LineSets(request: map<string, string>, line: string)
    ensures WithLine(request, line) == PairAt(request, line, Index(line, "="))
  {
    hide Strip, Index;
    var l := Strip(line);
    var f, k := StripMeans(line);
    var at := Index(l, "=");
    EqualsInside(line, f, l, k);
    if at.Some? {
      PairInside(request, line, f, l, k, at.value);
    }
  }

  /** Later lines win. */
  function Attributes(lines: seq<string>): map<string, string> {
    if lines == [] then map[] else WithLine(Attributes(lines[..|lines|-1]), lines[|lines|-1])
  }

  method ParseRequest(raw: string) returns (request: map<string, string>)
    ensures request == Attributes(Lines(raw))
  {
    var lines := Lines(raw);
    request := map[];
    for i := 0 to |lines|
      invariant request == Attributes(lines[..i])
    {
      assert lines[..i+1][..i] == lines[..i];
      var line := Strip(lines[i]);
      var at := Index(line, "=");
      if at.Some? {
        request := request[Strip(line[..at.value]) := Strip(line[at.value+1..])];
      }
    }
    assert lines[..|lines|] == lines;
  }

  function Username(raw: string): string {
    var request := Attributes(Lines(raw));
    if "sasl_username" in request then request["sasl_username"] else ""
  }

  // ---- Responses ----

  /** The responses to `frames`; the clock gives the time at which the i-th request is decided. */
  function Serve(l: RateLimiter.Limits, s: RateLimiter.Tables, clock: nat -> real, frames: seq<string>)
    : (r: (RateLimiter.Tables, seq<RateLimiter.Decision>))
    ensures |r.1| == |frames|
  {
    if frames == [] then (s, []) else
    var n := |frames| - 1;
    var (s', done) := Serve(l, s, clock, frames[..n]);
    var (s'', d) := Respond(l, s', frames[n], clock(n));
    (s'', done + [d])
  }

  /** Unauthenticated requests pass through without being counted. */
  function Respond(l: RateLimiter.Limits, s: RateLimiter.Tables, raw: string, now: real)
    : (RateLimiter.Tables, RateLimiter.Decision)
  {
    if Username(raw) == "" then (s, RateLimiter.Ok) else RateLimiter.Track(l, s, Username(raw), now)
  }

  lemma ServeOneMore(l: RateLimiter.Limits, s: RateLimiter.Tables, clock: nat -> real, frames: seq<string>, raw: string)
    ensures var (s', done) := Serve(l, s, clock, frames);
      var (s'', d) := Respond(l, s', raw, clock(|frames|));
      Serve(l, s, clock, frames + [raw]) == (s'', done + [d])
  {
    assert (frames + [raw])[..|frames|] == frames;
  }

  /** What is read before the peer closes: an empty chunk ends the stream. */
  function Received(chunks: seq<string>): string {
    if chunks == [] || chunks[0] == "" then "" else chunks[0] + Received(chunks[1..])
  }

  lemma {:induction false} ReceivedStep(chunks: seq<string>, i: nat)
    requires i < |chunks| && "" !in chunks[..i]
    ensures Received(chunks[..i] + [chunks[i]]) == Received(chunks[..i]) + chunks[i]
    ensures chunks[i] == "" ==> Received(chunks) == Received(chunks[..i])
    ensures i + 1 == |chunks| ==> chunks[..i] + [chunks[i]] == chunks
  {
    if i > 0 {
      assert chunks[0] in chunks[..i];
      assert chunks[1..][..i-1] == chunks[..i][1..];
      ReceivedStep(chunks[1..], i - 1);
      assert (chunks[..i] + [chunks[i]])[1..] == chunks[..i][1..] + [chunks[i]];
    }
  }

  /** One connection: every complete request gets one response, whatever the chunk boundaries. */
  method HandleClient(tracker: RateLimiter.RateTracker, chunks: seq<string>, clock: nat -> real)
    returns (sent: seq<RateLimiter.Decision>, ghost unread: string)
    modifies tracker
    ensures var (frames, rest) := Frames(Received(chunks));
      (tracker.State(), sent) == Serve(tracker.limits, old(tracker.State()), clock, frames) && unread == rest
    ensures AnsweredAs(tracker.limits, old(tracker.State()), clock, Senders(Frames(Received(chunks)).0), tracker.State(), sent)
  {
    var data := "";
    sent := [];
    ghost var frames: seq<string> := [];
    var i := 0;
    ghost var before := tracker.State();
    while i < |chunks|
      invariant i <= |chunks| && "" !in chunks[..i]
      invariant Frames(Received(chunks[..i])) == (frames, data)
      invariant (tracker.State(), sent) == Serve(tracker.limits, before, clock, frames)
    {
      var chunk := chunks[i];
      ReceivedStep(chunks, i);
      assert chunks[..i+1] == chunks[..i] + [chunk];
      if chunk == "" { break; }
      FramesAppend(Received(chunks[..i]), chunk);
      data := data + chunk;
      i := i + 1;
      data, sent, frames := Drain(tracker, data, sent, clock, before, frames);
    }
    assert i == |chunks| ==> chunks[..i] == chunks;
    ServedByName(tracker.limits, before, clock, frames);
    unread := data;
  }

  lemma FramesStep(earlier: seq<string>, data: string, i: nat)
    requires Index(data, DELIMITER) == Some(i)
    ensures earlier + Frames(data).0 == (earlier + [data[..i]]) + Frames(data[i+2..]).0
    ensures Frames(data).1 == Frames(data[i+2..]).1
  {
    JoinAgain(earlier, [data[..i]], Frames(data[i+2..]).0);
  }

  /** Takes every complete request out of the buffer and answers it. */
  method Drain(tracker: RateLimiter.RateTracker, buffer: string, answered: seq<RateLimiter.Decision>,
               clock: nat -> real, ghost before: RateLimiter.Tables, ghost earlier: seq<string>)
    returns (data: string, sent: seq<RateLimiter.Decision>, ghost frames: seq<string>)
    requires (tracker.State(), answered) == Serve(tracker.limits, before, clock, earlier)
    modifies tracker
    ensures (frames, data) == (earlier + Frames(buffer).0, Frames(buffer).1)
    ensures (tracker.State(), sent) == Serve(tracker.limits, before, clock, frames)
  {
    data, sent, frames := buffer, answered, earlier;
    while true
      invariant (tracker.State(), sent) == Serve(tracker.limits, before, clock, frames)
      invariant frames + Frames(data).0 == earlier + Frames(buffer).0
      invariant Frames(data).1 == Frames(buffer).1
      decreases |data|
    {
      var idx := Index(data, DELIMITER);
      if idx.None? { break; }
      FramesStep(frames, data, idx.value);
      var raw := data[..idx.value];
      data := data[idx.value+2..];
      ServeOneMore(tracker.limits, before, clock, frames, raw);
      var decision := Decide(tracker, raw, clock(|sent|));
      sent, frames := sent + [decision], frames + [raw];
    }
    assert frames + [] == frames;
  }

  method Decide(tracker: RateLimiter.RateTracker, raw: string, now: real) returns (decision: RateLimiter.Decision)
    modifies tracker
    ensures (tracker.State(), decision) == Respond(tracker.limits, old(tracker.State()), raw, now)
    ensures var sender := SenderOf(raw);
      if sender == "" then tracker.State() == old(tracker.State()) && decision == RateLimiter.Ok
      else (tracker.State(), decision) == RateLimiter.Track(tracker.limits, old(tracker.State()), sender, now)
  {
    var request := ParseRequest(raw);
    var username := if "sasl_username" in request then request["sasl_username"] else "";
    decision := RateLimiter.Ok;
    if username != "" {
      decision := tracker.CheckAndTrack(username, now);
    }
  }

  // ---- What is answered ----

  /** Who sends, by the attributes of a request. */
  function Sender(request: map<string, string>): string {
    if "sasl_username" in request then request["sasl_username"] else ""
  }

  function SenderOf(raw: string): string { Sender(Attributes(Lines(raw))) }

  function Senders(frames: seq<string>): (r: seq<string>)
    ensures |r| == |frames| && forall i :: 0 <= i < |r| ==> r[i] == SenderOf(frames[i])
  {
    if frames == [] then [] else Senders(frames[..|frames|-1]) + [SenderOf(frames[|frames|-1])]
  }

  /** What the tracker sees of the senders: one request from each that has a name. */
  function Named(senders: seq<string>, clock: nat -> real): seq<RateLimiter.Event> {
    if senders == [] then [] else
    var n := |senders| - 1;
    Named(senders[..n], clock) + if senders[n] == "" then [] else [RateLimiter.Request(senders[n], clock(n))]
  }

  function HasName(senders: seq<string>): (r: seq<bool>)
    ensures |r| == |senders| && forall i :: 0 <= i < |r| ==> r[i] == (senders[i] != "")
  {
    seq(|senders|, i requires 0 <= i < |senders| => senders[i] != "")
  }

  function Verdicts(answers: seq<RateLimiter.Answer>): seq<RateLimiter.Decision>
    requires forall a :: a in answers ==> a.Answered?
  {
    seq(|answers|, i requires 0 <= i < |answers| => assert answers[i] in answers; answers[i].decision)
  }

  /** Nameless requests are answered OK; the others get, in order, what a run of the tracker answers,
      and the tables are what that run leaves. */
  ghost predicate AnsweredAs(l: RateLimiter.Limits, s: RateLimiter.Tables, clock: nat -> real, senders: seq<string>,
                             end: RateLimiter.Tables, sent: seq<RateLimiter.Decision>) {
    var run := RateLimiter.Run(l, s, Named(senders, clock));
    && |sent| == |senders| && end == RateLimiter.Left(l, s, Named(senders, clock))
    && (forall a :: a in run ==> a.Answered?)
    && (forall i :: 0 <= i < |senders| && senders[i] == "" ==> sent[i] == RateLimiter.Ok)
    && Keep(sent, HasName(senders)) == Verdicts(run)
  }

  lemma {:induction false} KeepSnoc<T>(xs: seq<T>, marks: seq<bool>, x: T, mark: bool)
    requires |xs| == |marks|
    ensures Keep(xs + [x], marks + [mark]) == Keep(xs, marks) + if mark then [x] else []
  {
    if xs == [] {
      assert xs + [x] == [x] && marks + [mark] == [mark];
      assert [x][1..] == [] && [mark][1..] == [];
    } else {
      assert (xs + [x])[1..] == xs[1..] + [x] && (marks + [mark])[1..] == marks[1..] + [mark];
      KeepSnoc(xs[1..], marks[1..], x, mark);
    }
  }

  lemma OneRequest(l: RateLimiter.Limits, s: RateLimiter.Tables, u: string, now: real)
    ensures var (s', d) := RateLimiter.Track(l, s, u, now);
      var e := RateLimiter.Request(u, now);
      RateLimiter.Run(l, s, [e]) == [RateLimiter.Answered(u, now, d)] && RateLimiter.Left(l, s, [e]) == s'
  {
    var e := RateLimiter.Request(u, now);
    assert [e][1..] == [];
  }

  lemma NamedSnoc(senders: seq<string>, u: string, clock: nat -> real)
    ensures Named(senders + [u], clock)
         == Named(senders, clock) + if u == "" then [] else [RateLimiter.Request(u, clock(|senders|))]
  {
    assert (senders + [u])[..|senders|] == senders;
  }

  /** One more answer to a request without, or with, a name. */
  lemma NamelessAnswered(l: RateLimiter.Limits, s: RateLimiter.Tables, clock: nat -> real, senders: seq<string>,
                         end: RateLimiter.Tables, sent: seq<RateLimiter.Decision>)
    requires AnsweredAs(l, s, clock, senders, end, sent)
    ensures AnsweredAs(l, s, clock, senders + [""], end, sent + [RateLimiter.Ok])
  {
    NamedSnoc(senders, "", clock);
    assert Named(senders, clock) + [] == Named(senders, clock);
    KeepSnoc(sent, HasName(senders), RateLimiter.Ok, false);
    assert HasName(senders + [""]) == HasName(senders) + [false];
  }

  lemma VerdictsSnoc(run: seq<RateLimiter.Answer>, last: RateLimiter.Answer)
    requires last.Answered? && forall a :: a in run ==> a.Answered?
    ensures (forall a :: a in run + [last] ==> a.Answered?) && Verdicts(run + [last]) == Verdicts(run) + [last.decision]
  {
  }

  lemma NameMarks(senders: seq<string>, u: string)
    requires u != ""
    ensures HasName(senders + [u]) == HasName(senders) + [true]
  {
  }

  lemma NamedAnswered(l: RateLimiter.Limits, s: RateLimiter.Tables, clock: nat -> real, senders: seq<string>,
                      end: RateLimiter.Tables, sent: seq<RateLimiter.Decision>, u: string)
    requires AnsweredAs(l, s, clock, senders, end, sent) && u != ""
    ensures var (end', d) := RateLimiter.Track(l, end, u, clock(|senders|));
      AnsweredAs(l, s, clock, senders + [u], end', sent + [d])
  {
    var es, e := Named(senders, clock), RateLimiter.Request(u, clock(|senders|));
    var d := RateLimiter.Track(l, end, u, e.time).1;
    NamedSnoc(senders, u, clock);
    RateLimiter.RunInTwo(l, s, es, [e]);
    OneRequest(l, end, u, e.time);
    KeepSnoc(sent, HasName(senders), d, true);
    NameMarks(senders, u);
    var run, last := RateLimiter.Run(l, s, es), RateLimiter.Answered(u, e.time, d);
    VerdictsSnoc(run, last);
  }

  lemma RespondBySender(l: RateLimiter.Limits, s: RateLimiter.Tables, raw: string, now: real)
    ensures Respond(l, s, raw, now)
         == if SenderOf(raw) == "" then (s, RateLimiter.Ok) else RateLimiter.Track(l, s, SenderOf(raw), now)
  {
  }

  lemma SendersSnoc(frames: seq<string>, raw: string)
    ensures Senders(frames + [raw]) == Senders(frames) + [SenderOf(raw)]
  {
    assert (frames + [raw])[..|frames|] == frames;
  }

  lemma AnsweredOneMore(l: RateLimiter.Limits, s: RateLimiter.Tables, clock: nat -> real, senders: seq<string>,
                        end: RateLimiter.Tables, sent: seq<RateLimiter.Decision>, raw: string)
    requires AnsweredAs(l, s, clock, senders, end, sent)
    ensures var (end', d) := Respond(l, end, raw, clock(|senders|));
      AnsweredAs(l, s, clock, senders + [SenderOf(raw)], end', sent + [d])
  {
    RespondBySender(l, end, raw, clock(|senders|));
    if SenderOf(raw) == "" {
      NamelessAnswered(l, s, clock, senders, end, sent);
    } else {
      NamedAnswered(l, s, clock, senders, end, sent, SenderOf(raw));
    }
  }

  /** The responses to `frames` and the tables they leave are those of the tracker over the named senders. */
  ghost predicate ServedWell(l: RateLimiter.Limits, s: RateLimiter.Tables, clock: nat -> real, frames: seq<string>) {
    var (end, sent) := Serve(l, s, clock, frames);
    AnsweredAs(l, s, clock, Senders(frames), end, sent)
  }

  lemma ServedNone(l: RateLimiter.Limits, s: RateLimiter.Tables, clock: nat -> real)
    ensures ServedWell(l, s, clock, [])
  {
  }

  lemma ServedOneMore(l: RateLimiter.Limits, s: RateLimiter.Tables, clock: nat -> real, frames: seq<string>, raw: string)
    requires ServedWell(l, s, clock, frames)
    ensures ServedWell(l, s, clock, frames + [raw])
  {
    var (end, sent) := Serve(l, s, clock, frames);
    ServeOneMore(l, s, clock, frames, raw);
    SendersSnoc(frames, raw);
    AnsweredOneMore(l, s, clock, Senders(frames), end, sent, raw);
  }

  /** Whatever the frames are. */
  lemma {:induction false} ServedByName(l: RateLimiter.Limits, s: RateLimiter.Tables, clock: nat -> real, frames: seq<string>)
    ensures ServedWell(l, s, clock, frames)
  {
    hide ServedWell;
    if frames == [] {
      ServedNone(l, s, clock);
    } else {
      var init, raw := frames[..|frames|-1], frames[|frames|-1];
      ServedByName(l, s, clock, init);
      ServedOneMore(l, s, clock, init, raw);
      assert init + [raw] == frames;
    }
  }

  /** OK answers to one sender inside [lo, hi]. */
  function Passed(u: string, senders: seq<string>, sent: seq<RateLimiter.Decision>, clock: nat -> real, lo: real, hi: real): nat
    requires |senders| == |sent|
  {
    if senders == [] then 0 else
    var n := |senders| - 1;
    Passed(u, senders[..n], sent[..n], clock, lo, hi)
    + if senders[n] == u && sent[n] == RateLimiter.Ok && lo <= clock(n) <= hi then 1 else 0
  }

  lemma PassedSnoc(u: string, senders: seq<string>, sent: seq<RateLimiter.Decision>, clock: nat -> real, lo: real, hi: real,
                   v: string, d: RateLimiter.Decision)
    requires |senders| == |sent|
    ensures Passed(u, senders + [v], sent + [d], clock, lo, hi) == Passed(u, senders, sent, clock, lo, hi)
         + if v == u && d == RateLimiter.Ok && lo <= clock(|senders|) <= hi then 1 else 0
  {
    assert (senders + [v])[..|senders|] == senders && (sent + [d])[..|sent|] == sent;
  }

  /** The tracker's side of one more request. */
  lemma AdmittedOneMore(l: RateLimiter.Limits, s: RateLimiter.Tables, clock: nat -> real, senders: seq<string>,
                        v: string, u: string, lo: real, hi: real)
    requires v != ""
    ensures var es, now := Named(senders, clock), clock(|senders|);
      var d := RateLimiter.Track(l, RateLimiter.Left(l, s, es), v, now).1;
      InSpan(u, RateLimiter.Run(l, s, Named(senders + [v], clock)), lo, hi)
      == InSpan(u, RateLimiter.Run(l, s, es), lo, hi) + if v == u && d == RateLimiter.Ok && lo <= now <= hi then 1 else 0
  {
    var es, now := Named(senders, clock), clock(|senders|);
    var end := RateLimiter.Left(l, s, es);
    var last := RateLimiter.Answered(v, now, RateLimiter.Track(l, end, v, now).1);
    NamedSnoc(senders, v, clock);
    RateLimiter.RunInTwo(l, s, es, [RateLimiter.Request(v, now)]);
    OneRequest(l, end, v, now);
    RateLimiter.AnswersToSnoc(u, RateLimiter.Run(l, s, es), last);
    if v == u {
      RateLimiter.AdmittedSnoc(RateLimiter.AnswersTo(u, RateLimiter.Run(l, s, es)), last, lo, hi);
    } else {
      var mine := RateLimiter.AnswersTo(u, RateLimiter.Run(l, s, es));
      assert mine + [] == mine;
    }
  }

  function InSpan(u: string, run: seq<RateLimiter.Answer>, lo: real, hi: real): nat {
    RateLimiter.Admitted(RateLimiter.AnswersTo(u, run), lo, hi)
  }

  lemma PassedOneMore(l: RateLimiter.Limits, s: RateLimiter.Tables, clock: nat -> real, senders: seq<string>,
                      end: RateLimiter.Tables, sent: seq<RateLimiter.Decision>, raw: string, u: string, lo: real, hi: real)
    requires u != "" && |sent| == |senders| && end == RateLimiter.Left(l, s, Named(senders, clock))
    requires Passed(u, senders, sent, clock, lo, hi) == InSpan(u, RateLimiter.Run(l, s, Named(senders, clock)), lo, hi)
    ensures var d := Respond(l, end, raw, clock(|senders|)).1;
      Passed(u, senders + [SenderOf(raw)], sent + [d], clock, lo, hi)
      == InSpan(u, RateLimiter.Run(l, s, Named(senders + [SenderOf(raw)], clock)), lo, hi)
  {
    var v, d := SenderOf(raw), Respond(l, end, raw, clock(|senders|)).1;
    RespondBySender(l, end, raw, clock(|senders|));
    PassedSnoc(u, senders, sent, clock, lo, hi, v, d);
    if v == "" {
      NamedSnoc(senders, "", clock);
      assert Named(senders, clock) + [] == Named(senders, clock);
    } else {
      AdmittedOneMore(l, s, clock, senders, v, u, lo, hi);
    }
  }

  predicate PassedWell(l: RateLimiter.Limits, s: RateLimiter.Tables, clock: nat -> real, frames: seq<string>,
                       u: string, lo: real, hi: real) {
    Passed(u, Senders(frames), Serve(l, s, clock, frames).1, clock, lo, hi)
    == InSpan(u, RateLimiter.Run(l, s, Named(Senders(frames), clock)), lo, hi)
  }

  lemma PassedNone(l: RateLimiter.Limits, s: RateLimiter.Tables, clock: nat -> real, u: string, lo: real, hi: real)
    ensures PassedWell(l, s, clock, [], u, lo, hi)
  {
  }

  lemma PassedNext(l: RateLimiter.Limits, s: RateLimiter.Tables, clock: nat -> real, frames: seq<string>, raw: string,
                   u: string, lo: real, hi: real)
    requires u != "" && PassedWell(l, s, clock, frames, u, lo, hi)
    ensures PassedWell(l, s, clock, frames + [raw], u, lo, hi)
  {
    var (end, sent) := Serve(l, s, clock, frames);
    ServeOneMore(l, s, clock, frames, raw);
    SendersSnoc(frames, raw);
    ServedByName(l, s, clock, frames);
    PassedOneMore(l, s, clock, Senders(frames), end, sent, raw, u, lo, hi);
  }

  /** The OK answers to a named sender are the messages the tracker admits. */
  lemma {:induction false} PassedIsAdmitted(
    l: RateLimiter.Limits, s: RateLimiter.Tables, clock: nat -> real, frames: seq<string>, u: string, lo: real, hi: real)
    requires u != ""
    ensures PassedWell(l, s, clock, frames, u, lo, hi)
  {
    hide PassedWell;
    if frames == [] {
      PassedNone(l, s, clock, u, lo, hi);
    } else {
      var init, raw := frames[..|frames|-1], frames[|frames|-1];
      PassedIsAdmitted(l, s, clock, init, u, lo, hi);
      PassedNext(l, s, clock, init, raw, u, lo, hi);
      assert init + [raw] == frames;
    }
  }

  /** The clock the requests are decided by does not go back. */
  predicate Forward(clock: nat -> real, n: nat) { forall i: nat, j: nat :: i <= j < n ==> clock(i) <= clock(j) }

  lemma {:induction false} NamedOrdered(senders: seq<string>, clock: nat -> real)
    requires Forward(clock, |senders|)
    ensures RateLimiter.Ordered(Named(senders, clock), clock(0))
    ensures forall e :: e in Named(senders, clock) ==> exists i: nat :: i < |senders| && e.time == clock(i)
  {
    if senders != [] {
      var n := |senders| - 1;
      var before := Named(senders[..n], clock);
      NamedOrdered(senders[..n], clock);
      if senders[n] == "" {
        assert Named(senders, clock) == before + [] == before;
      } else {
        RateLimiter.OrderedSnoc(before, RateLimiter.Request(senders[n], clock(n)), clock(0));
      }
    }
  }

  lemma SpanBound(l: RateLimiter.Limits, clock: nat -> real, senders: seq<string>, u: string,
                  w: RateLimiter.Window, lo: real, k: nat)
    requires k >= 1 && Forward(clock, |senders|)
    ensures InSpan(u, RateLimiter.Run(l, RateLimiter.EMPTY, Named(senders, clock)), lo, RateLimiter.After(lo, w, k))
         <= (k + 1) * RateLimiter.Cap(l, w) - 1
  {
    NamedOrdered(senders, clock);
    RateLimiter.BoundAfter(l, u, Named(senders, clock), clock(0), w, lo, k);
  }

  /** On any stream from a fresh tracker, a closed interval of k windows holds at most (k+1)*cap - 1 OK answers to the
      requests that name one sender. */
  lemma PassedBound(l: RateLimiter.Limits, clock: nat -> real, frames: seq<string>, u: string,
                    w: RateLimiter.Window, lo: real, k: nat)
    requires u != "" && k >= 1 && Forward(clock, |frames|)
    ensures var sent := Serve(l, RateLimiter.EMPTY, clock, frames).1;
      Passed(u, Senders(frames), sent, clock, lo, RateLimiter.After(lo, w, k)) <= (k + 1) * RateLimiter.Cap(l, w) - 1
  {
    PassedIsAdmitted(l, RateLimiter.EMPTY, clock, frames, u, lo, RateLimiter.After(lo, w, k));
    SpanBound(l, clock, Senders(frames), u, w, lo, k);
  }

  /** Any two ways of cutting one stream into non-empty chunks are read alike. */
  lemma {:induction false} ReceivedNonEmpty(chunks: seq<string>)
    requires "" !in chunks
    ensures Received(chunks) == Concat(chunks)
  {
    if chunks != [] {
      ReceivedNonEmpty(chunks[1..]);
    }
  }

  lemma ChunkingIsInvisible(l: RateLimiter.Limits, s: RateLimiter.Tables, clock: nat -> real,
                            chunks: seq<string>, chunks': seq<string>)
    requires "" !in chunks && "" !in chunks' && Concat(chunks) == Concat(chunks')
    ensures Frames(Received(chunks)) == Frames(Received(chunks'))
    ensures var frames := Frames(Received(chunks)).0;
      var frames' := Frames(Received(chunks')).0;
      Map(Username, frames) == Map(Username, frames')
      && Serve(l, s, clock, frames) == Serve(l, s, clock, frames')
  {
    ReceivedNonEmpty(chunks);
    ReceivedNonEmpty(chunks');
  }

  // ---- Printing requests ----

  datatype Attribute = Attribute(name: string, value: string)

  predicate WellFormed(a: Attribute) {
    OneLine(a.name) && OneLine(a.value) && Trimmed(a.name) && Trimmed(a.value) && '=' !in a.name
  }

  function LineOf(a: Attribute): (r: string)
    ensures r != ""
  {
    a.name + "=" + a.value
  }

  /** The attribute lines of one request, without the blank line that ends it. */
  function Body(attrs: seq<Attribute>): (r: string)
    requires attrs != []
    ensures r != ""
  {
    if |attrs| == 1 then LineOf(attrs[0]) else LineOf(attrs[0]) + "\n" + Body(attrs[1..])
  }

  function Bodies(requests: seq<seq<Attribute>>): (r: seq<string>)
    requires [] !in requests
    ensures |r| == |requests|
  {
    if requests == [] then [] else
    assert requests[0] in requests;
    [Body(requests[0])] + Bodies(requests[1..])
  }

  function Dictionary(attrs: seq<Attribute>): map<string, string> {
    if attrs == [] then map[] else
    var last := attrs[|attrs|-1];
    Dictionary(attrs[..|attrs|-1])[last.name := last.value]
  }

  lemma EqualsSign(a: Attribute)
    requires '=' !in a.name
    ensures var l := LineOf(a);
      Index(l, "=") == Some(|a.name|) && l[..|a.name|] == a.name && l[|a.name|+1..] == a.value
  {
    var l := LineOf(a);
    forall j: nat | j < |a.name|
      ensures !At(l, j, "=")
    {
      assert l[j..j+1] == [a.name[j]];
    }
    IndexIs(l, "=", |a.name|);
  }

  lemma LineIsStripped(a: Attribute)
    requires WellFormed(a)
    ensures Strip(LineOf(a)) == LineOf(a) && Strip(a.name) == a.name && Strip(a.value) == a.value
  {
    var l := LineOf(a);
    StripFixpoint(l);
    StripFixpoint(a.name);
    StripFixpoint(a.value);
    assert l[0] == if a.name == "" then '=' else a.name[0];
    assert l[|l|-1] == if a.value == "" then '=' else a.value[|a.value|-1];
  }

  lemma LineParses(request: map<string, string>, a: Attribute)
    requires WellFormed(a)
    ensures WithLine(request, LineOf(a)) == request[a.name := a.value]
  {
    LineIsStripped(a);
    EqualsSign(a);
  }

  lemma LineOfOneLine(a: Attribute)
    requires WellFormed(a)
    ensures OneLine(LineOf(a))
  {
    forall c | c in LineOf(a)
      ensures !IsLineBreak(c)
    {
      if c !in a.name && c !in a.value {
        assert c == '=';
      }
    }
  }

  lemma {:induction false} LinesOfBody(attrs: seq<Attribute>)
    requires attrs != [] && forall a :: a in attrs ==> WellFormed(a)
    ensures Lines(Body(attrs)) == Map(LineOf, attrs)
  {
    LineOfOneLine(attrs[0]);
    if |attrs| > 1 {
      LinesOfBody(attrs[1..]);
      LinesFirst(LineOf(attrs[0]), Body(attrs[1..]));
    }
  }

  lemma {:induction false} AttributesOfLines(attrs: seq<Attribute>)
    requires forall a :: a in attrs ==> WellFormed(a)
    ensures Attributes(Map(LineOf, attrs)) == Dictionary(attrs)
  {
    if attrs != [] {
      var n := |attrs| - 1;
      AttributesOfLines(attrs[..n]);
      assert Map(LineOf, attrs)[..n] == Map(LineOf, attrs[..n]);
      LineParses(Dictionary(attrs[..n]), attrs[n]);
    }
  }

  lemma {:induction false} BodyUnbroken(attrs: seq<Attribute>)
    requires attrs != [] && forall a :: a in attrs ==> WellFormed(a)
    ensures Unbroken(Body(attrs)) && Body(attrs)[0] != '\n'
  {
    var line, body := LineOf(attrs[0]), Body(attrs);
    LineOfOneLine(attrs[0]);
    assert forall j :: 0 <= j < |line| ==> line[j] in line && !IsLineBreak(line[j]);
    forall i: nat | i < |body|
      ensures !At(body + DELIMITER, i, DELIMITER)
    {
      if i < |line| {
        assert (body + DELIMITER)[i..i+2][0] == line[i] != DELIMITER[0];
      } else {
        BodyUnbroken(attrs[1..]);
        UnbrokenTail(line, Body(attrs[1..]), i);
      }
    }
  }

  /** Past the first line nothing new can match. */
  lemma UnbrokenTail(line: string, more: string, i: nat)
    requires Unbroken(more) && more != "" && more[0] != '\n' && |line| <= i < |line| + 1 + |more|
    ensures !At(line + "\n" + more + DELIMITER, i, DELIMITER)
  {
    var s := line + "\n" + more + DELIMITER;
    if i == |line| {
      assert s[i..i+2][1] == more[0] != DELIMITER[1];
    } else {
      var k := i - |line| - 1;
      assert !At(more + DELIMITER, k, DELIMITER);
      assert s[i..i+2] == (more + DELIMITER)[k..k+2];
    }
  }

  lemma {:induction false} BodiesUnbroken(requests: seq<seq<Attribute>>)
    requires [] !in requests && forall r, a :: r in requests && a in r ==> WellFormed(a)
    ensures forall f :: f in Bodies(requests) ==> Unbroken(f)
    ensures forall i :: 0 <= i < |requests| ==>
      requests[i] != [] && Bodies(requests)[i] == Body(requests[i])
  {
    if requests != [] {
      assert requests[0] in requests;
      BodyUnbroken(requests[0]);
      BodiesUnbroken(requests[1..]);
    }
  }

  /** A printed list of well-formed requests is read back exactly, however it is cut into chunks. */
  lemma PrintedRequestsReadBack(requests: seq<seq<Attribute>>, chunks: seq<string>)
    requires [] !in requests && forall r, a :: r in requests && a in r ==> WellFormed(a)
    requires "" !in chunks && Concat(chunks) == Delimited(Bodies(requests), "")
    ensures var (frames, rest) := Frames(Received(chunks));
      rest == "" && |frames| == |requests|
      && forall i :: 0 <= i < |requests| ==> Attributes(Lines(frames[i])) == Dictionary(requests[i])
  {
    ReceivedNonEmpty(chunks);
    BodiesUnbroken(requests);
    FramesUnique(Bodies(requests), "");
    forall i | 0 <= i < |requests|
      ensures Attributes(Lines(Bodies(requests)[i])) == Dictionary(requests[i])
    {
      LinesOfBody(requests[i]);
      AttributesOfLines(requests[i]);
    }
  }

  /** The senders named in printed requests. */
  function PrintedSenders(requests: seq<seq<Attribute>>): (r: seq<string>)
    ensures |r| == |requests| && forall i :: 0 <= i < |r| ==> r[i] == Sender(Dictionary(requests[i]))
  {
    seq(|requests|, i requires 0 <= i < |requests| => Sender(Dictionary(requests[i])))
  }

  lemma PrintedSendersRead(requests: seq<seq<Attribute>>, frames: seq<string>)
    requires |frames| == |requests|
    requires forall i :: 0 <= i < |requests| ==> Attributes(Lines(frames[i])) == Dictionary(requests[i])
    ensures Senders(frames) == PrintedSenders(requests)
  {
    forall i | 0 <= i < |requests|
      ensures Senders(frames)[i] == PrintedSenders(requests)[i]
    {
      assert SenderOf(frames[i]) == Sender(Attributes(Lines(frames[i])));
    }
  }

  /** Printed requests, however cut: OK to the nameless ones, and to the others what the tracker decides, in order. */
  lemma PrintedRequestsServed(l: RateLimiter.Limits, s: RateLimiter.Tables, clock: nat -> real,
                              requests: seq<seq<Attribute>>, chunks: seq<string>)
    requires [] !in requests && forall r, a :: r in requests && a in r ==> WellFormed(a)
    requires "" !in chunks && Concat(chunks) == Delimited(Bodies(requests), "")
    ensures var (end, sent) := Serve(l, s, clock, Frames(Received(chunks)).0);
      AnsweredAs(l, s, clock, PrintedSenders(requests), end, sent)
  {
    var frames := Frames(Received(chunks)).0;
    PrintedRequestsReadBack(requests, chunks);
    ServedByName(l, s, clock, frames);
    PrintedSendersRead(requests, frames);
  }
}
