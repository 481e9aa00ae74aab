/** Shipping the append-only audit log off the box: reading from a byte cursor, sending, saving the cursor. */
module AuditExport {
  import opened Prelude
  import opened Text

  // ---- Lines and events ----

  datatype AuditEvent = AuditEvent(ts: string, action: string, actor: string, detail: string, source: string)

  function Source(ip: string): string { if ip == "" then "-" else ip }

  /** What `audit_log` appends. */
  function LogLine(ts: string, action: string, actor: string, details: string, ip: string): string {
    ts + "\t" + action + "\t" + actor + "\t" + Source(ip) + "\t" + details + "\n"
  }

  function DropNewlines(s: string): string {
    if s != "" && s[|s|-1] == '\n' then DropNewlines(s[..|s|-1]) else s
  }

  function ParseLine(raw: string): Option<AuditEvent> {
    var line := DropNewlines(raw);
    if line == "" || line[0] == '#' then None else
    var parts := Split(line, '\t');
    if |parts| < 5 then Some(AuditEvent(parts[0], "unknown", "", line, ""))
    else Some(AuditEvent(parts[0], parts[1], parts[2], parts[4], parts[3]))
  }

  lemma {:induction false} DropNewlinesAfter(p: string, d: string)
    requires p != "" && p[|p|-1] != '\n'
    ensures DropNewlines(p + d) == p + DropNewlines(d)
  {
    if d == "" {
      assert p + d == p && p + "" == p;
    } else if d[|d|-1] == '\n' {
      assert (p + d)[..|p + d|-1] == p + d[..|d|-1];
      DropNewlinesAfter(p, d[..|d|-1]);
    }
  }

  lemma {:induction false} DropNewlinesStops(s: string)
    ensures DropNewlines(s + "\n") == DropNewlines(s) && DropNewlines(s) <= s
    ensures DropNewlines(s) == s <==> s == "" || s[|s|-1] != '\n'
  {
    assert (s + "\n")[..|s|] == s;
    if s != "" && s[|s|-1] == '\n' {
      DropNewlinesStops(s[..|s|-1]);
    }
  }

  lemma {:induction false} SplitHeadIsPrefix(s: string, c: char)
    ensures Split(s, c)[0] <= s
  {
    if s != "" && s[0] != c {
      SplitHeadIsPrefix(s[1..], c);
      assert s == [s[0]] + s[1..];
    }
  }

  predicate TabFree(ts: string, action: string, actor: string, ip: string) {
    '\t' !in ts && '\t' !in action && '\t' !in actor && '\t' !in ip
  }

  lemma FourParts(a: string, b: string, c: string, d: string, rest: string)
    requires TabFree(a, b, c, d)
    ensures Split(a + "\t" + b + "\t" + c + "\t" + d + "\t" + rest, '\t') == [a, b, c, d] + Split(rest, '\t')
  {
    var s3 := d + ['\t'] + rest;
    var s2 := c + ['\t'] + s3;
    var s1 := b + ['\t'] + s2;
    assert a + "\t" + b + "\t" + c + "\t" + d + "\t" + rest == a + ['\t'] + s1;
    SplitFirst(a, '\t', s1);
    SplitFirst(b, '\t', s2);
    SplitFirst(c, '\t', s3);
    SplitFirst(d, '\t', rest);
  }

  function Head(ts: string, action: string, actor: string, ip: string): (r: string)
    ensures r != "" && r[|r|-1] == '\t'
  {
    ts + "\t" + action + "\t" + actor + "\t" + Source(ip) + "\t"
  }

  lemma LogLineParts(ts: string, action: string, actor: string, details: string, ip: string)
    ensures var line := DropNewlines(LogLine(ts, action, actor, details, ip));
      && line == Head(ts, action, actor, ip) + DropNewlines(details)
      && (TabFree(ts, action, actor, ip) ==>
            Split(line, '\t') == [ts, action, actor, Source(ip)] + Split(DropNewlines(details), '\t'))
  {
    var head := Head(ts, action, actor, ip);
    assert LogLine(ts, action, actor, details, ip) == head + (details + "\n");
    DropNewlinesAfter(head, details + "\n");
    DropNewlinesStops(details);
    if TabFree(ts, action, actor, ip) {
      FourParts(ts, action, actor, Source(ip), DropNewlines(details));
    }
  }

  /** Given the written text as one string, the parser recovers the fields exactly when none holds a tab, the
      details do not end in a newline and the timestamp does not look like a comment. */
  lemma LogLineParsesIff(ts: string, action: string, actor: string, details: string, ip: string)
    ensures ParseLine(LogLine(ts, action, actor, details, ip))
         == Some(AuditEvent(ts, action, actor, details, Source(ip)))
      <==> TabFree(ts, action, actor, ip) && '\t' !in details
           && (details == "" || details[|details|-1] != '\n') && (ts == "" || ts[0] != '#')
  {
    var raw := LogLine(ts, action, actor, details, ip);
    var event := AuditEvent(ts, action, actor, details, Source(ip));
    var line := DropNewlines(raw);
    LogLineParts(ts, action, actor, details, ip);
    assert line != "" && line[0] == if ts == "" then '\t' else ts[0];
    DropNewlinesStops(details);
    if ParseLine(raw) == Some(event) {
      var parts := Split(line, '\t');
      assert parts[0] in parts && parts[1] in parts && parts[2] in parts && parts[3] in parts && parts[4] in parts;
    }
    if TabFree(ts, action, actor, ip) {
      SplitHeadIsPrefix(DropNewlines(details), '\t');
    }
  }

  // ---- Reading from a cursor ----

  /** Text that ends where a line ends and in which text mode shifts nothing. */
  predicate WholeLines(text: string) { Whole(IsNewline, text) && CrLfFree(text) }

  /** The lines of a file as its iterator yields them, newlines included. */
  function FileLines(text: string): seq<string> { KeptLines(IsNewline, Universal(text)) }

  lemma WholeUniversal(text: string)
    requires WholeLines(text)
    ensures |Universal(text)| == |text| && Whole(IsNewline, Universal(text))
  {
    UniversalPointwise(text);
  }

  lemma FileLinesAppend(a: string, b: string)
    requires WholeLines(a) && WholeLines(b)
    ensures FileLines(a + b) == FileLines(a) + FileLines(b)
  {
    var u, v := Universal(a), Universal(b);
    WholeUniversal(a);
    WholeUniversal(b);
    UniversalAppend(a, b);
    KeptLinesRebuild(IsNewline, u);
    KeptLinesRebuild(IsNewline, v);
    KeptLinesAreLines(IsNewline, u);
    KeptLinesAreLines(IsNewline, v);
    ConcatAppend(FileLines(a), FileLines(b));
    KeptLinesUnique(IsNewline, FileLines(a) + FileLines(b));
  }

  type Parser = string -> Option<AuditEvent>

  /** An event and the offset just past its line. */
  type Entry = (nat, AuditEvent)

  function First(event: Option<AuditEvent>, offset: nat): seq<Entry> {
    if event.Some? then [(offset, event.value)] else []
  }

  /** Blank and comment lines, for which `parse` gives None, take up space but yield nothing. */
  function Scan(parse: Parser, lines: seq<string>, offset: nat): seq<Entry>
    decreases lines
  {
    if lines == [] then [] else
    var next := offset + |lines[0]|;
    First(parse(lines[0]), next) + Scan(parse, lines[1..], next)
  }

  function IterFrom(parse: Parser, log: string, after: nat): seq<Entry> {
    if after > |log| then [] else Scan(parse, FileLines(log[after..]), after)
  }

  function IterNew(log: string, after: nat): seq<Entry> { IterFrom(ParseLine, log, after) }

  lemma ScanOneMore(parse: Parser, lines: seq<string>, i: nat, offset: nat)
    requires i < |lines|
    ensures Scan(parse, lines[i..], offset)
         == First(parse(lines[i]), offset + |lines[i]|) + Scan(parse, lines[i+1..], offset + |lines[i]|)
  {
    assert lines[i..][1..] == lines[i+1..];
  }

  method CollectNew(parse: Parser, log: string, after: nat) returns (batch: seq<Entry>)
    ensures batch == IterFrom(parse, log, after)
  {
    batch := [];
    if after > |log| { return; }
    var offset: nat, lines := after, FileLines(log[after..]);
    for i := 0 to |lines|
      invariant Scan(parse, lines, after) == batch + Scan(parse, lines[i..], offset)
    {
      var event := parse(lines[i]);
      ScanOneMore(parse, lines, i, offset);
      offset := offset + |lines[i]|;
      JoinAgain(batch, First(event, offset), Scan(parse, lines[i+1..], offset));
      batch := batch + if event.Some? then [(offset, event.value)] else [];
    }
  }

  lemma ScanCons(parse: Parser, line: string, rest: seq<string>, offset: nat)
    ensures Scan(parse, [line] + rest, offset)
         == First(parse(line), offset + |line|) + Scan(parse, rest, offset + |line|)
  {
    assert ([line] + rest)[1..] == rest;
  }

  lemma {:induction false} ScanAppend(parse: Parser, a: seq<string>, b: seq<string>, offset: nat)
    ensures Scan(parse, a + b, offset) == Scan(parse, a, offset) + Scan(parse, b, offset + |Concat(a)|)
    decreases a
  {
    if a == [] {
      assert a + b == b;
    } else {
      var line, rest, next := a[0], a[1..], offset + |a[0]|;
      assert a == [line] + rest && a + b == [line] + (rest + b);
      ScanAppend(parse, rest, b, next);
      ScanCons(parse, line, rest, offset);
      ScanCons(parse, line, rest + b, offset);
      JoinAgain(First(parse(line), next), Scan(parse, rest, next), Scan(parse, b, next + |Concat(rest)|));
    }
  }

  /** Offsets tell entries apart, and grow along the log. */
  predicate Increasing(all: seq<Entry>) { forall i, j :: 0 <= i < j < |all| ==> all[i].0 < all[j].0 }

  lemma {:induction false} ScanBounds(parse: Parser, lines: seq<string>, offset: nat)
    requires "" !in lines
    ensures forall e :: e in Scan(parse, lines, offset) ==> offset < e.0 <= offset + |Concat(lines)|
    decreases lines
  {
    if lines != [] {
      assert lines[0] in lines;
      ScanBounds(parse, lines[1..], offset + |lines[0]|);
    }
  }

  lemma ConsIncreases(e: Entry, all: seq<Entry>)
    requires Increasing(all) && forall x :: x in all ==> e.0 < x.0
    ensures Increasing([e] + all)
  {
  }

  lemma {:induction false} ScanIncreases(parse: Parser, lines: seq<string>, offset: nat)
    requires "" !in lines
    ensures Increasing(Scan(parse, lines, offset))
    decreases lines
  {
    if lines != [] {
      var next := offset + |lines[0]|;
      var event, rest := parse(lines[0]), Scan(parse, lines[1..], next);
      ScanIncreases(parse, lines[1..], next);
      ScanBounds(parse, lines[1..], next);
      if event.Some? {
        ConsIncreases((next, event.value), rest);
      } else {
        assert [] + rest == rest;
      }
    }
  }

  /** Where to resume after the first `i` events. */
  function OffsetAt(all: seq<Entry>, i: nat): nat
    requires i <= |all|
  {
    if i == 0 then 0 else all[i-1].0
  }

  lemma LinesShifted(lines: seq<string>, k: nat)
    requires k < |lines|
    ensures |Concat(lines[..k+1])| == |lines[0]| + |Concat(lines[1..][..k])| && lines[k+1..] == lines[1..][k..]
  {
    assert lines[..k+1][1..] == lines[1..][..k];
  }

  /** After `i` events some number of whole lines has been read, and the rest of the scan starts there. */
  lemma {:induction false} ScanResumes(parse: Parser, lines: seq<string>, offset: nat, i: nat) returns (k: nat)
    requires 0 < i <= |Scan(parse, lines, offset)|
    ensures var all := Scan(parse, lines, offset);
      && k <= |lines| && all[i-1].0 == offset + |Concat(lines[..k])|
      && Scan(parse, lines[k..], all[i-1].0) == all[i..]
    decreases lines
  {
    var next := offset + |lines[0]|;
    var head, rest := First(parse(lines[0]), next), Scan(parse, lines[1..], next);
    var all := head + rest;
    assert all == Scan(parse, lines, offset);
    if i > |head| {
      var k' := ScanResumes(parse, lines[1..], next, i - |head|);
      k := k' + 1;
      LinesShifted(lines, k');
      DropAppend(head, rest, i);
    } else {
      k := 1;
      assert lines[..1] == [lines[0]] && Concat([lines[0]]) == lines[0] + Concat([]);
      assert all[i..] == rest;
    }
  }

  /** The file from a line boundary on is the remaining lines. */
  lemma LinesFrom(log: string, k: nat)
    requires WholeLines(log) && k <= |FileLines(log)|
    ensures var n := |Concat(FileLines(log)[..k])|; n <= |log| && FileLines(log[n..]) == FileLines(log)[k..]
  {
    var lines, text := FileLines(log), Universal(log);
    WholeUniversal(log);
    KeptLinesRebuild(IsNewline, text);
    KeptLinesAreLines(IsNewline, text);
    assert lines == lines[..k] + lines[k..];
    ConcatAppend(lines[..k], lines[k..]);
    var n := |Concat(lines[..k])|;
    assert text[n..] == Concat(lines[k..]);
    UniversalFrom(log, n);
    KeptLinesUnique(IsNewline, lines[k..]);
  }

  /** Reading from the offset of the i-th event gives exactly the events after it. */
  lemma CursorComposes(parse: Parser, log: string, i: nat)
    requires WholeLines(log) && i <= |IterFrom(parse, log, 0)|
    ensures var all := IterFrom(parse, log, 0);
      OffsetAt(all, i) <= |log| && IterFrom(parse, log, OffsetAt(all, i)) == all[i..]
  {
    assert log[0..] == log;
    if i > 0 {
      var k := ScanResumes(parse, FileLines(log), 0, i);
      LinesFrom(log, k);
    }
  }

  lemma NoEmptyLine(lines: seq<string>)
    requires AllLines(IsNewline, lines)
    ensures "" !in lines
  {
  }

  lemma LogIncreases(parse: Parser, log: string)
    requires WholeLines(log)
    ensures Increasing(IterFrom(parse, log, 0))
    ensures forall e :: e in IterFrom(parse, log, 0) ==> e.0 > 0
  {
    assert log[0..] == log;
    WholeUniversal(log);
    KeptLinesAreLines(IsNewline, Universal(log));
    NoEmptyLine(FileLines(log));
    ScanIncreases(parse, FileLines(log), 0);
    ScanBounds(parse, FileLines(log), 0);
  }

  lemma IterAll(parse: Parser, log: string)
    ensures IterFrom(parse, log, 0) == Scan(parse, FileLines(log), 0)
  {
    assert log[0..] == log;
  }

  lemma WholeAppend(a: string, b: string)
    requires WholeLines(a) && WholeLines(b)
    ensures WholeLines(a + b)
  {
    assert b == "" ==> a + b == a;
    UniversalAppend(a, b);
  }

  lemma {:induction false} ScanOfParts(parse: Parser, whole: seq<string>, a: seq<string>, b: seq<string>, n: nat)
    requires whole == a + b && |Concat(a)| == n
    ensures Scan(parse, whole, 0) == Scan(parse, a, 0) + Scan(parse, b, n)
  {
    ScanAppend(parse, a, b, 0);
  }

  lemma {:induction false} FileLinesLength(text: string)
    requires WholeLines(text)
    ensures |Concat(FileLines(text))| == |text|
  {
    WholeUniversal(text);
    KeptLinesRebuild(IsNewline, Universal(text));
  }

  lemma {:induction false} ScanFileAppend(parse: Parser, log: string, text: string)
    requires WholeLines(log) && WholeLines(text)
    ensures Scan(parse, FileLines(log + text), 0) == Scan(parse, FileLines(log), 0) + Scan(parse, FileLines(text), |log|)
  {
    FileLinesAppend(log, text);
    FileLinesLength(log);
    ScanOfParts(parse, FileLines(log + text), FileLines(log), FileLines(text), |log|);
  }

  /** Appending whole lines adds their events and disturbs nothing before them. */
  lemma {:induction false} AllAppended(parse: Parser, log: string, text: string)
    requires WholeLines(log) && WholeLines(text)
    ensures WholeLines(log + text)
    ensures IterFrom(parse, log + text, 0) == IterFrom(parse, log, 0) + Scan(parse, FileLines(text), |log|)
  {
    WholeAppend(log, text);
    IterAll(parse, log);
    IterAll(parse, log + text);
    ScanFileAppend(parse, log, text);
  }

  predicate OnOneLine(s: string) { '\n' !in s && '\r' !in s }

  predicate EventOnOneLine(e: AuditEvent) {
    OnOneLine(e.ts) && OnOneLine(e.action) && OnOneLine(e.actor) && OnOneLine(e.detail) && OnOneLine(e.source)
  }

  /** What the parser makes of a line of the file has nothing of the line's end in it. */
  lemma ParsedOnOneLine(raw: string)
    requires '\r' !in raw && forall i :: 0 <= i < |raw| - 1 ==> raw[i] != '\n'
    ensures ParseLine(raw).Some? ==> EventOnOneLine(ParseLine(raw).value)
  {
    var line := DropNewlines(raw);
    DropNewlinesStops(raw);
    if line != "" {
      LineBody(raw);
      PartsInside(line, '\t');
    }
  }

  lemma LineBody(raw: string)
    requires '\r' !in raw && forall i :: 0 <= i < |raw| - 1 ==> raw[i] != '\n'
    ensures OnOneLine(DropNewlines(raw))
  {
    var line := DropNewlines(raw);
    if raw != "" && raw[|raw|-1] == '\n' {
      var body := raw[..|raw|-1];
      assert raw == body + "\n";
      DropNewlinesStops(body);
      assert forall c :: c in body ==> c in raw && c != '\n';
      assert line == body;
    } else {
      DropNewlinesStops(raw);
      assert line == raw;
    }
  }

  lemma {:induction false} ScannedFrom(parse: Parser, lines: seq<string>, offset: nat, e: Entry)
    requires e in Scan(parse, lines, offset)
    ensures exists line :: line in lines && parse(line) == Some(e.1)
    decreases lines
  {
    var next := offset + |lines[0]|;
    if e !in First(parse(lines[0]), next) {
      ScannedFrom(parse, lines[1..], next, e);
      var line :| line in lines[1..] && parse(line) == Some(e.1);
      assert line in lines;
    } else {
      assert lines[0] in lines;
    }
  }

  /** No event the reader ever yields has a line end in a field. */
  lemma ReadOnOneLine(log: string, after: nat, e: Entry)
    requires e in IterNew(log, after)
    ensures EventOnOneLine(e.1)
  {
    var text := Universal(log[after..]);
    UniversalHasNoCr(log[after..]);
    KeptPieces(IsNewline, text);
    ScannedFrom(ParseLine, KeptLines(IsNewline, text), after, e);
    var line :| line in KeptLines(IsNewline, text) && ParseLine(line) == Some(e.1);
    ParsedOnOneLine(line);
  }

  lemma BodyIsLine(body: string)
    requires OnOneLine(body)
    ensures FileLines(body + "\n") == [body + "\n"]
  {
    var line := body + "\n";
    UniversalSame(line);
    assert forall i :: 0 <= i < |body| ==> line[i] == body[i] && body[i] in body;
    assert IsLine(IsNewline, line);
    FirstLine(IsNewline, line, "");
    assert line + "" == line && KeptLines(IsNewline, "") == [];
  }

  lemma LineReadAlone(log: string, body: string)
    requires OnOneLine(body)
    ensures var line := body + "\n";
      IterNew(log + line, |log|) == First(ParseLine(line), |log| + |line|)
  {
    var line := body + "\n";
    assert (log + line)[|log|..] == line;
    BodyIsLine(body);
    ScanOneMore(ParseLine, [line], 0, |log|);
    assert [line][0..] == [line] && [line][1..] == [];
    assert First(ParseLine(line), |log| + |line|) + [] == First(ParseLine(line), |log| + |line|);
  }

  /** The event that was logged is what is read from the old end of the log, exactly when no field holds a
      tab or a line end and the timestamp does not look like a comment. */
  lemma AppendedEventReadBackIff(log: string, ts: string, action: string, actor: string, details: string, ip: string)
    ensures var line := LogLine(ts, action, actor, details, ip);
      var event := AuditEvent(ts, action, actor, details, Source(ip));
      IterNew(log + line, |log|) == [(|log| + |line|, event)]
      <==> TabFree(ts, action, actor, ip) && '\t' !in details && (ts == "" || ts[0] != '#')
           && OnOneLine(ts) && OnOneLine(action) && OnOneLine(actor) && OnOneLine(ip) && OnOneLine(details)
  {
    var line := LogLine(ts, action, actor, details, ip);
    var event := AuditEvent(ts, action, actor, details, Source(ip));
    var entry := (|log| + |line|, event);
    if IterNew(log + line, |log|) == [entry] {
      ReadOnOneLine(log + line, |log|, entry);
    }
    if EventOnOneLine(event) {
      var body := ts + "\t" + action + "\t" + actor + "\t" + Source(ip) + "\t" + details;
      assert line == body + "\n";
      LineReadAlone(log, body);
      LogLineParsesIff(ts, action, actor, details, ip);
    }
  }

  // ---- The saved cursor ----

  /** A missing, empty or unreadable file counts as zero. */
  function LoadPos(file: Option<string>): nat {
    if file.None? then 0 else
    var text := Strip(file.value);
    if text != "" && forall c :: c in text ==> IsDigit(c) then Numeral(text) else 0
  }

  lemma DigitsTrimmed(text: string)
    requires text != "" && forall c :: c in text ==> IsDigit(c)
    ensures Strip(text) == text
  {
    assert IsDigit(text[0]) && IsDigit(text[|text|-1]);
    StripFixpoint(text);
  }

  lemma SavedPosLoads(n: nat)
    ensures LoadPos(Some(Decimal(n))) == n
  {
    DigitsTrimmed(Decimal(n));
    DecimalReads(n);
  }

  // ---- One export ----

  datatype Config = Config(syslog: bool, siem: bool)

  /** What goes wrong in a run: a sender raising after some prefix got through, or a crash between two steps. */
  datatype Fault = Fine | SyslogRaises(delivered: nat) | CrashAfterSyslog | SiemRaises(delivered: nat) | CrashBeforeSave

  /** `syslog` and `siem` record everything ever handed to a destination, with its offset in the log. */
  datatype State = State(log: string, cursor: nat, syslog: seq<Entry>, siem: seq<Entry>)

  function Delivered(batch: seq<Entry>, n: nat): seq<Entry> {
    if n <= |batch| then batch[..n] else batch
  }

  function SyslogPart(cfg: Config, fault: Fault, batch: seq<Entry>): seq<Entry> {
    if !cfg.syslog then [] else if fault.SyslogRaises? then Delivered(batch, fault.delivered) else batch
  }

  function SiemPart(cfg: Config, fault: Fault, batch: seq<Entry>): seq<Entry> {
    if !cfg.siem || (cfg.syslog && fault.SyslogRaises?) || fault.CrashAfterSyslog? then []
    else if fault.SiemRaises? then Delivered(batch, fault.delivered) else batch
  }

  /** The run reaches the point where the cursor is saved. */
  predicate Completes(cfg: Config, fault: Fault) {
    match fault
    case Fine => true
    case SyslogRaises(_) => !cfg.syslog
    case SiemRaises(_) => !cfg.siem
    case CrashAfterSyslog => false
    case CrashBeforeSave => false
  }

  function Export(cfg: Config, s: State, fault: Fault): State {
    var batch := IterNew(s.log, s.cursor);
    if batch == [] then s else
    State(s.log,
          if Completes(cfg, fault) && (cfg.syslog || cfg.siem) then batch[|batch|-1].0 else s.cursor,
          s.syslog + SyslogPart(cfg, fault, batch),
          s.siem + SiemPart(cfg, fault, batch))
  }

  /** Events forwarded, counted once per destination; None when the run raised or died. */
  function Forwarded(cfg: Config, batch: seq<Entry>, fault: Fault): Option<nat> {
    if batch == [] then Some(0)
    else if !Completes(cfg, fault) then None
    else Some((if cfg.syslog then |batch| else 0) + (if cfg.siem then |batch| else 0))
  }

  lemma ExportOf(cfg: Config, s: State, fault: Fault, batch: seq<Entry>)
    requires batch == IterNew(s.log, s.cursor) && batch != []
    ensures Export(cfg, s, fault) == State(s.log,
      if Completes(cfg, fault) && (cfg.syslog || cfg.siem) then batch[|batch|-1].0 else s.cursor,
      s.syslog + SyslogPart(cfg, fault, batch), s.siem + SiemPart(cfg, fault, batch))
  {
  }

  lemma ForwardedMeans(cfg: Config, batch: seq<Entry>, fault: Fault)
    requires batch != []
    ensures var n := Forwarded(cfg, batch, fault);
      (n.Some? <==> Completes(cfg, fault)) && (n.Some? ==> (n.value > 0 <==> cfg.syslog || cfg.siem))
  {
  }

  class Exporter {
    const config: Config
    var log: string
    var posFile: Option<string>
    var syslog: seq<Entry>
    var siem: seq<Entry>

    function Current(): State
      reads this
    {
      State(log, LoadPos(posFile), syslog, siem)
    }

    constructor (config: Config, log: string)
      ensures this.config == config && Current() == State(log, 0, [], [])
    {
      this.config, this.log, posFile, syslog, siem := config, log, None, [], [];
    }

    method AppendLine(text: string)
      modifies `log
      ensures Current() == old(Current()).(log := old(log) + text)
    {
      log := log + text;
    }

    /** The number of events forwarded; None when the run raised or died, and then the cursor stays. */
    method RunOnce(fault: Fault) returns (forwarded: Option<nat>)
      modifies `posFile, `syslog, `siem
      ensures Current() == Export(config, old(Current()), fault)
      ensures forwarded == Forwarded(config, IterNew(log, LoadPos(old(posFile))), fault)
      ensures forwarded.None? ==> posFile == old(posFile)
    {
      ghost var before := Current();
      var pos := LoadPos(posFile);
      var batch := CollectNew(ParseLine, log, pos);
      if batch == [] {
        return Some(0);
      }
      ExportOf(config, before, fault, batch);
      ForwardedMeans(config, batch, fault);
      var count := Send(batch, fault);
      if count.None? {
        return None;
      }
      if count.value > 0 {
        posFile := Some(Decimal(batch[|batch|-1].0));
        SavedPosLoads(batch[|batch|-1].0);
      }
      forwarded := count;
    }

    method Send(batch: seq<Entry>, fault: Fault) returns (count: Option<nat>)
      requires batch != []
      modifies `syslog, `siem
      ensures syslog == old(syslog) + SyslogPart(config, fault, batch)
      ensures siem == old(siem) + SiemPart(config, fault, batch)
      ensures count == Forwarded(config, batch, fault)
      ensures fault == Fine ==>
        && syslog == old(syslog) + (if config.syslog then batch else [])
        && siem == old(siem) + (if config.siem then batch else [])
      ensures config.syslog && fault.SyslogRaises? && fault.delivered <= |batch| ==>
        syslog == old(syslog) + batch[..fault.delivered] && siem == old(siem) && count == None
      ensures config.siem && fault.SiemRaises? && fault.delivered <= |batch| ==>
        && syslog == old(syslog) + (if config.syslog then batch else [])
        && siem == old(siem) + batch[..fault.delivered] && count == None
    {
      count := Some(0);
      if config.syslog {
        if fault.SyslogRaises? {
          syslog := syslog + Delivered(batch, fault.delivered);
          return None;
        }
        syslog := syslog + batch;
        count := Some(count.value + |batch|);
      }
      if fault.CrashAfterSyslog? { return None; }
      if config.siem {
        if fault.SiemRaises? {
          siem := siem + Delivered(batch, fault.delivered);
          return None;
        }
        siem := siem + batch;
        count := Some(count.value + |batch|);
      }
      if fault.CrashBeforeSave? { return None; }
    }
  }

  // ---- Whole histories ----

  datatype Step = Append(text: string) | Run(fault: Fault)

  predicate GoodStep(step: Step) { step.Append? ==> WholeLines(step.text) }

  function Perform(cfg: Config, s: State, step: Step): State {
    match step
    case Append(text) => s.(log := s.log + text)
    case Run(fault) => Export(cfg, s, fault)
  }

  function History(cfg: Config, s: State, steps: seq<Step>): State
    decreases steps
  {
    if steps == [] then s else History(cfg, Perform(cfg, s, steps[0]), steps[1..])
  }

  /** How many events of the log a destination has been given, if each one it was given was either
      the first it had not seen yet or one it had seen before. */
  function HighWater(all: seq<Entry>, sent: seq<Entry>): (r: Option<nat>)
    ensures r.Some? ==> r.value <= |all|
  {
    if sent == [] then Some(0) else
    var last := sent[|sent|-1];
    match HighWater(all, sent[..|sent|-1])
    case None => None
    case Some(m) =>
      if m < |all| && last == all[m] then Some(m + 1)
      else if last in all[..m] then Some(m)
      else None
  }

  /** What a high-water mark says: exactly the first `m` events were handed over, and none
      before every earlier event of the log. */
  lemma {:induction false} HighWaterMeans(all: seq<Entry>, sent: seq<Entry>, m: nat)
    requires HighWater(all, sent) == Some(m) && Increasing(all)
    ensures forall e :: e in sent <==> e in all[..m]
    ensures forall k, j, j' :: 0 <= k < |sent| && 0 <= j' < j < |all| && sent[k] == all[j] ==> all[j'] in sent[..k]
  {
    if sent != [] {
      var n := |sent| - 1;
      var init, last := sent[..n], sent[n];
      var m' := HighWater(all, init).value;
      HighWaterMeans(all, init, m');
      assert sent == init + [last];
      assert m == m' + 1 ==> all[..m] == all[..m'] + [all[m']];
      forall k, j, j' | 0 <= k < |sent| && 0 <= j' < j < |all| && sent[k] == all[j]
        ensures all[j'] in sent[..k]
      {
        if k < n {
          assert init[k] == all[j] && init[..k] == sent[..k];
        } else {
          assert sent[..k] == init;
          assert j <= m';
          assert all[j'] in all[..m'];
        }
      }
    }
  }

  lemma KnownEntry(all: seq<Entry>, m: nat, i: nat)
    requires Increasing(all) && i < m <= |all|
    ensures all[i] in all[..m] && (m < |all| ==> all[i] != all[m])
  {
    assert all[..m][i] == all[i];
  }

  lemma HighWaterSnoc(all: seq<Entry>, sent: seq<Entry>, e: Entry, m: nat)
    requires HighWater(all, sent) == Some(m)
    ensures m < |all| && e == all[m] ==> HighWater(all, sent + [e]) == Some(m + 1)
    ensures !(m < |all| && e == all[m]) && e in all[..m] ==> HighWater(all, sent + [e]) == Some(m)
  {
    assert (sent + [e])[..|sent|] == sent;
  }

  lemma ResendOne(all: seq<Entry>, sent: seq<Entry>, m: nat, k: nat)
    requires HighWater(all, sent) == Some(m) && k <= m && k < |all| && Increasing(all)
    ensures HighWater(all, sent + [all[k]]) == Some(Max(m, k + 1))
  {
    if k < m {
      KnownEntry(all, m, k);
    }
    HighWaterSnoc(all, sent, all[k], m);
  }

  lemma SliceOneMore(all: seq<Entry>, sent: seq<Entry>, i: nat, k: nat)
    requires i <= k < |all|
    ensures sent + all[i..k+1] == (sent + all[i..k]) + [all[k]]
  {
    assert all[i..k+1] == all[i..k] + [all[k]];
  }

  lemma ResendStep(all: seq<Entry>, sent: seq<Entry>, i: nat, k: nat, m: nat)
    requires i <= k < |all| && k <= m && Increasing(all)
    requires HighWater(all, sent + all[i..k]) == Some(m)
    ensures HighWater(all, sent + all[i..k+1]) == Some(Max(m, k + 1))
  {
    SliceOneMore(all, sent, i, k);
    ResendOne(all, sent + all[i..k], m, k);
  }

  /** Resuming at event `i` and handing over everything before event `k` moves the mark to at least `k`. */
  lemma Resend(all: seq<Entry>, sent: seq<Entry>, m: nat, i: nat, k: nat)
    requires HighWater(all, sent) == Some(m) && i <= m && i <= k <= |all| && Increasing(all)
    ensures HighWater(all, sent + all[i..k]) == Some(Max(m, k))
  {
    assert sent + all[i..i] == sent;
    for j := i to k
      invariant HighWater(all, sent + all[i..j]) == Some(Max(m, j))
    {
      ResendStep(all, sent, i, j, Max(m, j));
    }
  }

  lemma {:induction false} HighWaterGrows(all: seq<Entry>, more: seq<Entry>, sent: seq<Entry>)
    requires HighWater(all, sent).Some? && Increasing(all + more)
    ensures HighWater(all + more, sent) == HighWater(all, sent)
  {
    if sent != [] {
      var n := |sent| - 1;
      HighWaterGrows(all, more, sent[..n]);
      var m := HighWater(all, sent[..n]).value;
      assert (all + more)[..m] == all[..m];
      if sent[n] in all[..m] {
        var i :| 0 <= i < m && all[..m][i] == sent[n];
        KnownEntry(all + more, m, i);
      }
    }
  }

  /** The cursor stands after event `i`, and a destination has everything up to there. */
  ghost predicate Caught(configured: bool, all: seq<Entry>, sent: seq<Entry>, i: nat) {
    if configured then HighWater(all, sent).Some? && i <= HighWater(all, sent).value else sent == []
  }

  ghost predicate Consistent(cfg: Config, s: State, i: nat) {
    var all := IterNew(s.log, 0);
    && WholeLines(s.log) && i <= |all| && s.cursor == OffsetAt(all, i)
    && Caught(cfg.syslog, all, s.syslog, i) && Caught(cfg.siem, all, s.siem, i)
  }

  lemma AppendConsistent(cfg: Config, s: State, i: nat, text: string)
    requires Consistent(cfg, s, i) && WholeLines(text)
    ensures Consistent(cfg, s.(log := s.log + text), i)
  {
    var all, more := IterNew(s.log, 0), Scan(ParseLine, FileLines(text), |s.log|);
    AllAppended(ParseLine, s.log, text);
    LogIncreases(ParseLine, s.log + text);
    if cfg.syslog {
      HighWaterGrows(all, more, s.syslog);
    }
    if cfg.siem {
      HighWaterGrows(all, more, s.siem);
    }
  }

  /** A destination that was given a prefix of the batch may have the cursor moved past that prefix. */
  lemma HandedOver(configured: bool, all: seq<Entry>, sent: seq<Entry>, part: seq<Entry>, i: nat, i': nat)
    requires i <= |all| && Caught(configured, all, sent, i) && Increasing(all)
    requires if configured then part <= all[i..] && i' <= i + |part| else part == []
    ensures Caught(configured, all, sent + part, i')
  {
    if configured {
      PartMoves(all, sent, HighWater(all, sent).value, part, i);
    } else {
      assert sent + part == [];
    }
  }

  lemma PartMoves(all: seq<Entry>, sent: seq<Entry>, m: nat, part: seq<Entry>, i: nat)
    requires HighWater(all, sent) == Some(m) && i <= m && i <= |all| && part <= all[i..] && Increasing(all)
    ensures HighWater(all, sent + part) == Some(Max(m, i + |part|))
  {
    var k := i + |part|;
    PrefixSlice(all, part, i);
    assert part == all[i..k];
    Resend(all, sent, m, i, k);
  }

  lemma PrefixSlice(all: seq<Entry>, part: seq<Entry>, i: nat)
    requires i <= |all| && part <= all[i..]
    ensures part == all[i..i+|part|]
  {
  }

  /** What one run hands to one destination: a prefix of the batch, all of it when the run completes. */
  lemma PartIsPrefix(cfg: Config, fault: Fault, batch: seq<Entry>)
    ensures SyslogPart(cfg, fault, batch) <= batch && SiemPart(cfg, fault, batch) <= batch
    ensures Completes(cfg, fault) ==> SyslogPart(cfg, fault, batch) == if cfg.syslog then batch else []
    ensures Completes(cfg, fault) ==> SiemPart(cfg, fault, batch) == if cfg.siem then batch else []
    ensures !cfg.syslog ==> SyslogPart(cfg, fault, batch) == []
    ensures !cfg.siem ==> SiemPart(cfg, fault, batch) == []
  {
  }

  lemma BatchIsRest(cfg: Config, s: State, i: nat)
    requires Consistent(cfg, s, i)
    ensures IterNew(s.log, s.cursor) == IterNew(s.log, 0)[i..]
  {
    CursorComposes(ParseLine, s.log, i);
  }

  lemma LastOffset(all: seq<Entry>, i: nat)
    requires i < |all|
    ensures OffsetAt(all, |all|) == all[i..][|all|-i-1].0
  {
  }

  function CursorAfter(cfg: Config, fault: Fault, all: seq<Entry>, i: nat): nat {
    if Completes(cfg, fault) && (cfg.syslog || cfg.siem) then |all| else i
  }

  /** A run that found something, with its parts named. */
  lemma ExportSome(cfg: Config, s: State, i: nat, fault: Fault)
    requires Consistent(cfg, s, i) && i < |IterNew(s.log, 0)|
    ensures var all := IterNew(s.log, 0);
      Export(cfg, s, fault) == State(s.log, OffsetAt(all, CursorAfter(cfg, fault, all, i)),
        s.syslog + SyslogPart(cfg, fault, all[i..]), s.siem + SiemPart(cfg, fault, all[i..]))
  {
    BatchIsRest(cfg, s, i);
    ExportOf(cfg, s, fault, IterNew(s.log, 0)[i..]);
    LastOffset(IterNew(s.log, 0), i);
  }

  /** What a run leaves, with its parts named. */
  lemma ExportParts(cfg: Config, s: State, i: nat, fault: Fault) returns (i': nat, sys: seq<Entry>, siem: seq<Entry>)
    requires Consistent(cfg, s, i)
    ensures var all := IterNew(s.log, 0);
      && i' <= |all| && Export(cfg, s, fault) == State(s.log, OffsetAt(all, i'), s.syslog + sys, s.siem + siem)
      && (if cfg.syslog then sys <= all[i..] && i' <= i + |sys| else sys == [])
      && (if cfg.siem then siem <= all[i..] && i' <= i + |siem| else siem == [])
  {
    var all := IterNew(s.log, 0);
    if i == |all| {
      BatchIsRest(cfg, s, i);
      i', sys, siem := i, [], [];
      assert s.syslog + [] == s.syslog && s.siem + [] == s.siem;
    } else {
      ExportSome(cfg, s, i, fault);
      PartIsPrefix(cfg, fault, all[i..]);
      i', sys, siem := CursorAfter(cfg, fault, all, i), SyslogPart(cfg, fault, all[i..]), SiemPart(cfg, fault, all[i..]);
    }
  }

  lemma ExportConsistent(cfg: Config, s: State, i: nat, fault: Fault) returns (i': nat)
    requires Consistent(cfg, s, i)
    ensures Consistent(cfg, Export(cfg, s, fault), i')
  {
    var sys, siem;
    i', sys, siem := ExportParts(cfg, s, i, fault);
    LogIncreases(ParseLine, s.log);
    HandedOver(cfg.syslog, IterNew(s.log, 0), s.syslog, sys, i, i');
    HandedOver(cfg.siem, IterNew(s.log, 0), s.siem, siem, i, i');
  }

  lemma {:induction false} HistoryConsistent(cfg: Config, s: State, i: nat, steps: seq<Step>) returns (i': nat)
    requires Consistent(cfg, s, i) && forall step :: step in steps ==> GoodStep(step)
    ensures Consistent(cfg, History(cfg, s, steps), i')
    decreases steps
  {
    i' := i;
    if steps != [] {
      assert GoodStep(steps[0]) by { assert steps[0] in steps; }
      match steps[0] {
        case Append(text) => AppendConsistent(cfg, s, i, text);
        case Run(fault) => i' := ExportConsistent(cfg, s, i, fault);
      }
      i' := HistoryConsistent(cfg, Perform(cfg, s, steps[0]), i', steps[1..]);
    }
  }

  /** `sent` holds an initial segment of the log that covers everything up to the cursor,
      with first occurrences in log order. */
  ghost predicate NothingSkipped(all: seq<Entry>, sent: seq<Entry>, cursor: nat) {
    && (forall e :: e in sent ==> e in all)
    && (forall j :: 0 <= j < |all| && all[j].0 <= cursor ==> all[j] in sent)
    && (forall k, j, j' :: 0 <= k < |sent| && 0 <= j' < j < |all| && sent[k] == all[j] ==> all[j'] in sent[..k])
  }

  lemma CaughtMeans(log: string, sent: seq<Entry>, i: nat)
    requires var all := IterNew(log, 0); WholeLines(log) && i <= |all| && Caught(true, all, sent, i)
    ensures var all := IterNew(log, 0); NothingSkipped(all, sent, OffsetAt(all, i))
  {
    var all := IterNew(log, 0);
    LogIncreases(ParseLine, log);
    var m := HighWater(all, sent).value;
    HighWaterMeans(all, sent, m);
    forall j | 0 <= j < |all| && all[j].0 <= OffsetAt(all, i)
      ensures all[j] in sent
    {
      assert all[j] in all;
      assert j < i;
      assert all[..m][j] == all[j];
    }
  }

  /** Over every interleaving of appends, runs, partial failures and crashes, nothing is ever skipped. */
  lemma EveryHistorySkipsNothing(cfg: Config, log: string, steps: seq<Step>)
    requires WholeLines(log) && forall step :: step in steps ==> GoodStep(step)
    ensures var s := History(cfg, State(log, 0, [], []), steps);
      && (if cfg.syslog then NothingSkipped(IterNew(s.log, 0), s.syslog, s.cursor) else s.syslog == [])
      && (if cfg.siem then NothingSkipped(IterNew(s.log, 0), s.siem, s.cursor) else s.siem == [])
  {
    var i := HistoryConsistent(cfg, State(log, 0, [], []), 0, steps);
    var s := History(cfg, State(log, 0, [], []), steps);
    if cfg.syslog {
      CaughtMeans(s.log, s.syslog, i);
    }
    if cfg.siem {
      CaughtMeans(s.log, s.siem, i);
    }
  }

  // ---- Without failures ----

  predicate NoFailure(step: Step) { GoodStep(step) && (step.Run? ==> step.fault.Fine?) }

  ghost predicate ExactlyOnce(cfg: Config, s: State, i: nat) {
    var all := IterNew(s.log, 0);
    && WholeLines(s.log) && i <= |all| && s.cursor == OffsetAt(all, i)
    && s.syslog == (if cfg.syslog then all[..i] else []) && s.siem == (if cfg.siem then all[..i] else [])
  }

  lemma AppendExactlyOnce(cfg: Config, s: State, i: nat, text: string)
    requires ExactlyOnce(cfg, s, i) && WholeLines(text)
    ensures ExactlyOnce(cfg, s.(log := s.log + text), i)
  {
    var all := IterNew(s.log, 0);
    AllAppended(ParseLine, s.log, text);
    assert (all + Scan(ParseLine, FileLines(text), |s.log|))[..i] == all[..i];
  }

  /** A run that meets no fault hands over exactly what lies beyond the cursor, and moves it to the end. */
  lemma FineExport(cfg: Config, s: State, i: nat)
    requires var all := IterNew(s.log, 0); WholeLines(s.log) && i <= |all| && s.cursor == OffsetAt(all, i)
    requires cfg.syslog || cfg.siem
    ensures var all := IterNew(s.log, 0);
      Export(cfg, s, Fine) == State(s.log, OffsetAt(all, |all|),
        s.syslog + (if cfg.syslog then all[i..] else []), s.siem + (if cfg.siem then all[i..] else []))
  {
    var all, batch := IterNew(s.log, 0), IterNew(s.log, s.cursor);
    assert batch == all[i..] by { CursorComposes(ParseLine, s.log, i); }
    PartIsPrefix(cfg, Fine, batch);
    if batch != [] {
      assert batch[|batch|-1] == all[|all|-1];
    } else {
      assert s.syslog + [] == s.syslog && s.siem + [] == s.siem;
    }
  }

  lemma RunExactlyOnce(cfg: Config, s: State, i: nat)
    requires ExactlyOnce(cfg, s, i) && (cfg.syslog || cfg.siem)
    ensures ExactlyOnce(cfg, Export(cfg, s, Fine), |IterNew(s.log, 0)|)
  {
    var all := IterNew(s.log, 0);
    FineExport(cfg, s, i);
    WholeBatch(all, i);
  }

  lemma WholeBatch(all: seq<Entry>, i: nat)
    requires i <= |all|
    ensures all[..i] + all[i..] == all[..|all|] == all && (all[i..] == [] ==> i == |all|)
  {
  }

  lemma StepExactlyOnce(cfg: Config, s: State, i: nat, step: Step) returns (i': nat)
    requires ExactlyOnce(cfg, s, i) && NoFailure(step) && (cfg.syslog || cfg.siem)
    ensures ExactlyOnce(cfg, Perform(cfg, s, step), i')
    ensures step.Run? ==> i' == |IterNew(s.log, 0)|
  {
    match step
    case Append(text) =>
      i' := i;
      AppendExactlyOnce(cfg, s, i, text);
    case Run(_) =>
      i' := |IterNew(s.log, 0)|;
      RunExactlyOnce(cfg, s, i);
  }

  lemma {:induction false} HistoryExactlyOnce(cfg: Config, s: State, i: nat, steps: seq<Step>) returns (i': nat)
    requires ExactlyOnce(cfg, s, i) && (cfg.syslog || cfg.siem)
    requires forall step :: step in steps ==> NoFailure(step)
    ensures ExactlyOnce(cfg, History(cfg, s, steps), i')
    ensures steps != [] && steps[|steps|-1].Run? ==> i' == |IterNew(History(cfg, s, steps).log, 0)|
    decreases steps
  {
    i' := i;
    if steps != [] {
      assert steps[0] in steps;
      i' := StepExactlyOnce(cfg, s, i, steps[0]);
      i' := HistoryExactlyOnce(cfg, Perform(cfg, s, steps[0]), i', steps[1..]);
    }
  }

  /** A failure-free history ending in a run has delivered each event exactly once, in order. */
  lemma NoFailuresNoDuplicates(cfg: Config, log: string, steps: seq<Step>)
    requires WholeLines(log) && (cfg.syslog || cfg.siem)
    requires forall step :: step in steps ==> NoFailure(step)
    requires steps != [] && steps[|steps|-1].Run?
    ensures var s := History(cfg, State(log, 0, [], []), steps);
      (cfg.syslog ==> s.syslog == IterNew(s.log, 0)) && (cfg.siem ==> s.siem == IterNew(s.log, 0))
  {
    var s := History(cfg, State(log, 0, [], []), steps);
    var i := HistoryExactlyOnce(cfg, State(log, 0, [], []), 0, steps);
    assert IterNew(s.log, 0)[..i] == IterNew(s.log, 0);
  }

  // ---- "\r\n" in the log ----

  lemma {:induction false} ScanEnds(parse: Parser, lines: seq<string>, offset: nat)
    requires lines != [] && parse(lines[|lines|-1]).Some?
    ensures var all := Scan(parse, lines, offset); all != [] && all[|all|-1].0 == offset + |Concat(lines)|
    decreases lines
  {
    if |lines| == 1 {
      assert Concat(lines) == lines[0] + Concat(lines[1..]);
    } else {
      assert lines[1..][|lines|-2] == lines[|lines|-1];
      ScanEnds(parse, lines[1..], offset + |lines[0]|);
    }
  }

  /** The offsets count translated characters: when the last line holds an event, the cursor reaches the end
      of the file exactly when no line ends in "\r\n". */
  lemma CursorReachesEndIff(parse: Parser, log: string)
    requires FileLines(log) != [] && parse(FileLines(log)[|FileLines(log)|-1]).Some?
    ensures var all := IterFrom(parse, log, 0);
      all != [] && all[|all|-1].0 <= |log| && (all[|all|-1].0 == |log| <==> CrLfFree(log))
  {
    IterAll(parse, log);
    ScanEnds(parse, FileLines(log), 0);
    KeptLinesRebuild(IsNewline, Universal(log));
    UniversalShrinks(log);
  }

  // ---- What is safe with "\r\n" in the log ----

  /** Text mode takes two texts one after the other, unless a "\r\n" lies across the cut. */
  lemma {:induction false} UniversalSplits(a: string, b: string)
    requires a == "" || a[|a|-1] != '\r'
    ensures Universal(a + b) == Universal(a) + Universal(b)
    decreases |a|
  {
    if a == "" {
      assert a + b == b;
    } else {
      var k := if CrLfAt(a, 0) then 2 else 1;
      assert (a + b)[k..] == a[k..] + b;
      UniversalSplits(a[k..], b);
      UniversalHead(a, k);
      UniversalHead(a + b, k);
      JoinAgain([Translated(a[0])], Universal(a[k..]), Universal(b));
    }
  }

  lemma UniversalHead(s: string, k: nat)
    requires s != "" && k == if CrLfAt(s, 0) then 2 else 1
    ensures Universal(s) == [Translated(s[0])] + Universal(s[k..])
  {
  }

  lemma {:induction false} UniversalKeepsEnd(s: string)
    requires Whole(IsNewline, s)
    ensures Whole(IsNewline, Universal(s)) && (Universal(s) == "" <==> s == "")
    decreases |s|
  {
    if s != "" {
      var k := if CrLfAt(s, 0) then 2 else 1;
      UniversalHead(s, k);
      if k < |s| {
        UniversalKeepsEnd(s[k..]);
      } else {
        assert Universal(s[k..]) == "";
      }
    }
  }

  /** Whole lines in front are read on their own, whatever their ends. */
  lemma FileLinesSplit(a: string, b: string)
    requires Whole(IsNewline, a)
    ensures FileLines(a + b) == FileLines(a) + FileLines(b)
  {
    var u := Universal(a);
    UniversalSplits(a, b);
    UniversalKeepsEnd(a);
    KeptLinesAreLines(IsNewline, u);
    KeptLinesRebuild(IsNewline, u);
    KeptLinesAfter(IsNewline, FileLines(a), Universal(b));
  }

  predicate LineEnd(log: string, b: nat) { b <= |log| && Whole(IsNewline, log[..b]) }

  ghost predicate Sent(sent: seq<Entry>, event: AuditEvent) { exists e :: e in sent && e.1 == event }

  /** Every event among these lines was handed over, under whatever offset. */
  ghost predicate AllSent(lines: seq<string>, sent: seq<Entry>) {
    forall line :: line in lines && ParseLine(line).Some? ==> Sent(sent, ParseLine(line).value)
  }

  lemma AllSentMore(lines: seq<string>, sent: seq<Entry>, part: seq<Entry>)
    requires AllSent(lines, sent)
    ensures AllSent(lines, sent + part)
  {
    forall line | line in lines && ParseLine(line).Some?
      ensures Sent(sent + part, ParseLine(line).value)
    {
      var e :| e in sent && e.1 == ParseLine(line).value;
      assert e in sent + part;
    }
  }

  lemma AllSentJoined(a: seq<string>, b: seq<string>, sent: seq<Entry>, batch: seq<Entry>)
    requires AllSent(a, sent) && AllSent(b, batch)
    ensures AllSent(a + b, sent + batch)
  {
    AllSentMore(a, sent, batch);
    forall line | line in b && ParseLine(line).Some?
      ensures Sent(sent + batch, ParseLine(line).value)
    {
      var e :| e in batch && e.1 == ParseLine(line).value;
      assert e in sent + batch;
    }
  }

  lemma FirstSent(line: string, offset: nat)
    ensures AllSent([line], First(ParseLine(line), offset))
  {
    if ParseLine(line).Some? {
      assert (offset, ParseLine(line).value) in First(ParseLine(line), offset);
    }
  }

  lemma {:induction false} ScanSends(lines: seq<string>, offset: nat)
    ensures AllSent(lines, Scan(ParseLine, lines, offset))
    decreases lines
  {
    if lines != [] {
      var next := offset + |lines[0]|;
      var head, rest := First(ParseLine(lines[0]), next), Scan(ParseLine, lines[1..], next);
      ScanSends(lines[1..], next);
      assert AllSent([lines[0]], head) by { FirstSent(lines[0], next); }
      AllSentJoined([lines[0]], lines[1..], head, rest);
      assert lines == [lines[0]] + lines[1..];
    }
  }

  /** From a cursor at or before a line end, a whole batch holds everything after that line end, and its offsets
      stay inside the file. */
  lemma BatchReaches(log: string, c: nat, b: nat)
    requires Whole(IsNewline, log) && LineEnd(log, b) && c <= b
    ensures AllSent(FileLines(log[b..]), IterNew(log, c))
    ensures forall e :: e in IterNew(log, c) ==> e.0 <= |log|
    ensures FileLines(log) == FileLines(log[..b]) + FileLines(log[b..])
  {
    var torn, rest := log[c..b], log[b..];
    assert log[c..] == torn + rest && log == log[..b] + rest;
    assert Whole(IsNewline, torn) by { assert c < b ==> torn[|torn|-1] == log[..b][b-1]; }
    FileLinesSplit(torn, rest);
    FileLinesSplit(log[..b], rest);
    ScanSends(FileLines(log[c..]), c);
    assert forall line :: line in FileLines(rest) ==> line in FileLines(log[c..]);
    OffsetsInside(log, c);
  }

  lemma OffsetsInside(log: string, c: nat)
    requires Whole(IsNewline, log) && c <= |log|
    ensures forall e :: e in IterNew(log, c) ==> e.0 <= |log|
  {
    var text := log[c..];
    UniversalKeepsEnd(text);
    UniversalShrinks(text);
    KeptLinesRebuild(IsNewline, Universal(text));
    KeptLinesAreLines(IsNewline, Universal(text));
    NoEmptyLine(FileLines(text));
    ScanBounds(ParseLine, FileLines(text), c);
  }

  /** The cursor is not past the line end `b`, and each destination has every event up to there. */
  ghost predicate Secured(cfg: Config, s: State, b: nat) {
    && Whole(IsNewline, s.log) && s.cursor <= b && LineEnd(s.log, b)
    && (cfg.syslog ==> AllSent(FileLines(s.log[..b]), s.syslog))
    && (cfg.siem ==> AllSent(FileLines(s.log[..b]), s.siem))
  }

  lemma AppendSecured(cfg: Config, s: State, b: nat, text: string)
    requires Secured(cfg, s, b) && Whole(IsNewline, text)
    ensures Secured(cfg, s.(log := s.log + text), b)
  {
    assert (s.log + text)[..b] == s.log[..b];
    assert text == "" ==> s.log + text == s.log;
  }

  lemma ExportIs(cfg: Config, s: State, fault: Fault)
    ensures var s', batch := Export(cfg, s, fault), IterNew(s.log, s.cursor);
      && s'.log == s.log && s'.syslog == s.syslog + SyslogPart(cfg, fault, batch)
      && s'.siem == s.siem + SiemPart(cfg, fault, batch)
      && (s'.cursor == s.cursor || (Completes(cfg, fault) && batch != [] && s'.cursor == batch[|batch|-1].0))
  {
    if IterNew(s.log, s.cursor) == [] {
      assert s.syslog + [] == s.syslog && s.siem + [] == s.siem;
    }
  }

  lemma ExportSecured(cfg: Config, s: State, b: nat, fault: Fault) returns (b': nat)
    requires Secured(cfg, s, b)
    ensures Secured(cfg, Export(cfg, s, fault), b') && (Completes(cfg, fault) ==> b' == |s.log|)
  {
    var batch := IterNew(s.log, s.cursor);
    ExportIs(cfg, s, fault);
    PartIsPrefix(cfg, fault, batch);
    b' := b;
    if Completes(cfg, fault) {
      b' := |s.log|;
      BatchReaches(s.log, s.cursor, b);
      assert s.log[..|s.log|] == s.log;
      if cfg.syslog {
        AllSentJoined(FileLines(s.log[..b]), FileLines(s.log[b..]), s.syslog, batch);
      }
      if cfg.siem {
        AllSentJoined(FileLines(s.log[..b]), FileLines(s.log[b..]), s.siem, batch);
      }
    } else {
      if cfg.syslog {
        AllSentMore(FileLines(s.log[..b]), s.syslog, SyslogPart(cfg, fault, batch));
      }
      if cfg.siem {
        AllSentMore(FileLines(s.log[..b]), s.siem, SiemPart(cfg, fault, batch));
      }
    }
  }

  predicate WholeStep(step: Step) { step.Append? ==> Whole(IsNewline, step.text) }

  lemma {:induction false} HistorySecured(cfg: Config, s: State, b: nat, steps: seq<Step>) returns (b': nat)
    requires Secured(cfg, s, b) && forall step :: step in steps ==> WholeStep(step)
    ensures Secured(cfg, History(cfg, s, steps), b') && (steps == [] ==> b' == b)
    ensures steps != [] && steps[|steps|-1].Run? && Completes(cfg, steps[|steps|-1].fault) ==>
      b' == |History(cfg, s, steps).log|
    decreases steps
  {
    b' := b;
    if steps != [] {
      assert WholeStep(steps[0]) by { assert steps[0] in steps; }
      match steps[0] {
        case Append(text) => AppendSecured(cfg, s, b, text);
        case Run(fault) => b' := ExportSecured(cfg, s, b, fault);
      }
      b' := HistorySecured(cfg, Perform(cfg, s, steps[0]), b', steps[1..]);
    }
  }

  lemma EarlierLines(log: string, b: nat, b': nat)
    requires LineEnd(log, b) && LineEnd(log, b') && b <= b'
    ensures forall line :: line in FileLines(log[..b]) ==> line in FileLines(log[..b'])
  {
    assert log[..b'] == log[..b] + log[b..b'];
    FileLinesSplit(log[..b], log[b..b']);
  }

  /** Whatever the ends of the appended lines: the cursor stays inside the file, no event in front of it is lost,
      and a run that completes leaves no event of the whole log unsent. Torn and repeated lines may be sent as well. */
  lemma EveryHistoryCovers(cfg: Config, log: string, steps: seq<Step>)
    requires Whole(IsNewline, log) && forall step :: step in steps ==> WholeStep(step)
    ensures var s := History(cfg, State(log, 0, [], []), steps);
      && s.cursor <= |s.log|
      && (forall b: nat :: b <= s.cursor && LineEnd(s.log, b) ==>
           && (cfg.syslog ==> AllSent(FileLines(s.log[..b]), s.syslog))
           && (cfg.siem ==> AllSent(FileLines(s.log[..b]), s.siem)))
      && (steps != [] && steps[|steps|-1].Run? && Completes(cfg, steps[|steps|-1].fault) ==>
           && (cfg.syslog ==> AllSent(FileLines(s.log), s.syslog))
           && (cfg.siem ==> AllSent(FileLines(s.log), s.siem)))
  {
    assert log[..0] == "" && FileLines("") == [];
    var b := HistorySecured(cfg, State(log, 0, [], []), 0, steps);
    var s := History(cfg, State(log, 0, [], []), steps);
    forall b0: nat | b0 <= s.cursor && LineEnd(s.log, b0)
      ensures forall line :: line in FileLines(s.log[..b0]) ==> line in FileLines(s.log[..b])
    {
      EarlierLines(s.log, b0, b);
    }
    assert s.log[..|s.log|] == s.log;
  }

  /** Behind two lines that end in "\r\n" the cursor falls two short: the next run reads the end of the last
      line again and sends it as an event of its own. */
  lemma CrLfRereads(a: string, b: string, c: string)
    requires OnOneLine(a) && OnOneLine(b) && OnOneLine(c) && c != "" && c[0] != '#' && c[|c|-1] !in "#\t"
    ensures var log := (a + "\r\n" + b + "\r\n") + (c + "\n");
      var all, last := IterNew(log, 0), [c[|c|-1]];
      && all != [] && all[|all|-1].0 == |log| - 2
      && IterNew(log, |log| - 2) == [(|log|, AuditEvent(last, "unknown", "", last, ""))]
  {
    var x, y := a + "\r\n" + b + "\r\n", c + "\n";
    TwoCrLf(a, b);
    LastOffsetBehind(x, c);
    LastCharacterReread(x + y, c[|c|-1]);
  }

  lemma EventBody(c: string)
    requires OnOneLine(c) && c != "" && c[0] != '#'
    ensures ParseLine(c + "\n").Some?
  {
    DropNewlinesStops(c);
    assert c[|c|-1] in c;
  }

  lemma LastOffsetBehind(x: string, c: string)
    requires Whole(IsNewline, x) && OnOneLine(c) && c != "" && c[0] != '#'
    ensures var all := IterNew(x + (c + "\n"), 0); all != [] && all[|all|-1].0 == |Universal(x)| + |c| + 1
  {
    var y, lines := c + "\n", FileLines(x + (c + "\n"));
    FileLinesSplit(x, y);
    BodyIsLine(c);
    EventBody(c);
    IterAll(ParseLine, x + y);
    ScanEnds(ParseLine, lines, 0);
    KeptLinesRebuild(IsNewline, Universal(x + y));
    UniversalSplits(x, y);
    UniversalSame(y);
  }

  lemma TwoCrLf(a: string, b: string)
    requires OnOneLine(a) && OnOneLine(b)
    ensures var x := a + "\r\n" + b + "\r\n"; Whole(IsNewline, x) && |Universal(x)| == |x| - 2
  {
    CrLfShortens(a);
    CrLfShortens(b);
    assert a + "\r\n" + b + "\r\n" == (a + "\r\n") + (b + "\r\n");
    UniversalSplits(a + "\r\n", b + "\r\n");
  }

  lemma CrLfShortens(a: string)
    requires OnOneLine(a)
    ensures |Universal(a + "\r\n")| == |a| + 1
  {
    UniversalAfter(a, "\r\n");
    UniversalHead("\r\n", 2);
    assert "\r\n"[2..] == "";
  }

  lemma LastCharacterReread(log: string, last: char)
    requires |log| >= 2 && log[|log|-2..] == [last] + "\n" && last !in "#\t\r\n"
    ensures IterNew(log, |log| - 2) == [(|log|, AuditEvent([last], "unknown", "", [last], ""))]
  {
    var n := |log| - 2;
    assert log == log[..n] + ([last] + "\n");
    LineReadAlone(log[..n], [last]);
    DropNewlinesStops([last]);
  }
}
