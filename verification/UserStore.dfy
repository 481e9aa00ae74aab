/** Mail users kept in three text files that are rewritten line by line. */
module UserStore {
  import opened Prelude
  import opened Text

  // ---- Addresses ----

  /** The sanitised address, or None for one that is blank or would break a line. */
  function ValidateEmail(email: string): Option<string> {
    if Strip(email) == "" || ':' in email || '\n' in email || '\r' in email || '\0' in email then None
    else Some(Strip(Lower(email)))
  }

  lemma ValidatedIs(email: string)
    requires ValidateEmail(email).Some?
    ensures ValidateEmail(email) == Some(Lower(Strip(email)))
  {
    StripLower(email);
  }

  /** What is validated keeps nothing of its case and no blank at either end. */
  lemma ValidatedIsFolded(email: string)
    requires ValidateEmail(email).Some?
    ensures var e := ValidateEmail(email).value;
      && Trimmed(e) && SameButCase(e, Strip(email)) && forall c :: c in e ==> !('A' <= c <= 'Z')
  {
    ValidatedIs(email);
    StripFixpoint(Lower(email));
  }

  /** What is refused: a blank address, and one with a character that would break the files' lines or fields. */
  lemma ValidatedIff(email: string)
    ensures ValidateEmail(email).Some? <==>
      (exists c :: c in email && !IsSpace(c)) && forall c :: c in email ==> c !in ":\n\r" && c as int != 0
  {
    var front, back := StripMeans(email);
    if Strip(email) != "" {
      assert !IsSpace(Strip(email)[0]) && Strip(email)[0] in email;
    }
  }

  /** Two accepted addresses are the same one exactly when, stripped, they differ in the case of ASCII letters only. */
  lemma ValidatedAlikeIff(a: string, b: string)
    requires ValidateEmail(a).Some? && ValidateEmail(b).Some?
    ensures ValidateEmail(a) == ValidateEmail(b) <==> SameButCase(Strip(a), Strip(b))
  {
    ValidatedIs(a);
    ValidatedIs(b);
    CaseForgotten(Strip(a), Strip(b));
  }

  lemma RefusedAlike(a: string, b: string)
    requires SameButCase(a, b)
    ensures ValidateEmail(a).Some? ==> ValidateEmail(b).Some?
  {
    ValidatedIff(a);
    ValidatedIff(b);
    forall c | c in b && ValidateEmail(a).Some?
      ensures c !in ":\n\r" && c as int != 0
    {
      var i :| 0 <= i < |b| && b[i] == c;
      assert a[i] in a && SameLetter(a[i], b[i]);
    }
    forall c | c in a && !IsSpace(c)
      ensures exists d :: d in b && !IsSpace(d)
    {
      var i :| 0 <= i < |a| && a[i] == c;
      SpaceHasNoCase(a[i], b[i]);
      assert b[i] in b;
    }
  }

  /** Spellings of one length that differ only in the case of ASCII letters are validated alike. */
  lemma CaseIsFolded(a: string, b: string)
    requires SameButCase(a, b)
    ensures ValidateEmail(a) == ValidateEmail(b)
  {
    RefusedAlike(a, b);
    RefusedAlike(b, a);
    CaseForgotten(a, b);
  }

  // ---- One passwd line ----

  const QUOTA_FIELD := "userdb_quota_rule=*:storage="

  /** The part before the first '@' and the part after it. The program calls them domain and user. */
  function AtSplit(email: string): Option<(string, string)> {
    match Index(email, "@")
    case None => None
    case Some(i) => Some((email[..i], email[i+1..]))
  }

  function Home(email: string): string
    requires AtSplit(email).Some?
  {
    "/var/mail/" + AtSplit(email).value.0 + "/" + AtSplit(email).value.1
  }

  function FormatLine(email: string, hash: string, quota: string): string
    requires AtSplit(email).Some?
  {
    email + ":" + hash + ":5000:5000::" + Home(email) + ":/usr/sbin/nologin::" + QUOTA_FIELD + quota
  }

  /** `s.split("::")`. */
  function DoubleColonParts(s: string): (r: seq<string>)
    ensures |r| >= 1
    decreases |s|
  {
    match Index(s, "::")
    case None => [s]
    case Some(i) => [s[..i]] + DoubleColonParts(s[i+2..])
  }

  function LastPart(s: string): string { var parts := Split(s, '='); parts[|parts|-1] }

  function FirstQuota(parts: seq<string>): string {
    if parts == [] then "1G"
    else if QUOTA_FIELD <= parts[0] then LastPart(parts[0])
    else FirstQuota(parts[1..])
  }

  function ParseQuota(line: string): string {
    if Index(line, QUOTA_FIELD).Some? then FirstQuota(DoubleColonParts(line)) else "1G"
  }

  datatype Parsed = Parsed(email: string, password: string, quota: string)

  function ParsePasswd(raw: string): Option<Parsed> {
    var line := Strip(raw);
    if line == "" || line[0] == '#' then None else
    var parts := Split(line, ':');
    if |parts| < 2 then None else Some(Parsed(parts[0], parts[1], ParseQuota(line)))
  }

  /** Addresses whose passwd line is read back. What `ValidateEmail` lets through beyond these:
      no '@', a leading '#', or an exotic line break. */
  predicate Listable(email: string) {
    AtSplit(email).Some? && ':' !in email && OneLine(email) && Trimmed(email) && email[0] != '#'
  }

  /** Addresses that survive in all three files: no space inside either. */
  predicate Clean(email: string) { Listable(email) && ' ' !in email }

  predicate HashOk(hash: string) { hash != "" && ':' !in hash && OneLine(hash) }

  predicate PlainQuota(quota: string) {
    '=' !in quota && Index(quota, "::").None? && (quota == "" || !IsSpace(quota[|quota|-1]))
  }

  predicate QuotaOk(quota: string) { OneLine(quota) && PlainQuota(quota) }

  // ---- Printing and parsing undo each other ----

  lemma {:induction false} TrimRightAfter(p: string, s: string)
    requires p != "" && !IsSpace(p[|p|-1])
    ensures TrimRight(p + s) == p + TrimRight(s)
  {
    if s == "" {
      assert p + s == p && p + "" == p;
    } else if IsSpace(s[|s|-1]) {
      assert (p + s)[..|p + s|-1] == p + s[..|s|-1];
      TrimRightAfter(p, s[..|s|-1]);
    }
  }

  lemma TrimRightNewline(q: string)
    ensures TrimRight(q + "\n") == TrimRight(q)
  {
    assert (q + "\n")[..|q|] == q;
  }

  lemma DoubleColonFirst(a: string, rest: string)
    requires a != "" && a[|a|-1] != ':' && Index(a, "::").None?
    ensures DoubleColonParts(a + "::" + rest) == [a] + DoubleColonParts(rest)
  {
    var s := a + "::" + rest;
    forall j: nat | j < |a|
      ensures !At(s, j, "::")
    {
      if j + 2 <= |a| {
        IndexIsFirst(a, "::", j);
        assert s[j..j+2] == a[j..j+2];
      } else {
        assert s[j..j+2][0] == a[|a|-1];
      }
    }
    IndexIs(s, "::", |a|);
    assert s[..|a|] == a && s[|a|+2..] == rest;
  }

  lemma NoColonNoPair(s: string)
    requires forall i :: 0 <= i < |s| - 1 ==> s[i] != ':' || s[i+1] != ':'
    ensures Index(s, "::").None?
  {
    forall j: nat
      ensures !At(s, j, "::")
    {
      if j + 2 <= |s| {
        assert s[j..j+2] == [s[j], s[j+1]];
      }
    }
    IndexNone(s, "::");
  }

  /** The account fields in front of the home directory. */
  function Front(email: string, hash: string): string { email + ":" + hash + ":5000:5000" }

  function Middle(email: string): string
    requires AtSplit(email).Some?
  {
    Home(email) + ":/usr/sbin/nologin"
  }

  lemma FrontHasNoPair(email: string, hash: string)
    requires Listable(email) && HashOk(hash)
    ensures Index(Front(email, hash), "::").None?
  {
    var s := Front(email, hash);
    var h := |email| + 1 + |hash|;
    forall i | 0 <= i < |s| - 1
      ensures s[i] != ':' || s[i+1] != ':'
    {
      if i < |email| {
        assert s[i] == email[i];
      } else if i == |email| {
        assert s[i+1] == hash[0];
      } else if i < h {
        assert s[i] == hash[i-|email|-1];
      } else {
        assert s[i] == ":5000:5000"[i-h] && s[i+1] == ":5000:5000"[i-h+1];
      }
    }
    NoColonNoPair(s);
  }

  lemma NoColonInHome(email: string)
    requires AtSplit(email).Some? && ':' !in email
    ensures ':' !in Home(email)
  {
    var i := Index(email, "@").value;
    assert forall c :: c in email[..i] ==> c in email;
    assert forall c :: c in email[i+1..] ==> c in email;
  }

  lemma MiddleHasNoPair(email: string)
    requires Listable(email)
    ensures Index(Middle(email), "::").None?
  {
    NoColonInHome(email);
    var s, h := Middle(email), |Home(email)|;
    forall i | 0 <= i < |s| - 1
      ensures s[i] != ':' || s[i+1] != ':'
    {
      if i < h {
        assert s[i] == Home(email)[i];
      } else {
        assert s[i+1] == ":/usr/sbin/nologin"[i-h+1];
      }
    }
    NoColonNoPair(s);
  }

  lemma FormatIs(email: string, hash: string, tail: string)
    requires AtSplit(email).Some?
    ensures FormatLine(email, hash, tail) == Front(email, hash) + "::" + (Middle(email) + "::" + (QUOTA_FIELD + tail))
  {
  }

  lemma FormatParts(email: string, hash: string, tail: string)
    requires Listable(email) && HashOk(hash)
    ensures DoubleColonParts(FormatLine(email, hash, tail))
         == [Front(email, hash), Middle(email)] + DoubleColonParts(QUOTA_FIELD + tail)
  {
    var front, middle, last := Front(email, hash), Middle(email), QUOTA_FIELD + tail;
    FormatIs(email, hash, tail);
    FrontHasNoPair(email, hash);
    DoubleColonFirst(front, middle + "::" + last);
    MiddleHasNoPair(email);
    DoubleColonFirst(middle, last);
  }

  /** Neither the account fields nor the home directory can pass for the quota field. */
  lemma OnlyQuotaIsQuota(email: string, hash: string)
    requires Listable(email)
    ensures !(QUOTA_FIELD <= Front(email, hash)) && !(QUOTA_FIELD <= Middle(email))
  {
    var i := Index(email, "@").value;
    var front := Front(email, hash);
    assert email[i..i+1] == "@";
    assert email[i] == '@' && front[i] == '@';
    assert Middle(email)[0] == '/' && QUOTA_FIELD[0] == 'u';
    assert QUOTA_FIELD[19] == ':' && '@' !in QUOTA_FIELD;
    assert forall k :: 0 <= k < |email| ==> front[k] == email[k] && email[k] in email;
  }

  lemma QuotaFieldFound(line: string, k: nat)
    requires At(line, k, QUOTA_FIELD)
    ensures Index(line, QUOTA_FIELD).Some?
  {
    if Index(line, QUOTA_FIELD).None? {
      IndexIsFirst(line, QUOTA_FIELD, k);
    }
  }

  /** What is read back as the quota of a line written with `quota`. */
  function StoredQuota(quota: string): string {
    LastPart(DoubleColonParts(QUOTA_FIELD + TrimRight(quota))[0])
  }

  lemma FieldHasNoPair(tail: string, j: nat)
    requires j < |QUOTA_FIELD|
    ensures !At(QUOTA_FIELD + tail, j, "::")
  {
    var s := QUOTA_FIELD + tail;
    if j + 2 <= |s| {
      assert s[j..j+2] == [s[j], s[j+1]] && s[j] == QUOTA_FIELD[j];
      if j == 19 {
        assert s[j+1] == QUOTA_FIELD[20] == 's';
      } else {
        assert QUOTA_FIELD[j] != ':';
      }
    }
  }

  lemma AtShifted(a: string, s: string, j: nat, p: string)
    requires |a| <= j
    ensures At(a + s, j, p) == At(s, j - |a|, p)
  {
    if j + |p| <= |a + s| {
      assert (a + s)[j..j+|p|] == s[j-|a|..j-|a|+|p|];
    }
  }

  lemma PairAfterField(tail: string)
    ensures Index(QUOTA_FIELD + tail, "::")
         == (match Index(tail, "::") case None => None case Some(i) => Some(|QUOTA_FIELD| + i))
  {
    var s, n := QUOTA_FIELD + tail, |QUOTA_FIELD|;
    var found := Index(tail, "::");
    forall j: nat | found.Some? ==> j < n + found.value
      ensures !At(s, j, "::")
    {
      if j < n {
        FieldHasNoPair(tail, j);
      } else {
        AtShifted(QUOTA_FIELD, tail, j, "::");
        IndexIsFirst(tail, "::", j - n);
      }
    }
    if found.Some? {
      AtShifted(QUOTA_FIELD, tail, n + found.value, "::");
      IndexIs(s, "::", n + found.value);
    } else {
      IndexNone(s, "::");
    }
  }

  lemma QuotaFieldLeads(tail: string)
    ensures QUOTA_FIELD <= DoubleColonParts(QUOTA_FIELD + tail)[0]
    ensures DoubleColonParts(QUOTA_FIELD + tail)[0]
         == QUOTA_FIELD + (match Index(tail, "::") case None => tail case Some(i) => tail[..i])
  {
    PairAfterField(tail);
    match Index(tail, "::")
    case None =>
    case Some(i) => assert (QUOTA_FIELD + tail)[..|QUOTA_FIELD| + i] == QUOTA_FIELD + tail[..i];
  }

  lemma StripsToLine(email: string, hash: string, quota: string)
    requires AtSplit(email).Some? && email != "" && !IsSpace(email[0])
    ensures Strip(FormatLine(email, hash, quota) + "\n") == FormatLine(email, hash, TrimRight(quota))
  {
    var head := email + ":" + hash + ":5000:5000::" + Home(email) + ":/usr/sbin/nologin::" + QUOTA_FIELD;
    assert FormatLine(email, hash, quota) + "\n" == head + (quota + "\n");
    assert head[0] == email[0] && !IsSpace(email[0]);
    assert TrimLeft(head + (quota + "\n")) == head + (quota + "\n");
    assert head[|head|-1] == '=';
    TrimRightAfter(head, quota + "\n");
    TrimRightNewline(quota);
  }

  lemma FieldPresent(email: string, hash: string, tail: string)
    requires AtSplit(email).Some?
    ensures Index(FormatLine(email, hash, tail), QUOTA_FIELD).Some?
  {
    var line, front := FormatLine(email, hash, tail), Front(email, hash) + "::" + Middle(email) + "::";
    FormatIs(email, hash, tail);
    assert line == front + (QUOTA_FIELD + tail);
    assert line[|front|..|front|+|QUOTA_FIELD|] == QUOTA_FIELD;
    QuotaFieldFound(line, |front|);
  }

  /** Parsing a written line gives back the address and the hash, and `StoredQuota` of the quota. */
  lemma ParseFormatted(email: string, hash: string, quota: string)
    requires Listable(email) && HashOk(hash)
    ensures ParsePasswd(FormatLine(email, hash, quota) + "\n") == Some(Parsed(email, hash, StoredQuota(quota)))
  {
    var tail := TrimRight(quota);
    var line := FormatLine(email, hash, tail);
    StripsToLine(email, hash, quota);
    assert line != "" && line[0] != '#' by { assert line[0] == email[0]; }
    ColonFields(email, hash, tail);
    assert ParseQuota(line) == StoredQuota(quota) by {
      FieldPresent(email, hash, tail);
      QuotaRead(email, hash, tail);
    }
  }

  lemma AddressFirst(email: string, hash: string, quota: string) returns (rest: string)
    requires AtSplit(email).Some?
    ensures FormatLine(email, hash, quota) == email + [':'] + (hash + [':'] + rest)
  {
    rest := "5000:5000::" + Home(email) + ":/usr/sbin/nologin::" + QUOTA_FIELD + quota;
  }

  lemma ColonFields(email: string, hash: string, tail: string)
    requires Listable(email) && HashOk(hash)
    ensures var parts := Split(FormatLine(email, hash, tail), ':');
      |parts| >= 2 && parts[0] == email && parts[1] == hash
  {
    var rest := AddressFirst(email, hash, tail);
    SplitFirst(email, ':', hash + [':'] + rest);
    SplitFirst(hash, ':', rest);
  }

  lemma ThirdIsQuota(a: string, b: string, more: seq<string>)
    requires !(QUOTA_FIELD <= a) && !(QUOTA_FIELD <= b) && more != [] && QUOTA_FIELD <= more[0]
    ensures FirstQuota([a, b] + more) == LastPart(more[0])
  {
    assert ([a, b] + more)[1..] == [b] + more;
    assert ([b] + more)[1..] == more;
    assert FirstQuota([b] + more) == FirstQuota(more);
  }

  lemma QuotaRead(email: string, hash: string, tail: string)
    requires Listable(email) && HashOk(hash)
    ensures FirstQuota(DoubleColonParts(FormatLine(email, hash, tail))) == LastPart(DoubleColonParts(QUOTA_FIELD + tail)[0])
  {
    FormatParts(email, hash, tail);
    OnlyQuotaIsQuota(email, hash);
    QuotaFieldLeads(tail);
    ThirdIsQuota(Front(email, hash), Middle(email), DoubleColonParts(QUOTA_FIELD + tail));
  }

  lemma {:induction false} LastPartShort(s: string)
    ensures |LastPart(s)| <= |s| && (LastPart(s) == s <==> '=' !in s)
  {
    if s != "" {
      LastPartShort(s[1..]);
      var rest := Split(s[1..], '=');
      assert s == [s[0]] + s[1..];
      if s[0] == '=' {
        assert LastPart(s) == LastPart(s[1..]);
      } else if |rest| > 1 {
        assert LastPart(s) == LastPart(s[1..]);
      }
    }
  }

  lemma LastPartAfter(a: string, rest: string)
    requires '=' !in a
    ensures LastPart(a + ['='] + rest) == LastPart(rest)
  {
    var parts := Split(rest, '=');
    SplitFirst(a, '=', rest);
    assert ([a] + parts)[|parts|] == parts[|parts|-1];
  }

  lemma LastPartOfField(tail: string)
    ensures LastPart(QUOTA_FIELD + tail) == LastPart(tail)
  {
    var a, b := "userdb_quota_rule", "*:storage";
    assert QUOTA_FIELD == a + ['='] + b + ['='];
    assert QUOTA_FIELD + tail == a + ['='] + (b + ['='] + tail);
    LastPartAfter(a, b + ['='] + tail);
    LastPartAfter(b, tail);
  }

  /** What is left of a quota in front of trailing white space and the first "::". */
  function Kept(quota: string): string {
    var tail := TrimRight(quota);
    match Index(tail, "::") case None => tail case Some(i) => tail[..i]
  }

  lemma KeptShort(quota: string)
    ensures |Kept(quota)| <= |quota| && (|Kept(quota)| == |quota| ==> Kept(quota) == quota)
    ensures Kept(quota) == quota <==> Index(quota, "::").None? && (quota == "" || !IsSpace(quota[|quota|-1]))
  {
    var tail := TrimRight(quota);
    TrimRightSuffix(quota);
    assert Index(tail, "::").None? ==> Kept(quota) == tail;
    assert Index(tail, "::").Some? ==> |Kept(quota)| < |tail|;
    assert |tail| == |quota| ==> tail == quota;
  }

  /** On one line, a quota is stored as given exactly when it holds no '=' and no "::" and does not end in white space. */
  lemma StoredQuotaIff(quota: string)
    ensures StoredQuota(quota) == quota <==> PlainQuota(quota)
  {
    assert StoredQuota(quota) == LastPart(QUOTA_FIELD + Kept(quota)) by { QuotaFieldLeads(TrimRight(quota)); }
    LastPartOfField(Kept(quota));
    LastPartShort(Kept(quota));
    KeptShort(quota);
  }

  // ---- The files ----

  datatype Files = Files(passwd: string, alias: string, mailbox: string)

  datatype Exit = Success | Failed | Raised

  /** `read_text().splitlines(keepends=True)`. */
  function ReadLines(text: string): seq<string> { KeptLines(IsLineBreak, Universal(text)) }

  function Emails(lines: seq<string>): set<string> {
    set l | l in lines && ParsePasswd(l).Some? :: ParsePasswd(l).value.email
  }

  function DropPrefixed(lines: seq<string>, prefix: string): (r: seq<string>)
    ensures |r| <= |lines|
  {
    if lines == [] then [] else (if prefix <= lines[0] then [] else [lines[0]]) + DropPrefixed(lines[1..], prefix)
  }

  function AliasLine(email: string): string { email + " " + email + "\n" }

  function MailboxLine(email: string): string
    requires AtSplit(email).Some?
  {
    email + " " + AtSplit(email).value.0 + "/" + AtSplit(email).value.1 + "/\n"
  }

  /** `secret` is the hash doveadm returns, or None when the prompts do not produce a password. */
  function UserAdd(fs: Files, email: string, secret: Option<string>, quota: string, dryRun: bool): (Files, Exit) {
    match ValidateEmail(email)
    case None => (fs, Failed)
    case Some(e) =>
      if e in Emails(ReadLines(fs.passwd)) then (fs, Failed)
      else if dryRun then (fs, Success)
      else if secret.None? then (fs, Failed)
      else if AtSplit(e).None? then (fs, Raised)
      else (Files(Concat(ReadLines(fs.passwd) + [FormatLine(e, secret.value, quota) + "\n"]),
                  Concat(ReadLines(fs.alias) + [AliasLine(e)]),
                  Concat(ReadLines(fs.mailbox) + [MailboxLine(e)])), Success)
  }

  function UserDelete(fs: Files, email: string, dryRun: bool): (Files, Exit) {
    match ValidateEmail(email)
    case None => (fs, Failed)
    case Some(e) =>
      var lines := ReadLines(fs.passwd);
      var left := DropPrefixed(lines, e + ":");
      if |left| == |lines| then (fs, Failed)
      else if dryRun then (fs, Success)
      else (Files(Concat(left),
                  Concat(DropPrefixed(ReadLines(fs.alias), e + " ")),
                  Concat(DropPrefixed(ReadLines(fs.mailbox), e + " "))), Success)
  }

  predicate Found(lines: seq<string>, prefix: string) { exists i :: 0 <= i < |lines| && prefix <= lines[i] }

  /** One line with the password replaced; None when formatting raises. */
  function NewLine(line: string, email: string, hash: string): Option<string> {
    if !(email + ":" <= line) then Some(line)
    else match ParsePasswd(line)
      case None => Some(line)
      case Some(p) => if AtSplit(email).None? then None else Some(FormatLine(email, hash, p.quota) + "\n")
  }

  function NewLines(lines: seq<string>, email: string, hash: string): Option<seq<string>> {
    if lines == [] then Some([]) else
    match (NewLines(lines[..|lines|-1], email, hash), NewLine(lines[|lines|-1], email, hash))
    case (Some(done), Some(line)) => Some(done + [line])
    case _ => None
  }

  function UserPasswd(fs: Files, email: string, secret: Option<string>, dryRun: bool): (Files, Exit) {
    match ValidateEmail(email)
    case None => (fs, Failed)
    case Some(e) =>
      var lines := ReadLines(fs.passwd);
      if !Found(lines, e + ":") then (fs, Failed)
      else if dryRun then (fs, Success)
      else if secret.None? then (fs, Failed)
      else match NewLines(lines, e, secret.value)
        case None => (fs, Raised)
        case Some(rewritten) => (fs.(passwd := Concat(rewritten)), Success)
  }

  class UserManager {
    var passwd: string
    var alias: string
    var mailbox: string

    function Current(): Files
      reads this
    {
      Files(passwd, alias, mailbox)
    }

    constructor ()
      ensures Current() == Files("", "", "")
    {
      passwd, alias, mailbox := "", "", "";
    }

    static method Known(lines: seq<string>) returns (emails: set<string>)
      ensures emails == Emails(lines)
    {
      emails := {};
      for i := 0 to |lines|
        invariant emails == Emails(lines[..i])
      {
        assert lines[..i+1] == lines[..i] + [lines[i]];
        OneMoreEmail(lines[..i], lines[i]);
        var parsed := ParsePasswd(lines[i]);
        if parsed.Some? {
          emails := emails + {parsed.value.email};
        }
      }
      assert lines[..|lines|] == lines;
    }

    method Add(email: string, secret: Option<string>, quota: string, dryRun: bool) returns (exit: Exit)
      modifies this
      ensures (Current(), exit) == UserAdd(old(Current()), email, secret, quota, dryRun)
    {
      var sanitized := ValidateEmail(email);
      if sanitized.None? { return Failed; }
      var e, existing := sanitized.value, ReadLines(passwd);
      var emails := Known(existing);
      if e in emails { return Failed; }
      if dryRun { return Success; }
      if secret.None? { return Failed; }
      if AtSplit(e).None? { return Raised; }
      passwd := Concat(existing + [FormatLine(e, secret.value, quota) + "\n"]);
      alias := Concat(ReadLines(alias) + [AliasLine(e)]);
      mailbox := Concat(ReadLines(mailbox) + [MailboxLine(e)]);
      exit := Success;
    }

    static method Without(lines: seq<string>, prefix: string) returns (left: seq<string>)
      ensures left == DropPrefixed(lines, prefix)
    {
      left := [];
      for i := 0 to |lines|
        invariant left + DropPrefixed(lines[i..], prefix) == DropPrefixed(lines, prefix)
      {
        assert lines[i..][1..] == lines[i+1..];
        if !(prefix <= lines[i]) {
          left := left + [lines[i]];
        }
      }
    }

    method Delete(email: string, dryRun: bool) returns (exit: Exit)
      modifies this
      ensures (Current(), exit) == UserDelete(old(Current()), email, dryRun)
    {
      var sanitized := ValidateEmail(email);
      if sanitized.None? { return Failed; }
      var e, lines := sanitized.value, ReadLines(passwd);
      var left := Without(lines, e + ":");
      if |left| == |lines| { return Failed; }
      if dryRun { return Success; }
      passwd := Concat(left);
      var others := Without(ReadLines(alias), e + " ");
      alias := Concat(others);
      others := Without(ReadLines(mailbox), e + " ");
      mailbox := Concat(others);
      exit := Success;
    }

    method Passwd(email: string, secret: Option<string>, dryRun: bool) returns (exit: Exit)
      modifies `passwd
      ensures (Current(), exit) == UserPasswd(old(Current()), email, secret, dryRun)
    {
      var sanitized := ValidateEmail(email);
      if sanitized.None? { return Failed; }
      var found, rewritten, early := Rewrite(ReadLines(passwd), sanitized.value, secret, dryRun);
      if early.Some? { return early.value; }
      if !found { return Failed; }
      if !dryRun {
        passwd := Concat(rewritten);
      }
      exit := Success;
    }

    /** The loop over the passwd lines; `early` is set when it returns or raises on the way. */
    static method Rewrite(lines: seq<string>, email: string, secret: Option<string>, dryRun: bool)
      returns (found: bool, rewritten: seq<string>, early: Option<Exit>)
      ensures early.None? ==> (found <==> Found(lines, email + ":"))
      ensures early.None? && found && !dryRun ==>
        secret.Some? && NewLines(lines, email, secret.value) == Some(rewritten)
      ensures early.Some? ==> Found(lines, email + ":") && !dryRun
      ensures early.Some? ==> early.value == (if secret.None? then Failed else Raised)
      ensures early.Some? && secret.Some? ==> NewLines(lines, email, secret.value).None?
    {
      found, rewritten, early := false, [], None;
      for i := 0 to |lines|
        invariant found <==> Found(lines[..i], email + ":")
        invariant found && !dryRun ==> secret.Some?
        invariant !dryRun && secret.Some? ==> NewLines(lines[..i], email, secret.value) == Some(rewritten)
      {
        assert lines[..i+1] == lines[..i] + [lines[i]];
        var line := lines[i];
        if secret.Some? {
          NewLinesPrefix(lines, i, email, secret.value);
        }
        if email + ":" <= lines[i] {
          assert Found(lines, email + ":");
          found := true;
          if !dryRun {
            if secret.None? {
              early := Some(Failed);
              return;
            }
            var changed := NewLine(lines[i], email, secret.value);
            if changed.None? {
              early := Some(Raised);
              return;
            }
            line := changed.value;
          }
        }
        rewritten := rewritten + [line];
      }
      assert lines[..|lines|] == lines;
    }
  }

  lemma OneMoreEmail(lines: seq<string>, line: string)
    ensures Emails(lines + [line])
         == Emails(lines) + if ParsePasswd(line).Some? then {ParsePasswd(line).value.email} else {}
  {
    var all := lines + [line];
    assert forall l :: l in all <==> l in lines || l == line;
  }

  lemma {:induction false} NewLinesPrefix(lines: seq<string>, i: nat, email: string, hash: string)
    requires i < |lines|
    ensures NewLines(lines[..i+1], email, hash) == (
      match (NewLines(lines[..i], email, hash), NewLine(lines[i], email, hash))
      case (Some(done), Some(line)) => Some(done + [line])
      case _ => None)
    ensures NewLines(lines[..i+1], email, hash).None? ==> NewLines(lines, email, hash).None?
    decreases |lines| - i
  {
    assert lines[..i+1][..i] == lines[..i];
    if i + 1 == |lines| {
      assert lines[..i+1] == lines;
    } else {
      NewLinesPrefix(lines, i + 1, email, hash);
    }
  }

  /** The line is the address, a colon, and something. */
  ghost predicate IsOf(line: string, email: string) { exists rest :: line == email + ":" + rest }

  lemma IsOfIff(line: string, email: string)
    ensures email + ":" <= line <==> IsOf(line, email)
  {
    var p := email + ":";
    if p <= line {
      assert line == p + line[|p|..];
    }
  }

  /** What a password change does to a line: one of the address that can be read is written anew with the new hash and
      the quota that was read; any other is kept. */
  lemma PasswdRewrites(line: string, email: string, hash: string)
    requires AtSplit(email).Some?
    ensures NewLine(line, email, hash)
         == Some(if IsOf(line, email) && ParsePasswd(line).Some?
                 then FormatLine(email, hash, ParsePasswd(line).value.quota) + "\n" else line)
  {
    IsOfIff(line, email);
  }

  /** An address is found exactly when some line is its. */
  lemma FoundIff(lines: seq<string>, email: string)
    ensures Found(lines, email + ":") <==> exists line :: line in lines && IsOf(line, email)
  {
    forall i | 0 <= i < |lines|
      ensures email + ":" <= lines[i] <==> lines[i] in lines && IsOf(lines[i], email)
    {
      IsOfIff(lines[i], email);
    }
  }

  /** A line without a quota field stands for one gigabyte. */
  lemma DefaultQuota(raw: string)
    requires ParsePasswd(raw).Some?
    ensures Index(Strip(raw), "userdb_quota_rule=*:storage=").None? ==> ParsePasswd(raw).value.quota == "1G"
  {
  }

  // ---- The abstract store ----

  datatype User = User(email: string, hash: string, quota: string)

  predicate UserOk(u: User) { Clean(u.email) && HashOk(u.hash) && QuotaOk(u.quota) }

  predicate AllOk(us: seq<User>) { forall u :: u in us ==> UserOk(u) }

  predicate Unique(us: seq<User>) { forall i, j :: 0 <= i < j < |us| ==> us[i].email != us[j].email }

  predicate Has(us: seq<User>, email: string) { exists i :: 0 <= i < |us| && us[i].email == email }

  function Without(us: seq<User>, email: string): seq<User> {
    if us == [] then [] else (if us[0].email == email then [] else [us[0]]) + Without(us[1..], email)
  }

  function Rehashed(us: seq<User>, email: string, hash: string): seq<User> {
    if us == [] then [] else
    var last := us[|us|-1];
    Rehashed(us[..|us|-1], email, hash) + [if last.email == email then last.(hash := hash) else last]
  }

  function PasswdLine(u: User): string
    requires UserOk(u)
  {
    FormatLine(u.email, u.hash, u.quota) + "\n"
  }

  function PasswdLines(us: seq<User>): (r: seq<string>)
    requires AllOk(us)
    ensures |r| == |us| && forall i :: 0 <= i < |us| ==> r[i] == PasswdLine(us[i])
  {
    seq(|us|, i requires 0 <= i < |us| => assert us[i] in us; PasswdLine(us[i]))
  }

  function AliasLines(us: seq<User>): (r: seq<string>)
    requires AllOk(us)
    ensures |r| == |us| && forall i :: 0 <= i < |us| ==> r[i] == AliasLine(us[i].email)
  {
    seq(|us|, i requires 0 <= i < |us| => AliasLine(us[i].email))
  }

  function MailboxLines(us: seq<User>): (r: seq<string>)
    requires AllOk(us)
    ensures |r| == |us| && forall i :: 0 <= i < |us| ==> us[i] in us && r[i] == MailboxLine(us[i].email)
  {
    seq(|us|, i requires 0 <= i < |us| => assert us[i] in us; MailboxLine(us[i].email))
  }

  /** The three files that stand for a list of users. */
  function Render(us: seq<User>): Files
    requires AllOk(us)
  {
    Files(Concat(PasswdLines(us)), Concat(AliasLines(us)), Concat(MailboxLines(us)))
  }

  datatype Op =
    | Add(email: string, secret: Option<string>, quota: string, dryRun: bool)
    | Delete(email: string, dryRun: bool)
    | Passwd(email: string, secret: Option<string>, dryRun: bool)

  function Perform(fs: Files, op: Op): (Files, Exit) {
    match op
    case Add(email, secret, quota, dryRun) => UserAdd(fs, email, secret, quota, dryRun)
    case Delete(email, dryRun) => UserDelete(fs, email, dryRun)
    case Passwd(email, secret, dryRun) => UserPasswd(fs, email, secret, dryRun)
  }

  /** What the same call does to the abstract store. */
  function Abstractly(us: seq<User>, op: Op): (seq<User>, Exit) {
    match ValidateEmail(op.email)
    case None => (us, Failed)
    case Some(e) =>
      match op
      case Add(_, secret, quota, dryRun) =>
        if Has(us, e) then (us, Failed) else if dryRun then (us, Success)
        else if secret.None? then (us, Failed) else if AtSplit(e).None? then (us, Raised)
        else (us + [User(e, secret.value, quota)], Success)
      case Delete(_, dryRun) =>
        if !Has(us, e) then (us, Failed) else if dryRun then (us, Success)
        else (Without(us, e), Success)
      case Passwd(_, secret, dryRun) =>
        if !Has(us, e) then (us, Failed) else if dryRun then (us, Success)
        else if secret.None? then (us, Failed)
        else (Rehashed(us, e, secret.value), Success)
  }

  /** What a caller has to check: an address to be added has no space, leading '#' or exotic line
      break, its quota is plain, and doveadm printed a hash. */
  predicate Manageable(op: Op) {
    && (op.Add? || op.Passwd? ==> op.secret.Some? ==> HashOk(op.secret.value))
    && (op.Add? && ValidateEmail(op.email).Some? && AtSplit(ValidateEmail(op.email).value).Some? ==>
          Clean(ValidateEmail(op.email).value) && QuotaOk(op.quota))
  }

  // ---- Lines ----

  lemma TrimMembers(s: string)
    ensures forall c :: c in Strip(s) ==> c in s
  {
    TrimLeftHead(s);
    TrimRightSuffix(TrimLeft(s));
  }

  lemma ValidatedHasNoColon(email: string)
    requires ValidateEmail(email).Some?
    ensures ':' !in ValidateEmail(email).value
  {
    TrimMembers(Lower(email));
    forall i | 0 <= i < |email|
      ensures Lower(email)[i] != ':'
    {
      assert email[i] in email;
    }
  }

  predicate Printable(s: string) { forall c :: c in s ==> ' ' <= c <= '~' }

  lemma PrintableOneLine(s: string)
    requires Printable(s)
    ensures OneLine(s)
  {
  }

  /** The fixed parts of the lines. */
  lemma LiteralsOneLine()
    ensures OneLine(":") && OneLine("::") && OneLine("/") && OneLine(" ")
    ensures OneLine(":5000:5000") && OneLine("/var/mail/") && OneLine(":/usr/sbin/nologin") && OneLine(QUOTA_FIELD)
  {
    PrintableOneLine(":");
    PrintableOneLine("::");
    PrintableOneLine("/");
    PrintableOneLine(" ");
    PrintableOneLine(":5000:5000");
    PrintableOneLine("/var/mail/");
    PrintableOneLine(":/usr/sbin/nologin");
    PrintableOneLine(QUOTA_FIELD);
  }

  lemma AtPartsOneLine(email: string)
    requires OneLine(email) && AtSplit(email).Some?
    ensures OneLine(AtSplit(email).value.0) && OneLine(AtSplit(email).value.1)
  {
    var i := Index(email, "@").value;
    assert forall c :: c in email[..i] ==> c in email;
    assert forall c :: c in email[i+1..] ==> c in email;
  }

  lemma HomeOneLine(email: string)
    requires OneLine(email) && AtSplit(email).Some?
    ensures OneLine(Home(email))
  {
    var at := AtSplit(email).value;
    AtPartsOneLine(email);
    LiteralsOneLine();
    OneLineJoin("/var/mail/", at.0);
    OneLineJoin("/var/mail/" + at.0, "/");
    OneLineJoin("/var/mail/" + at.0 + "/", at.1);
  }

  lemma OneLineJoin(a: string, b: string)
    requires OneLine(a) && OneLine(b)
    ensures OneLine(a + b)
  {
  }

  lemma EndsLine(s: string)
    requires OneLine(s)
    ensures IsLine(IsLineBreak, s + "\n")
  {
    assert forall i :: 0 <= i < |s| ==> s[i] in s;
  }

  lemma FrontOneLine(email: string, hash: string)
    requires OneLine(email) && OneLine(hash)
    ensures OneLine(Front(email, hash))
  {
    LiteralsOneLine();
    OneLineJoin(email, ":");
    OneLineJoin(email + ":", hash);
    OneLineJoin(email + ":" + hash, ":5000:5000");
  }

  lemma MiddleOneLine(email: string)
    requires OneLine(email) && AtSplit(email).Some?
    ensures OneLine(Middle(email))
  {
    HomeOneLine(email);
    LiteralsOneLine();
    OneLineJoin(Home(email), ":/usr/sbin/nologin");
  }

  lemma ThreeFields(a: string, b: string, c: string)
    requires OneLine(a) && OneLine(b) && OneLine(c)
    ensures OneLine(a + "::" + (b + "::" + c))
  {
    LiteralsOneLine();
    OneLineJoin(b, "::");
    OneLineJoin(b + "::", c);
    OneLineJoin(a, "::");
    OneLineJoin(a + "::", b + "::" + c);
  }

  lemma FormatIsLine(email: string, hash: string, quota: string)
    requires OneLine(email) && AtSplit(email).Some? && OneLine(hash) && OneLine(quota)
    ensures IsLine(IsLineBreak, FormatLine(email, hash, quota) + "\n")
  {
    FrontOneLine(email, hash);
    MiddleOneLine(email);
    assert OneLine(QUOTA_FIELD) by { LiteralsOneLine(); }
    OneLineJoin(QUOTA_FIELD, quota);
    ThreeFields(Front(email, hash), Middle(email), QUOTA_FIELD + quota);
    FormatIs(email, hash, quota);
    EndsLine(FormatLine(email, hash, quota));
  }

  lemma MapLinesAreLines(e: string)
    requires OneLine(e) && AtSplit(e).Some?
    ensures IsLine(IsLineBreak, AliasLine(e)) && IsLine(IsLineBreak, MailboxLine(e))
  {
    var at := AtSplit(e).value;
    AtPartsOneLine(e);
    LiteralsOneLine();
    OneLineJoin(e, " ");
    OneLineJoin(e + " ", e);
    EndsLine(e + " " + e);
    OneLineJoin(e + " ", at.0);
    OneLineJoin(e + " " + at.0, "/");
    OneLineJoin(e + " " + at.0 + "/", at.1);
    OneLineJoin(e + " " + at.0 + "/" + at.1, "/");
    EndsLine(e + " " + at.0 + "/" + at.1 + "/");
    assert e + " " + at.0 + "/" + at.1 + "/" + "\n" == MailboxLine(e);
  }

  /** A whole line that ends in '\n'. */
  predicate Proper(line: string) { IsLine(IsLineBreak, line) && line[|line|-1] == '\n' }

  predicate AllProper(lines: seq<string>) { forall line :: line in lines ==> Proper(line) }

  lemma ProperHasNoCr(line: string)
    requires Proper(line)
    ensures '\r' !in line
  {
  }

  lemma {:induction false} ProperTextHasNoCr(lines: seq<string>)
    requires AllProper(lines)
    ensures '\r' !in Concat(lines)
  {
    if lines != [] {
      assert lines[0] in lines && forall line :: line in lines[1..] ==> line in lines;
      ProperHasNoCr(lines[0]);
      ProperTextHasNoCr(lines[1..]);
    }
  }

  /** Proper lines are read back as written, and whatever follows them is read on its own. */
  lemma ReadAfter(lines: seq<string>, more: string)
    requires AllProper(lines)
    ensures ReadLines(Concat(lines) + more) == lines + ReadLines(more)
  {
    ProperTextHasNoCr(lines);
    UniversalAfter(Concat(lines), more);
    KeptLinesAfter(IsLineBreak, lines, Universal(more));
  }

  lemma ReadBack(lines: seq<string>)
    requires AllProper(lines)
    ensures ReadLines(Concat(lines)) == lines
  {
    ReadAfter(lines, "");
    assert Concat(lines) + "" == Concat(lines) && ReadLines("") == [] && lines + [] == lines;
  }

  lemma RenderedProper(us: seq<User>)
    requires AllOk(us)
    ensures AllProper(PasswdLines(us)) && AllProper(AliasLines(us)) && AllProper(MailboxLines(us))
  {
    forall i | 0 <= i < |us|
      ensures Proper(PasswdLines(us)[i]) && Proper(AliasLines(us)[i]) && Proper(MailboxLines(us)[i])
    {
      var u := us[i];
      assert u in us;
      FormatIsLine(u.email, u.hash, u.quota);
      MapLinesAreLines(u.email);
    }
  }

  lemma RenderedReads(us: seq<User>)
    requires AllOk(us)
    ensures ReadLines(Render(us).passwd) == PasswdLines(us)
    ensures ReadLines(Render(us).alias) == AliasLines(us)
    ensures ReadLines(Render(us).mailbox) == MailboxLines(us)
  {
    RenderedProper(us);
    ReadBack(PasswdLines(us));
    ReadBack(AliasLines(us));
    ReadBack(MailboxLines(us));
  }

  lemma FieldsAgree(a: string, more: string, b: string, rest: string, c: char)
    requires c !in a && c !in b && a + [c] + more == b + [c] + rest
    ensures a == b
  {
    SplitFirst(a, c, more);
    SplitFirst(b, c, rest);
    assert ([a] + Split(more, c))[0] == ([b] + Split(rest, c))[0];
  }

  /** A prefix test up to the separator is an equality test on what stands before it. */
  lemma PrefixIsEquality(a: string, b: string, c: char, rest: string)
    requires c !in a && c !in b
    ensures a + [c] <= b + [c] + rest <==> a == b
  {
    var s := b + [c] + rest;
    if a + [c] <= s {
      assert s == a + [c] + s[|a|+1..];
      FieldsAgree(a, s[|a|+1..], b, rest, c);
    }
    if a == b {
      assert s[..|a| + 1] == a + [c];
    }
  }

  lemma PasswdLineOf(u: User, email: string)
    requires UserOk(u) && ':' !in email
    ensures email + ":" <= PasswdLine(u) <==> email == u.email
    ensures ParsePasswd(PasswdLine(u)) == Some(Parsed(u.email, u.hash, u.quota))
  {
    var rest := u.hash + ":5000:5000::" + Home(u.email) + ":/usr/sbin/nologin::" + QUOTA_FIELD + u.quota + "\n";
    assert PasswdLine(u) == u.email + [':'] + rest;
    assert email + ":" == email + [':'];
    PrefixIsEquality(email, u.email, ':', rest);
    ParseFormatted(u.email, u.hash, u.quota);
    StoredQuotaIff(u.quota);
  }

  lemma MapLinesOf(u: User, email: string)
    requires UserOk(u) && ' ' !in email
    ensures email + " " <= AliasLine(u.email) <==> email == u.email
    ensures email + " " <= MailboxLine(u.email) <==> email == u.email
  {
    var at := AtSplit(u.email).value;
    assert email + " " == email + [' '];
    assert AliasLine(u.email) == u.email + [' '] + (u.email + "\n");
    assert MailboxLine(u.email) == u.email + [' '] + (at.0 + "/" + at.1 + "/\n");
    PrefixIsEquality(email, u.email, ' ', u.email + "\n");
    PrefixIsEquality(email, u.email, ' ', at.0 + "/" + at.1 + "/\n");
  }

  // ---- The files refine the store ----

  lemma {:induction false} WithoutOk(us: seq<User>, email: string)
    requires AllOk(us)
    ensures AllOk(Without(us, email))
  {
    WithoutShrinks(us, email);
  }

  lemma AllOkCons(u: User, us: seq<User>)
    requires UserOk(u) && AllOk(us)
    ensures AllOk([u] + us)
  {
  }

  lemma ConsPasswd(u: User, us: seq<User>)
    requires UserOk(u) && AllOk(us)
    ensures AllOk([u] + us) && PasswdLines([u] + us) == [PasswdLine(u)] + PasswdLines(us)
  {
  }

  lemma ConsAlias(u: User, us: seq<User>)
    requires UserOk(u) && AllOk(us)
    ensures AllOk([u] + us) && AliasLines([u] + us) == [AliasLine(u.email)] + AliasLines(us)
  {
    var all := [u] + us;
    forall i | 0 <= i < |all|
      ensures AliasLines(all)[i] == ([AliasLine(u.email)] + AliasLines(us))[i]
    {
      assert i > 0 ==> all[i] == us[i-1];
    }
  }

  lemma ConsMailbox(u: User, us: seq<User>)
    requires UserOk(u) && AllOk(us)
    ensures AllOk([u] + us) && MailboxLines([u] + us) == [MailboxLine(u.email)] + MailboxLines(us)
  {
    AllOkCons(u, us);
    var all := [u] + us;
    forall i | 0 <= i < |us|
      ensures MailboxLines(all)[i+1] == MailboxLines(us)[i]
    {
      assert all[i+1] == us[i];
    }
    ConsEqual(MailboxLines(all), MailboxLine(u.email), MailboxLines(us));
  }

  lemma DropCons(line: string, lines: seq<string>, prefix: string)
    ensures DropPrefixed([line] + lines, prefix) == (if prefix <= line then [] else [line]) + DropPrefixed(lines, prefix)
  {
    assert ([line] + lines)[1..] == lines;
  }

  lemma {:induction false} DropPasswd(us: seq<User>, email: string)
    requires AllOk(us) && ':' !in email
    ensures AllOk(Without(us, email))
    ensures DropPrefixed(PasswdLines(us), email + ":") == PasswdLines(Without(us, email))
  {
    WithoutOk(us, email);
    if us != [] {
      var u, rest := us[0], us[1..];
      assert u in us && us == [u] + rest;
      DropPasswd(rest, email);
      PasswdLineOf(u, email);
      ConsPasswd(u, rest);
      ConsPasswd(u, Without(rest, email));
      DropCons(PasswdLine(u), PasswdLines(rest), email + ":");
    }
  }

  lemma {:induction false} DropAlias(us: seq<User>, email: string)
    requires AllOk(us) && ' ' !in email
    ensures AllOk(Without(us, email))
    ensures DropPrefixed(AliasLines(us), email + " ") == AliasLines(Without(us, email))
  {
    WithoutOk(us, email);
    if us != [] {
      var u, rest := us[0], us[1..];
      assert u in us && us == [u] + rest;
      DropAlias(rest, email);
      MapLinesOf(u, email);
      ConsAlias(u, rest);
      ConsAlias(u, Without(rest, email));
      DropCons(AliasLine(u.email), AliasLines(rest), email + " ");
    }
  }

  lemma {:induction false} DropMailbox(us: seq<User>, email: string)
    requires AllOk(us) && ' ' !in email
    ensures AllOk(Without(us, email))
    ensures DropPrefixed(MailboxLines(us), email + " ") == MailboxLines(Without(us, email))
  {
    WithoutOk(us, email);
    if us != [] {
      var u, rest := us[0], us[1..];
      assert u in us && us == [u] + rest;
      DropMailbox(rest, email);
      MapLinesOf(u, email);
      ConsMailbox(u, rest);
      ConsMailbox(u, Without(rest, email));
      DropCons(MailboxLine(u.email), MailboxLines(rest), email + " ");
    }
  }

  lemma EmailsRendered(us: seq<User>, email: string)
    requires AllOk(us)
    ensures email in Emails(PasswdLines(us)) <==> Has(us, email)
  {
    var lines := PasswdLines(us);
    forall i | 0 <= i < |us|
      ensures ParsePasswd(lines[i]).Some? && ParsePasswd(lines[i]).value.email == us[i].email && lines[i] in lines
    {
      assert us[i] in us;
      PasswdLineOf(us[i], "");
    }
  }

  lemma FoundRendered(us: seq<User>, email: string)
    requires AllOk(us) && ':' !in email
    ensures Found(PasswdLines(us), email + ":") <==> Has(us, email)
  {
    forall i | 0 <= i < |us|
      ensures email + ":" <= PasswdLines(us)[i] <==> us[i].email == email
    {
      assert us[i] in us;
      PasswdLineOf(us[i], email);
    }
  }

  lemma HasCons(us: seq<User>, email: string)
    requires us != []
    ensures Has(us, email) <==> us[0].email == email || Has(us[1..], email)
  {
    if Has(us[1..], email) {
      var i :| 0 <= i < |us[1..]| && us[1..][i].email == email;
      assert us[i+1].email == email;
    }
  }

  lemma {:induction false} WithoutShrinks(us: seq<User>, email: string)
    ensures |Without(us, email)| <= |us|
    ensures |Without(us, email)| == |us| <==> !Has(us, email)
    ensures !Has(us, email) ==> Without(us, email) == us
    ensures forall u :: u in Without(us, email) <==> u in us && u.email != email
  {
    if us != [] {
      WithoutShrinks(us[1..], email);
      assert us == [us[0]] + us[1..];
      HasCons(us, email);
    }
  }

  function Rehash(u: User, email: string, hash: string): User {
    if u.email == email then u.(hash := hash) else u
  }

  lemma {:induction false} RehashedAt(us: seq<User>, email: string, hash: string)
    ensures |Rehashed(us, email, hash)| == |us|
    ensures forall i :: 0 <= i < |us| ==> Rehashed(us, email, hash)[i] == Rehash(us[i], email, hash)
  {
    if us != [] {
      RehashedAt(us[..|us|-1], email, hash);
    }
  }

  lemma RehashedOk(us: seq<User>, email: string, hash: string)
    requires AllOk(us) && HashOk(hash)
    ensures AllOk(Rehashed(us, email, hash))
  {
    RehashedAt(us, email, hash);
    forall u | u in Rehashed(us, email, hash)
      ensures UserOk(u)
    {
      var i :| 0 <= i < |us| && Rehashed(us, email, hash)[i] == u;
      assert us[i] in us;
    }
  }

  lemma NewLineOf(u: User, email: string, hash: string)
    requires UserOk(u) && ':' !in email && HashOk(hash)
    ensures NewLine(PasswdLine(u), email, hash) == Some(PasswdLine(Rehash(u, email, hash)))
  {
    PasswdLineOf(u, email);
  }

  lemma SnocPasswd(us: seq<User>, u: User)
    requires UserOk(u) && AllOk(us)
    ensures AllOk(us + [u]) && PasswdLines(us + [u]) == PasswdLines(us) + [PasswdLine(u)]
  {
  }

  lemma SnocNewLines(lines: seq<string>, line: string, email: string, hash: string)
    requires NewLines(lines, email, hash).Some? && NewLine(line, email, hash).Some?
    ensures NewLines(lines + [line], email, hash)
         == Some(NewLines(lines, email, hash).value + [NewLine(line, email, hash).value])
  {
    assert (lines + [line])[..|lines|] == lines;
  }

  lemma {:induction false} RehashRendered(us: seq<User>, email: string, hash: string)
    requires AllOk(us) && ':' !in email && HashOk(hash)
    ensures AllOk(Rehashed(us, email, hash))
    ensures NewLines(PasswdLines(us), email, hash) == Some(PasswdLines(Rehashed(us, email, hash)))
  {
    RehashedOk(us, email, hash);
    if us != [] {
      var n := |us| - 1;
      var init, u := us[..n], us[n];
      assert u in us && us == init + [u];
      RehashRendered(init, email, hash);
      NewLineOf(u, email, hash);
      SnocPasswd(init, u);
      SnocNewLines(PasswdLines(init), PasswdLine(u), email, hash);
      assert Rehash(u, email, hash) in Rehashed(us, email, hash);
      SnocPasswd(Rehashed(init, email, hash), Rehash(u, email, hash));
    }
  }

  lemma MapsRehashed(us: seq<User>, email: string, hash: string)
    requires AllOk(us) && HashOk(hash)
    ensures AllOk(Rehashed(us, email, hash))
    ensures AliasLines(Rehashed(us, email, hash)) == AliasLines(us)
    ensures MailboxLines(Rehashed(us, email, hash)) == MailboxLines(us)
  {
    RehashedOk(us, email, hash);
    RehashedAt(us, email, hash);
  }

  lemma RenderSnoc(us: seq<User>, u: User)
    requires AllOk(us) && UserOk(u)
    ensures AllOk(us + [u])
    ensures PasswdLines(us + [u]) == PasswdLines(us) + [PasswdLine(u)]
    ensures AliasLines(us + [u]) == AliasLines(us) + [AliasLine(u.email)]
    ensures MailboxLines(us + [u]) == MailboxLines(us) + [MailboxLine(u.email)]
  {
    var all := us + [u];
    forall i | 0 <= i < |all|
      ensures PasswdLines(all)[i] == (PasswdLines(us) + [PasswdLine(u)])[i]
      ensures AliasLines(all)[i] == (AliasLines(us) + [AliasLine(u.email)])[i]
      ensures MailboxLines(all)[i] == (MailboxLines(us) + [MailboxLine(u.email)])[i]
    {
      assert i < |us| ==> all[i] == us[i];
    }
  }

  lemma AddRefines(us: seq<User>, op: Op)
    requires AllOk(us) && op.Add? && Manageable(op)
    ensures var (us', exit) := Abstractly(us, op);
      AllOk(us') && Perform(Render(us), op) == (Render(us'), exit)
  {
    RenderedReads(us);
    if ValidateEmail(op.email).Some? {
      var e := ValidateEmail(op.email).value;
      EmailsRendered(us, e);
      if op.secret.Some? && AtSplit(e).Some? {
        RenderSnoc(us, User(e, op.secret.value, op.quota));
      }
    }
  }

  lemma DeletedRenders(us: seq<User>, e: string)
    requires AllOk(us) && Has(us, e) && ':' !in e
    ensures AllOk(Without(us, e))
    ensures Render(Without(us, e)) == Files(
      Concat(DropPrefixed(PasswdLines(us), e + ":")),
      Concat(DropPrefixed(AliasLines(us), e + " ")),
      Concat(DropPrefixed(MailboxLines(us), e + " ")))
  {
    var i :| 0 <= i < |us| && us[i].email == e;
    assert us[i] in us;
    DropPasswd(us, e);
    DropAlias(us, e);
    DropMailbox(us, e);
  }

  lemma DeleteRefuses(us: seq<User>, e: string)
    requires AllOk(us) && ':' !in e
    ensures |DropPrefixed(PasswdLines(us), e + ":")| == |PasswdLines(us)| <==> !Has(us, e)
  {
    DropPasswd(us, e);
    WithoutShrinks(us, e);
  }

  lemma DeleteRefines(us: seq<User>, op: Op)
    requires AllOk(us) && op.Delete?
    ensures var (us', exit) := Abstractly(us, op);
      AllOk(us') && Perform(Render(us), op) == (Render(us'), exit)
  {
    RenderedReads(us);
    if ValidateEmail(op.email).Some? {
      var e := ValidateEmail(op.email).value;
      ValidatedHasNoColon(op.email);
      DeleteRefuses(us, e);
      if Has(us, e) {
        DeletedRenders(us, e);
      }
    }
  }

  lemma PasswdRefines(us: seq<User>, op: Op)
    requires AllOk(us) && op.Passwd? && Manageable(op)
    ensures var (us', exit) := Abstractly(us, op);
      AllOk(us') && Perform(Render(us), op) == (Render(us'), exit)
  {
    RenderedReads(us);
    if ValidateEmail(op.email).Some? {
      var e := ValidateEmail(op.email).value;
      ValidatedHasNoColon(op.email);
      FoundRendered(us, e);
      if op.secret.Some? {
        RehashRendered(us, e, op.secret.value);
        MapsRehashed(us, e, op.secret.value);
      }
    }
  }

  function RunFiles(fs: Files, ops: seq<Op>): (Files, seq<Exit>)
    decreases ops
  {
    if ops == [] then (fs, []) else
    var (fs', exit) := Perform(fs, ops[0]);
    var (end, exits) := RunFiles(fs', ops[1..]);
    (end, [exit] + exits)
  }

  function RunStore(us: seq<User>, ops: seq<Op>): (seq<User>, seq<Exit>)
    decreases ops
  {
    if ops == [] then (us, []) else
    var (us', exit) := Abstractly(us, ops[0]);
    var (end, exits) := RunStore(us', ops[1..]);
    (end, [exit] + exits)
  }

  lemma StepRefines(us: seq<User>, op: Op)
    requires AllOk(us) && Manageable(op)
    ensures var (us', exit) := Abstractly(us, op);
      AllOk(us') && Perform(Render(us), op) == (Render(us'), exit)
  {
    match op
    case Add(_, _, _, _) => AddRefines(us, op);
    case Delete(_, _) => DeleteRefines(us, op);
    case Passwd(_, _, _) => PasswdRefines(us, op);
  }

  /** Under every sequence of operations the three files stay exactly the rendering of one abstract
      store, every exit status is the store's, and addresses stay unique. */
  lemma {:induction false} FilesRefineStore(us: seq<User>, ops: seq<Op>)
    requires AllOk(us) && forall op :: op in ops ==> Manageable(op)
    ensures var (end, exits) := RunStore(us, ops);
      AllOk(end) && RunFiles(Render(us), ops) == (Render(end), exits) && (Unique(us) ==> Unique(end))
    decreases ops
  {
    if ops != [] {
      assert ops[0] in ops;
      StepRefines(us, ops[0]);
      if Unique(us) {
        StepKeeps(us, ops[0]);
      }
      FilesRefineStore(Abstractly(us, ops[0]).0, ops[1..]);
    }
  }

  /** Once an address was added, no spelling of it that differs in case can be added again, and nothing changes. */
  lemma AddedOnce(us: seq<User>, op: Op, email: string, secret: Option<string>, quota: string, dryRun: bool)
    requires AllOk(us) && op.Add? && Manageable(op) && !op.dryRun && Perform(Render(us), op).1 == Success
    requires SameButCase(email, op.email)
    ensures var files := Perform(Render(us), op).0; UserAdd(files, email, secret, quota, dryRun) == (files, Failed)
  {
    StepRefines(us, op);
    CaseIsFolded(email, op.email);
    var e := ValidateEmail(op.email).value;
    var after := us + [User(e, op.secret.value, op.quota)];
    assert after[|us|].email == e;
    RenderedReads(after);
    EmailsRendered(after, e);
  }

  // ---- What the store keeps ----

  lemma {:induction false} WithoutUnique(us: seq<User>, email: string)
    requires Unique(us)
    ensures Unique(Without(us, email))
  {
    if us != [] {
      WithoutUnique(us[1..], email);
      WithoutShrinks(us[1..], email);
      var rest := Without(us[1..], email);
      forall j | 0 <= j < |rest|
        ensures rest[j].email != us[0].email
      {
        assert rest[j] in us[1..];
        var k :| 0 <= k < |us[1..]| && us[1..][k] == rest[j];
        assert us[k+1] == rest[j];
      }
    }
  }

  /** Addresses stay unique; a password change keeps everyone's place, address and quota. */
  lemma UniqueSnoc(us: seq<User>, u: User)
    requires Unique(us) && !Has(us, u.email)
    ensures Unique(us + [u])
  {
  }

  lemma RehashKeeps(us: seq<User>, email: string, hash: string)
    ensures var us' := Rehashed(us, email, hash);
      && |us'| == |us| && (Unique(us) ==> Unique(us'))
      && forall i :: 0 <= i < |us| ==>
           us'[i].email == us[i].email && us'[i].quota == us[i].quota && (us[i].email != email ==> us'[i].hash == us[i].hash)
  {
    RehashedAt(us, email, hash);
  }

  lemma StepKeeps(us: seq<User>, op: Op)
    requires AllOk(us) && Unique(us) && Manageable(op)
    ensures var us' := Abstractly(us, op).0;
      && Unique(us')
      && (op.Passwd? ==> |us'| == |us| && forall i :: 0 <= i < |us| ==>
            us'[i].email == us[i].email && us'[i].quota == us[i].quota
            && (Some(us[i].email) != ValidateEmail(op.email) ==> us'[i].hash == us[i].hash))
  {
    if ValidateEmail(op.email).Some? {
      var e := ValidateEmail(op.email).value;
      ValidatedHasNoColon(op.email);
      if op.Add? {
        if op.secret.Some? && !Has(us, e) {
          UniqueSnoc(us, User(e, op.secret.value, op.quota));
        }
      } else if op.Delete? {
        WithoutUnique(us, e);
      } else if op.Passwd? && op.secret.Some? {
        RehashKeeps(us, e, op.secret.value);
      }
    }
  }

  lemma {:induction false} WithoutAppended(us: seq<User>, u: User)
    requires !Has(us, u.email)
    ensures Without(us + [u], u.email) == us
  {
    if us == [] {
      assert us + [u] == [u];
    } else {
      assert (us + [u])[1..] == us[1..] + [u];
      HasCons(us, u.email);
      WithoutAppended(us[1..], u);
      assert us == [us[0]] + us[1..];
    }
  }

  lemma StoreAddThenDelete(us: seq<User>, email: string, hash: string, quota: string)
    requires Abstractly(us, Add(email, Some(hash), quota, false)).1 == Success
    ensures var us' := Abstractly(us, Add(email, Some(hash), quota, false)).0;
      Abstractly(us', Delete(email, false)) == (us, Success)
  {
    var u := User(ValidateEmail(email).value, hash, quota);
    assert (us + [u])[|us|].email == u.email;
    WithoutAppended(us, u);
  }

  /** Adding a user and deleting it again restores all three files byte for byte. */
  lemma AddThenDeleteRestores(us: seq<User>, email: string, hash: string, quota: string)
    requires AllOk(us) && Manageable(Add(email, Some(hash), quota, false))
    ensures var (added, exit) := Perform(Render(us), Add(email, Some(hash), quota, false));
      exit == Success ==> Perform(added, Delete(email, false)) == (Render(us), Success)
  {
    var add := Add(email, Some(hash), quota, false);
    StepRefines(us, add);
    if Abstractly(us, add).1 == Success {
      StepRefines(Abstractly(us, add).0, Delete(email, false));
      StoreAddThenDelete(us, email, hash, quota);
    }
  }

  // ---- What the files give back ----

  /** What the lines list, in order. */
  function Listing(lines: seq<string>): seq<Parsed> {
    if lines == [] then [] else
    (match ParsePasswd(lines[0]) case None => [] case Some(p) => [p]) + Listing(lines[1..])
  }

  lemma {:induction false} ListingAppend(a: seq<string>, b: seq<string>)
    ensures Listing(a + b) == Listing(a) + Listing(b)
  {
    if a == [] {
      assert a + b == b;
    } else {
      assert (a + b)[1..] == a[1..] + b;
      ListingAppend(a[1..], b);
    }
  }

  lemma {:induction false} ListedLine(lines: seq<string>, p: Parsed)
    ensures p in Listing(lines) <==> exists line :: line in lines && ParsePasswd(line) == Some(p)
  {
    if lines != [] {
      ListedLine(lines[1..], p);
      assert lines == [lines[0]] + lines[1..];
      assert lines[0] in lines && forall line :: line in lines[1..] ==> line in lines;
    }
  }

  lemma BreaksAreSpace(c: char)
    ensures IsLineBreak(c) ==> IsSpace(c)
  {
  }

  /** Stripped, a line of a file holds no line break. */
  lemma StripsToOneLine(raw: string)
    requires Piece(IsLineBreak, raw)
    ensures OneLine(Strip(raw))
  {
    var t := TrimLeft(raw);
    var u := TrimRight(t);
    TrimLeftHead(raw);
    TrimRightSuffix(t);
    var off := |raw| - |t|;
    forall k | 0 <= k < |u|
      ensures !IsLineBreak(u[k])
    {
      assert u[k] == raw[off + k];
      if off + k == |raw| - 1 {
        assert k == |u| - 1;
        BreaksAreSpace(u[k]);
      }
    }
  }

  lemma {:induction false} DoubleColonWithin(s: string)
    ensures forall part :: part in DoubleColonParts(s) ==> Inside(part, s)
    decreases |s|
  {
    match Index(s, "::")
    case None =>
    case Some(i) =>
      DoubleColonWithin(s[i+2..]);
      assert Inside(s[..i], s) && Inside(s[i+2..], s);
  }

  lemma LastPartWithin(s: string)
    ensures Inside(LastPart(s), s)
  {
    PartsInside(s, '=');
    assert LastPart(s) in Split(s, '=');
  }

  lemma {:induction false} FirstQuotaWithin(parts: seq<string>, s: string)
    requires forall part :: part in parts ==> Inside(part, s)
    ensures FirstQuota(parts) == "1G" || Inside(FirstQuota(parts), s)
  {
    if parts != [] {
      assert parts[0] in parts && forall part :: part in parts[1..] ==> part in parts;
      if QUOTA_FIELD <= parts[0] {
        LastPartWithin(parts[0]);
      } else {
        FirstQuotaWithin(parts[1..], s);
      }
    }
  }

  /** Nothing read from a file has a line break in its address or quota. */
  lemma ParsedOneLine(raw: string)
    requires Piece(IsLineBreak, raw) && ParsePasswd(raw).Some?
    ensures OneLine(ParsePasswd(raw).value.email) && OneLine(ParsePasswd(raw).value.quota)
  {
    var line := Strip(raw);
    StripsToOneLine(raw);
    PartsInside(line, ':');
    assert Split(line, ':')[0] in Split(line, ':');
    DoubleColonWithin(line);
    FirstQuotaWithin(DoubleColonParts(line), line);
    PrintableOneLine("1G");
  }

  lemma ReadOneLine(text: string, p: Parsed)
    requires p in Listing(ReadLines(text))
    ensures OneLine(p.email) && OneLine(p.quota)
  {
    KeptPieces(IsLineBreak, Universal(text));
    ListedLine(ReadLines(text), p);
    var line :| line in ReadLines(text) && ParsePasswd(line) == Some(p);
    ParsedOneLine(line);
  }

  lemma ListingCons(line: string, rest: seq<string>)
    ensures Listing([line] + rest)
         == (match ParsePasswd(line) case None => [] case Some(p) => [p]) + Listing(rest)
  {
    assert ([line] + rest)[1..] == rest;
  }

  lemma {:induction false} RenderedListing(us: seq<User>)
    requires AllOk(us)
    ensures Listing(PasswdLines(us)) == Map((u: User) => Parsed(u.email, u.hash, u.quota), us)
  {
    if us != [] {
      var u, rest := us[0], us[1..];
      assert us == [u] + rest && u in us;
      RenderedListing(rest);
      ConsPasswd(u, rest);
      PasswdLineOf(u, "");
      ListingCons(PasswdLine(u), PasswdLines(rest));
      assert PasswdLines(us) == [PasswdLine(u)] + PasswdLines(rest);
    }
  }

  lemma ListedIff(raw: string, email: string, rest: string)
    requires Strip(raw) == email + [':'] + rest && ':' !in email && email != ""
    ensures ParsePasswd(raw).Some? <==> email[0] != '#'
  {
    SplitFirst(email, ':', rest);
    assert (email + [':'] + rest)[0] == email[0];
  }

  /** A single written line gives the user back exactly when the address is no comment and the quota plain. */
  lemma OneLineReadsBackIff(email: string, hash: string, quota: string)
    requires AtSplit(email).Some? && ':' !in email && Trimmed(email) && OneLine(email) && HashOk(hash)
    ensures ParsePasswd(FormatLine(email, hash, quota) + "\n") == Some(Parsed(email, hash, quota))
      <==> email[0] != '#' && PlainQuota(quota)
  {
    if email[0] == '#' {
      StripsToLine(email, hash, quota);
      var rest := AddressFirst(email, hash, TrimRight(quota));
      ListedIff(FormatLine(email, hash, quota) + "\n", email, hash + [':'] + rest);
    } else {
      ParseFormatted(email, hash, quota);
      StoredQuotaIff(quota);
    }
  }

  /** What the passwd file holds after a successful add. */
  function AddedLines(us: seq<User>, email: string, hash: string, quota: string): seq<string>
    requires AllOk(us)
  {
    ReadLines(UserAdd(Render(us), email, Some(hash), quota, false).0.passwd)
  }

  lemma AddedPasswd(us: seq<User>, email: string, hash: string, quota: string, e: string)
    requires AllOk(us) && ValidateEmail(email) == Some(e) && AtSplit(e).Some? && !Has(us, e)
    ensures UserAdd(Render(us), email, Some(hash), quota, false).0.passwd
         == Concat(PasswdLines(us) + [FormatLine(e, hash, quota) + "\n"])
  {
    RenderedReads(us);
    EmailsRendered(us, e);
  }

  lemma ConcatSnoc(lines: seq<string>, line: string)
    ensures Concat(lines + [line]) == Concat(lines) + line
  {
    ConcatAppend(lines, [line]);
    assert [line][1..] == [] && line + "" == line;
    assert Concat([line]) == line + Concat([]);
  }

  lemma AddedLinesAre(us: seq<User>, email: string, hash: string, quota: string, e: string)
    requires AllOk(us) && ValidateEmail(email) == Some(e) && AtSplit(e).Some? && !Has(us, e)
    ensures AddedLines(us, email, hash, quota) == PasswdLines(us) + ReadLines(FormatLine(e, hash, quota) + "\n")
  {
    var line := FormatLine(e, hash, quota) + "\n";
    AddedPasswd(us, email, hash, quota, e);
    ConcatSnoc(PasswdLines(us), line);
    RenderedProper(us);
    ReadAfter(PasswdLines(us), line);
  }

  lemma ReadSingle(line: string)
    requires Proper(line)
    ensures ReadLines(line) == [line]
  {
    ReadBack([line]);
    ConcatSnoc([], line);
    assert [] + [line] == [line] && "" + line == line;
  }

  lemma ListingOfOne(line: string)
    ensures Listing([line]) == (match ParsePasswd(line) case None => [] case Some(p) => [p])
  {
    assert Listing([line][1..]) == [];
  }

  lemma SingleIsProper(e: string, hash: string, quota: string)
    requires OneLine(e) && AtSplit(e).Some? && HashOk(hash) && OneLine(quota)
    ensures Proper(FormatLine(e, hash, quota) + "\n")
  {
    FormatIsLine(e, hash, quota);
  }

  lemma AddedListing(us: seq<User>, email: string, hash: string, quota: string, e: string)
    requires AllOk(us) && ValidateEmail(email) == Some(e) && AtSplit(e).Some? && !Has(us, e)
    ensures var added := Listing(ReadLines(FormatLine(e, hash, quota) + "\n"));
      && Listing(AddedLines(us, email, hash, quota)) == Listing(PasswdLines(us)) + added
      && forall p :: p in Listing(PasswdLines(us)) ==> p.email != e
  {
    AddedLinesAre(us, email, hash, quota, e);
    ListingAppend(PasswdLines(us), ReadLines(FormatLine(e, hash, quota) + "\n"));
    RenderedListing(us);
    forall p | p in Listing(PasswdLines(us))
      ensures p.email != e
    {
      var i :| 0 <= i < |us| && Listing(PasswdLines(us))[i] == p;
      assert us[i].email == p.email;
    }
  }

  /** What a caller can check before adding: the address is one line and no comment, the quota one line and plain. */
  predicate Storable(e: string, quota: string) {
    OneLine(e) && (e == "" || e[0] != '#') && QuotaOk(quota)
  }

  lemma ValidatedTrimmed(email: string)
    requires ValidateEmail(email).Some?
    ensures Trimmed(ValidateEmail(email).value)
  {
    StripFixpoint(Lower(email));
  }

  /** After a successful add, the file lists the new user as it was given exactly when address and quota
      are storable; and then it lists that user after everybody it listed before, and nothing else. */
  lemma AddedReadsBackIff(us: seq<User>, email: string, hash: string, quota: string)
    requires AllOk(us) && HashOk(hash) && ValidateEmail(email).Some?
    requires AtSplit(ValidateEmail(email).value).Some? && !Has(us, ValidateEmail(email).value)
    ensures var e, after := ValidateEmail(email).value, Listing(AddedLines(us, email, hash, quota));
      && (Parsed(e, hash, quota) in after <==> Storable(e, quota))
      && (Parsed(e, hash, quota) in after ==> after == Listing(PasswdLines(us)) + [Parsed(e, hash, quota)])
  {
    var e, line := ValidateEmail(email).value, FormatLine(ValidateEmail(email).value, hash, quota) + "\n";
    var p := Parsed(e, hash, quota);
    ValidatedHasNoColon(email);
    ValidatedTrimmed(email);
    AddedListing(us, email, hash, quota, e);
    if p in Listing(AddedLines(us, email, hash, quota)) {
      ReadOneLine(line, p);
    }
    if OneLine(e) && OneLine(quota) {
      SingleIsProper(e, hash, quota);
      ReadSingle(line);
      ListingOfOne(line);
      OneLineReadsBackIff(e, hash, quota);
    }
  }

  lemma FormatTail(e: string, hash: string, quota: string, rest: string)
    requires AtSplit(e).Some?
    ensures FormatLine(e, hash, quota + "\n" + rest) + "\n" == (FormatLine(e, hash, quota) + "\n") + (rest + "\n")
  {
  }

  lemma FirstProper(first: string, more: string)
    requires Proper(first)
    ensures ReadLines(first + more) == [first] + ReadLines(more)
  {
    ConcatSnoc([], first);
    assert [] + [first] == [first] && "" + first == first;
    ReadAfter([first], more);
  }

  /** A quota with a newline in it is cut there: what stands in front is stored as the quota, and what
      follows is read as lines of its own. */
  lemma QuotaIsCutAtNewline(us: seq<User>, email: string, hash: string, first: string, rest: string)
    requires AllOk(us) && HashOk(hash) && OneLine(first) && ValidateEmail(email).Some?
    requires Listable(ValidateEmail(email).value) && !Has(us, ValidateEmail(email).value)
    ensures var e := ValidateEmail(email).value;
      && AddedLines(us, email, hash, first + "\n" + rest)
         == PasswdLines(us) + ([FormatLine(e, hash, first) + "\n"] + ReadLines(rest + "\n"))
      && ParsePasswd(FormatLine(e, hash, first) + "\n") == Some(Parsed(e, hash, StoredQuota(first)))
  {
    var e := ValidateEmail(email).value;
    AddedLinesAre(us, email, hash, first + "\n" + rest, e);
    FormatTail(e, hash, first, rest);
    SingleIsProper(e, hash, first);
    FirstProper(FormatLine(e, hash, first) + "\n", rest + "\n");
    ParseFormatted(e, hash, first);
  }

  lemma OneNewlineTwo()
    ensures "1" + "\n" + "2" == "1\n2" && OneLine("1") && OneLine("2") && !OneLine("1\n2") && PlainQuota("1")
  {
    PrintableOneLine("1");
    PrintableOneLine("2");
    assert "1\n2"[1] == '\n' && '\n' in "1\n2" && IsLineBreak('\n');
    assert Index("1", "::").None?;
  }

  /** For instance "1\n2", of which "1" comes back. */
  lemma NewlineQuotaIsNotReadBack(us: seq<User>, email: string, hash: string)
    requires AllOk(us) && HashOk(hash) && ValidateEmail(email).Some?
    requires Listable(ValidateEmail(email).value) && !Has(us, ValidateEmail(email).value)
    ensures var e, after := ValidateEmail(email).value, Listing(AddedLines(us, email, hash, "1\n2"));
      Parsed(e, hash, "1\n2") !in after && Parsed(e, hash, "1") in after
  {
    var e, lines := ValidateEmail(email).value, AddedLines(us, email, hash, "1\n2");
    OneNewlineTwo();
    QuotaIsCutAtNewline(us, email, hash, "1", "2");
    StoredQuotaIff("1");
    assert lines[|us|] == FormatLine(e, hash, "1") + "\n" && lines[|us|] in lines;
    ListedLine(lines, Parsed(e, hash, "1"));
    AddedReadsBackIff(us, email, hash, "1\n2");
  }

  // ---- What a delete leaves of the map files ----

  function Entry(owner: string, value: string): string { owner + " " + value + "\n" }

  function Self(owner: string): string { owner }

  function MailboxPath(owner: string): string {
    match AtSplit(owner) case None => "" case Some(at) => at.0 + "/" + at.1 + "/"
  }

  function Entries(owners: seq<string>, value: string -> string): seq<string> {
    if owners == [] then [] else [Entry(owners[0], value(owners[0]))] + Entries(owners[1..], value)
  }

  /** Deleting `e` takes this entry: it is e's own, or its owner goes on with a space after e, or e goes on
      after its owner with what the entry's value starts with. */
  predicate Taken(e: string, owner: string, value: string) {
    || e == owner
    || e + " " <= owner
    || (owner + " " <= e && e[|owner|+1..] + " " <= value)
  }

  function Spared(e: string, owners: seq<string>, value: string -> string): seq<string> {
    if owners == [] then [] else
    (if Taken(e, owners[0], value(owners[0])) then [] else [owners[0]]) + Spared(e, owners[1..], value)
  }

  lemma ShorterPrefix(p: string, s: string, more: string)
    ensures |p| <= |s| ==> (p <= s + more <==> p <= s)
  {
    if |p| <= |s| {
      assert (s + more)[..|p|] == s[..|p|];
    }
  }

  lemma PrefixBeyond(s: string, p: string, more: string)
    ensures s + p <= s + more <==> p <= more
  {
    if s + p <= s + more {
      assert forall i :: 0 <= i < |p| ==> p[i] == (s + p)[|s| + i] == (s + more)[|s| + i] == more[i];
    }
    if p <= more {
      assert s + more == (s + p) + more[|p|..];
    }
  }

  lemma LongerOwner(e: string, owner: string, more: string)
    requires |owner| < |e| && e + " " <= (owner + " ") + more
    ensures owner + " " <= e
  {
    var n := |owner| + 1;
    assert e[..n] == (e + " ")[..n] == ((owner + " ") + more)[..n] == owner + " ";
  }

  /** The prefix test of the delete loop takes exactly those entries. */
  lemma PrefixTakes(e: string, owner: string, value: string)
    ensures e + " " <= Entry(owner, value) <==> Taken(e, owner, value)
  {
    var more := value + "\n";
    assert Entry(owner, value) == (owner + " ") + more;
    if |e| < |owner| {
      assert owner + (" " + more) == (owner + " ") + more;
      ShorterPrefix(e + " ", owner, " " + more);
    } else if |e| == |owner| {
      ShorterPrefix(e + " ", owner + " ", more);
      assert e + " " <= owner + " " ==> e == (e + " ")[..|e|] == (owner + " ")[..|e|] == owner;
    } else if owner + " " <= e {
      var rest := e[|owner|+1..];
      assert e + " " == (owner + " ") + (rest + " ");
      PrefixBeyond(owner + " ", rest + " ", more);
      LastIsSpace(rest, value);
    } else if e + " " <= (owner + " ") + more {
      LongerOwner(e, owner, more);
    }
  }

  lemma LastIsSpace(rest: string, value: string)
    ensures rest + " " <= value + "\n" <==> rest + " " <= value
  {
    if rest + " " <= value + "\n" {
      assert (value + "\n")[|rest|] == ' ';
      ShorterPrefix(rest + " ", value, "\n");
    }
  }

  lemma {:induction false} DropEntries(e: string, owners: seq<string>, value: string -> string)
    ensures DropPrefixed(Entries(owners, value), e + " ") == Entries(Spared(e, owners, value), value)
  {
    if owners != [] {
      var o, rest := owners[0], owners[1..];
      DropEntries(e, rest, value);
      PrefixTakes(e, o, value(o));
      DropCons(Entry(o, value(o)), Entries(rest, value), e + " ");
      var left := Spared(e, rest, value);
      assert ([o] + left)[1..] == left;
      assert [] + left == left;
    }
  }

  predicate MapOwner(o: string) { OneLine(o) && AtSplit(o).Some? }

  lemma {:induction false} EntriesProper(owners: seq<string>)
    requires forall o :: o in owners ==> MapOwner(o)
    ensures AllProper(Entries(owners, Self)) && AllProper(Entries(owners, MailboxPath))
  {
    if owners != [] {
      assert owners[0] in owners && forall o :: o in owners[1..] ==> o in owners;
      EntriesProper(owners[1..]);
      MapLinesAreLines(owners[0]);
      MapEntries(owners[0]);
    }
  }

  lemma MapEntries(o: string)
    requires AtSplit(o).Some?
    ensures AliasLine(o) == Entry(o, Self(o)) && MailboxLine(o) == Entry(o, MailboxPath(o))
  {
  }

  lemma {:induction false} SparedOwners(e: string, owners: seq<string>, value: string -> string)
    ensures forall o :: o in Spared(e, owners, value) <==> o in owners && !Taken(e, o, value(o))
  {
    if owners != [] {
      SparedOwners(e, owners[1..], value);
      assert owners == [owners[0]] + owners[1..];
    }
  }

  /** Whatever addresses the map files list, with spaces or not: a successful delete leaves in each exactly
      the entries it does not take, in order. */
  lemma DeleteLeavesMaps(fs: Files, email: string, owners: seq<string>)
    requires ValidateEmail(email).Some? && forall o :: o in owners ==> MapOwner(o)
    requires ReadLines(fs.alias) == Entries(owners, Self) && ReadLines(fs.mailbox) == Entries(owners, MailboxPath)
    ensures var (left, exit) := UserDelete(fs, email, false);
      var e := ValidateEmail(email).value;
      exit == Success ==>
        && ReadLines(left.alias) == Entries(Spared(e, owners, Self), Self)
        && ReadLines(left.mailbox) == Entries(Spared(e, owners, MailboxPath), MailboxPath)
  {
    var e := ValidateEmail(email).value;
    DropEntries(e, owners, Self);
    DropEntries(e, owners, MailboxPath);
    SparedOwners(e, owners, Self);
    SparedOwners(e, owners, MailboxPath);
    EntriesProper(Spared(e, owners, Self));
    EntriesProper(Spared(e, owners, MailboxPath));
    ReadBack(Entries(Spared(e, owners, Self), Self));
    ReadBack(Entries(Spared(e, owners, MailboxPath), MailboxPath));
  }

  lemma {:induction false} EntryListed(owners: seq<string>, o: string)
    ensures Entry(o, o) in Entries(owners, Self) <==> o in owners
  {
    if owners != [] {
      EntryListed(owners[1..], o);
      assert owners == [owners[0]] + owners[1..];
      if Entry(o, o) == Entry(owners[0], owners[0]) {
        assert |Entry(o, o)| == 2 * |o| + 2 && |Entry(owners[0], owners[0])| == 2 * |owners[0]| + 2;
        assert o == Entry(o, o)[..|o|] == Entry(owners[0], owners[0])[..|o|] == owners[0];
      }
    }
  }

  lemma PrefixHasSpace(a: string, b: string)
    ensures a + " " <= b ==> ' ' in b
  {
    if a + " " <= b {
      assert b[|a|] == (a + " ")[|a|];
    }
  }

  /** Deleting an address without a space costs another user the alias entry exactly when that user's
      address goes on with a space after it. */
  lemma AliasLostIff(fs: Files, email: string, owners: seq<string>, other: string)
    requires ValidateEmail(email).Some? && ' ' !in ValidateEmail(email).value
    requires forall o :: o in owners ==> MapOwner(o)
    requires ReadLines(fs.alias) == Entries(owners, Self) && ReadLines(fs.mailbox) == Entries(owners, MailboxPath)
    requires other in owners && other != ValidateEmail(email).value
    ensures var (left, exit) := UserDelete(fs, email, false);
      exit == Success ==>
        (AliasLine(other) !in ReadLines(left.alias) <==> ValidateEmail(email).value + " " <= other)
  {
    var e := ValidateEmail(email).value;
    DeleteLeavesMaps(fs, email, owners);
    EntryListed(Spared(e, owners, Self), other);
    SparedOwners(e, owners, Self);
    PrefixHasSpace(other, e);
  }

  // ---- The home directory ----

  function Power(w: string, n: nat): string { if n == 0 then "" else w + Power(w, n - 1) }

  lemma {:induction false} PowerAdd(w: string, m: nat, n: nat)
    ensures Power(w, m) + Power(w, n) == Power(w, m + n)
  {
    if m == 0 {
      assert "" + Power(w, n) == Power(w, n);
    } else {
      PowerAdd(w, m - 1, n);
      assert w + Power(w, m - 1) + Power(w, n) == w + (Power(w, m - 1) + Power(w, n));
    }
  }

  /** Two strings commute exactly when they are repetitions of one string. */
  lemma {:induction false} CommutingArePowers(u: string, v: string) returns (w: string, m: nat, n: nat)
    requires u + v == v + u
    ensures u == Power(w, m) && v == Power(w, n)
    decreases |u| + |v|, |u|
  {
    if u == "" {
      w, m, n := v, 0, 1;
      assert Power(v, 1) == v + Power(v, 0) == v;
    } else if |u| > |v| {
      w, n, m := CommutingArePowers(v, u);
    } else {
      var rest := v[|u|..];
      assert v == (v + u)[..|v|] == (u + v)[..|v|];
      assert v[..|u|] == u && v == u + rest;
      assert u + (u + rest) == u + (rest + u) by { assert u + v == u + (u + rest) && v + u == u + (rest + u); }
      assert u + rest == (u + (u + rest))[|u|..] == (u + (rest + u))[|u|..] == rest + u;
      var k;
      w, m, k := CommutingArePowers(u, rest);
      n := m + k;
      PowerAdd(w, m, k);
    }
  }

  ghost predicate RepeatsOneString(u: string, v: string) {
    exists w, m: nat, n: nat :: u == Power(w, m) && v == Power(w, n)
  }

  lemma CommuteIff(u: string, v: string)
    ensures u + v == v + u <==> RepeatsOneString(u, v)
  {
    if u + v == v + u {
      var w, m, n := CommutingArePowers(u, v);
    }
    if RepeatsOneString(u, v) {
      var w, m: nat, n: nat :| u == Power(w, m) && v == Power(w, n);
      PowerAdd(w, m, n);
      PowerAdd(w, n, m);
    }
  }

  lemma SlashedEqual(a: string, b: string)
    requires '/' !in a && '/' !in b
    ensures a + "/" + b == b + "/" + a <==> a == b
  {
    if a + "/" + b == b + "/" + a {
      assert a + ['/'] + b == b + ['/'] + a;
      FieldsAgree(a, b, b, a, '/');
    }
  }

  lemma HomesEqual(a: string, b: string)
    ensures "/var/mail/" + a + "/" + b == "/var/mail/" + b + "/" + a <==> a + "/" + b == b + "/" + a
  {
    var x, y := "/var/mail/" + a + "/" + b, "/var/mail/" + b + "/" + a;
    assert x[10..] == a + "/" + b && y[10..] == b + "/" + a;
    assert x == "/var/mail/" + (a + "/" + b) && y == "/var/mail/" + (b + "/" + a);
  }

  lemma SlashAtEnd(a: string, b: string)
    ensures a + "/" + b == b + "/" + a <==> (a + "/") + (b + "/") == (b + "/") + (a + "/")
  {
    assert (a + "/") + (b + "/") == (a + "/" + b) + "/" && (b + "/") + (a + "/") == (b + "/" + a) + "/";
    var x, y := a + "/" + b, b + "/" + a;
    assert x + "/" == y + "/" ==> x == (x + "/")[..|x|] == (y + "/")[..|x|] == y;
  }

  /** The home directory is named local part first, against the comment in the program, which says domain
      first. The two agree only when the parts, each with a slash after it, repeat one string; without
      slashes of their own, only when they are equal. */
  lemma HomeIsLocalFirst(email: string)
    requires AtSplit(email).Some?
    ensures var (local, domain) := AtSplit(email).value;
      var documented := "/var/mail/" + domain + "/" + local;
      && email == local + "@" + domain
      && (Home(email) == documented <==> RepeatsOneString(local + "/", domain + "/"))
      && ('/' !in email ==> (Home(email) == documented <==> local == domain))
  {
    var i := Index(email, "@").value;
    var (local, domain) := AtSplit(email).value;
    assert email[i..i+1] == "@";
    HomesEqual(local, domain);
    SlashAtEnd(local, domain);
    CommuteIff(local + "/", domain + "/");
    if '/' !in email {
      assert forall c :: c in local || c in domain ==> c in email;
      SlashedEqual(local, domain);
    }
  }
}
