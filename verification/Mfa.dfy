/** One-time passwords and single-use recovery codes. HMAC is any function to twenty bytes. */
module Mfa {
  import opened Prelude
  import opened Text

  newtype Byte = b: int | 0 <= b < 256

  type Mac = m: seq<Byte> | |m| == 20 witness seq(20, _ => 0 as Byte)

  type Hmac = (string, nat) -> Mac

  const COUNTER_LIMIT: int := 0x1_0000_0000_0000_0000

  // ---- Dynamic truncation ----

  function Offset(mac: Mac): (r: nat)
    ensures r < 16
  {
    (mac[19] as int) % 16
  }

  function BigEndian(bs: seq<Byte>): nat {
    if bs == [] then 0 else 256 * BigEndian(bs[..|bs|-1]) + bs[|bs|-1] as int
  }

  /** Four bytes from the offset, with the top bit dropped. They always lie inside the digest. */
  function Truncate(mac: Mac): (r: nat)
    ensures r < 0x8000_0000
  {
    BigEndian(mac[Offset(mac)..Offset(mac) + 4]) % 0x8000_0000
  }

  /** Truncation reads four bytes inside the digest, and drops exactly the top bit of the first. */
  lemma TruncateReads(mac: Mac)
    ensures Offset(mac) + 4 <= 19
    ensures var o := mac[19] as int % 16;
      Truncate(mac) == (mac[o] as int % 128) * 0x100_0000 + mac[o+1] as int * 0x1_0000
                       + mac[o+2] as int * 0x100 + mac[o+3] as int
  {
    var o := Offset(mac);
    var bs := mac[o..o+4];
    assert bs[..3][..2][..1][..0] == [];
    assert bs == [mac[o], mac[o+1], mac[o+2], mac[o+3]];
    FourBytes(mac[o], mac[o+1], mac[o+2], mac[o+3]);
  }

  lemma FourBytes(a: Byte, b: Byte, c: Byte, d: Byte)
    ensures var n := BigEndian([a, b, c, d]);
      && n == a as int * 0x100_0000 + b as int * 0x1_0000 + c as int * 0x100 + d as int
      && n % 0x8000_0000 == (a as int % 128) * 0x100_0000 + b as int * 0x1_0000 + c as int * 0x100 + d as int
  {
    var bs := [a, b, c, d];
    assert bs[..3] == [a, b, c] && [a, b, c][..2] == [a, b] && [a, b][..1] == [a] && [a][..0] == [];
    assert BigEndian([a]) == 256 * BigEndian([]) + a as int;
    assert BigEndian([a, b]) == 256 * BigEndian([a]) + b as int;
    assert BigEndian([a, b, c]) == 256 * BigEndian([a, b]) + c as int;
  }

  // ---- Digits ----

  function Pow10(n: nat): (r: nat)
    ensures r >= 1
  {
    if n == 0 then 1 else 10 * Pow10(n - 1)
  }

  function ZeroFill(s: string, width: nat): (r: string)
    ensures |r| == Max(|s|, width)
    decreases width - |s|
  {
    if |s| >= width then s else ZeroFill("0" + s, width)
  }

  lemma {:induction false} LeadingZero(s: string)
    requires forall c :: c in s ==> IsDigit(c)
    ensures forall c :: c in "0" + s ==> IsDigit(c)
    ensures Numeral("0" + s) == Numeral(s)
    decreases |s|
  {
    if s == "" {
      assert "0" + s == "0";
      assert "0"[..0] == "" && Numeral("0") == 10 * Numeral("") + 0;
    } else {
      var n := |s| - 1;
      assert forall c :: c in s[..n] ==> c in s;
      LeadingZero(s[..n]);
      assert ("0" + s)[..n+1] == "0" + s[..n];
    }
  }

  lemma {:induction false} ZeroFillKeepsValue(s: string, width: nat)
    requires forall c :: c in s ==> IsDigit(c)
    ensures forall c :: c in ZeroFill(s, width) ==> IsDigit(c)
    ensures Numeral(ZeroFill(s, width)) == Numeral(s)
    decreases width - |s|
  {
    if |s| < width {
      LeadingZero(s);
      ZeroFillKeepsValue("0" + s, width);
    }
  }

  lemma {:induction false} DecimalLength(n: nat, width: nat)
    requires width >= 1 && n < Pow10(width)
    ensures |Decimal(n)| <= width
    decreases width
  {
    if n >= 10 {
      assert width > 1 by { assert Pow10(1) == 10 * Pow10(0); }
      DecimalLength(n / 10, width - 1);
    }
  }

  /** The code for one counter value; None where packing the counter into eight bytes fails. */
  function Hotp(hmac: Hmac, secret: string, counter: int, digits: nat): Option<string> {
    if counter < 0 || counter >= COUNTER_LIMIT then None
    else Some(ZeroFill(Decimal(Truncate(hmac(secret, counter)) % Pow10(digits)), digits))
  }

  /** A code is exactly `digits` decimal characters and decodes to the truncated value modulo 10^digits. */
  lemma HotpIsDigits(hmac: Hmac, secret: string, counter: nat, digits: nat)
    requires counter < COUNTER_LIMIT && digits >= 1
    ensures var code := Hotp(hmac, secret, counter, digits);
      && code.Some? && |code.value| == digits && (forall c :: c in code.value ==> IsDigit(c))
      && Numeral(code.value) == Truncate(hmac(secret, counter)) % Pow10(digits)
  {
    var n := Truncate(hmac(secret, counter)) % Pow10(digits);
    DecimalLength(n, digits);
    DecimalReads(n);
    ZeroFillKeepsValue(Decimal(n), digits);
  }

  /** The six-digit codes of authenticator apps: the truncated value modulo a million. */
  lemma SixDigits(hmac: Hmac, secret: string, counter: nat)
    requires counter < 0x1_0000_0000_0000_0000
    ensures var code := Hotp(hmac, secret, counter, 6);
      && code.Some? && |code.value| == 6 && (forall c :: c in code.value ==> '0' <= c <= '9')
      && Numeral(code.value) == Truncate(hmac(secret, counter)) % 1_000_000
  {
    HotpIsDigits(hmac, secret, counter, 6);
    assert Pow10(1) == 10 && Pow10(2) == 100 && Pow10(3) == 1000;
    assert Pow10(4) == 10_000 && Pow10(5) == 100_000 && Pow10(6) == 1_000_000;
  }

  // ---- Time steps ----

  function StepOf(now: nat, interval: nat): nat
    requires interval > 0
  {
    now / interval
  }

  function Totp(hmac: Hmac, secret: string, now: nat, digits: nat, interval: nat): Option<string>
    requires interval > 0
  {
    Hotp(hmac, secret, StepOf(now, interval), digits)
  }

  /** This code belongs to the step `i` away from `counter`. */
  predicate CodeAt(hmac: Hmac, secret: string, code: string, counter: int, digits: nat, i: int) {
    Hotp(hmac, secret, counter + i, digits) == Some(code)
  }

  /** Some step within the window of the current one has this code. */
  ghost predicate InWindow(hmac: Hmac, secret: string, code: string, counter: int, digits: nat, window: nat) {
    exists i :: -(window as int) <= i <= window && CodeAt(hmac, secret, code, counter, digits, i)
  }

  predicate Ascii(s: string) { forall c :: c in s ==> c < '\U{80}' }

  /** The verdict on the steps from `i` on; None where packing a counter or comparing with the code raises. */
  function VerdictFrom(hmac: Hmac, secret: string, code: string, counter: int, digits: nat, window: nat, i: int): Option<bool>
    decreases window + 1 - i
  {
    if i > window then Some(false) else
    match Hotp(hmac, secret, counter + i, digits)
    case None => None
    case Some(expected) =>
      if !Ascii(code) then None
      else if expected == code then Some(true)
      else VerdictFrom(hmac, secret, code, counter, digits, window, i + 1)
  }

  function Verdict(hmac: Hmac, secret: string, code: string, counter: int, digits: nat, window: nat): Option<bool> {
    VerdictFrom(hmac, secret, code, counter, digits, window, -(window as int))
  }

  method VerifyTotp(hmac: Hmac, secret: string, code: string, now: nat, digits: nat, interval: nat, window: nat)
    returns (r: Option<bool>)
    requires interval > 0
    ensures var counter := now / interval;
      && (r == Some(true) <==> Checkable(code, counter, window) && InWindow(hmac, secret, code, counter, digits, window))
      && (r == Some(false) <==> Checkable(code, counter, window) && counter + window < COUNTER_LIMIT
                                && !InWindow(hmac, secret, code, counter, digits, window))
    ensures r == Verdict(hmac, secret, code, now / interval, digits, window)
  {
    var counter := now / interval;
    VerdictMeans(hmac, secret, code, counter, digits, window);
    var i: int := -(window as int);
    while i <= window
      invariant -(window as int) <= i <= window + 1
      invariant Verdict(hmac, secret, code, counter, digits, window)
        == VerdictFrom(hmac, secret, code, counter, digits, window, i)
    {
      var expected := Hotp(hmac, secret, counter + i, digits);
      if expected.None? || !Ascii(code) {
        return None;
      }
      if expected.value == code {
        return Some(true);
      }
      i := i + 1;
    }
    r := Some(false);
  }

  /** The comparison accepts the code, and the first counter of the window can be packed. */
  predicate Checkable(code: string, counter: int, window: nat) { Ascii(code) && window <= counter }

  lemma {:induction false} VerdictFromMeans(
    hmac: Hmac, secret: string, code: string, counter: int, digits: nat, window: nat, i: int)
    requires Ascii(code) && 0 <= counter + i && i <= window + 1
    ensures var v := VerdictFrom(hmac, secret, code, counter, digits, window, i);
      && (v == Some(true) <==> exists k :: i <= k <= window && CodeAt(hmac, secret, code, counter, digits, k))
      && (i <= window ==> (v == Some(false) <==>
            counter + window < COUNTER_LIMIT && forall k :: i <= k <= window ==> !CodeAt(hmac, secret, code, counter, digits, k)))
    decreases window + 1 - i
  {
    if i <= window {
      VerdictFromMeans(hmac, secret, code, counter, digits, window, i + 1);
      assert CodeAt(hmac, secret, code, counter, digits, i) <==> Hotp(hmac, secret, counter + i, digits) == Some(code);
    }
  }

  lemma VerdictMeans(hmac: Hmac, secret: string, code: string, counter: nat, digits: nat, window: nat)
    ensures var v := Verdict(hmac, secret, code, counter, digits, window);
      && (v == Some(true) <==> Checkable(code, counter, window) && InWindow(hmac, secret, code, counter, digits, window))
      && (v == Some(false) <==> Checkable(code, counter, window) && counter + window < COUNTER_LIMIT
                                && !InWindow(hmac, secret, code, counter, digits, window))
  {
    if Checkable(code, counter, window) {
      VerdictFromMeans(hmac, secret, code, counter, digits, window, -(window as int));
    }
  }

  /** Written out: true when the code is ASCII, the first counter of the window is not negative and some step of the
      window has the code; false when it is ASCII, the window stays within eight bytes and no step has it; otherwise
      the check raises. */
  lemma VerdictWritten(hmac: Hmac, secret: string, code: string, counter: nat, digits: nat, window: nat)
    ensures var v := Verdict(hmac, secret, code, counter, digits, window);
      var checkable := window <= counter && forall c :: c in code ==> c as int < 128;
      && (v == Some(true) <==> checkable && InWindow(hmac, secret, code, counter, digits, window))
      && (v == Some(false) <==> checkable && counter + window < 0x1_0000_0000_0000_0000
                                && !InWindow(hmac, secret, code, counter, digits, window))
  {
    VerdictMeans(hmac, secret, code, counter, digits, window);
  }

  lemma QuotientUnique(x: int, n: int, q: int, r: int)
    requires n > 0 && x == n * q + r && 0 <= r < n
    ensures x / n == q
  {
    var d := x / n - q;
    assert x == n * (x / n) + x % n;
    assert n * (x / n) == n * q + n * d;
    assert d >= 1 ==> n * d >= n;
    assert d <= -1 ==> n * d <= -n;
  }

  lemma QuotientShift(t: nat, n: nat, w: nat)
    requires n > 0
    ensures (t + n * w) / n == t / n + w
  {
    assert t == n * (t / n) + t % n;
    assert n * (t / n + w) == n * (t / n) + n * w;
    QuotientUnique(t + n * w, n, t / n + w, t % n);
  }

  lemma QuotientMonotone(a: nat, b: nat, n: nat)
    requires n > 0 && a <= b
    ensures a / n <= b / n
  {
    var p, q := a / n, b / n;
    assert a == n * p + a % n && b == n * q + b % n;
    assert n * p - n * q == n * (p - q);
    assert p - q >= 1 ==> n * (p - q) >= n;
  }

  /** How far apart two moments are bounds how far apart their steps are, from above and from below. */
  lemma StepNear(t: nat, t': nat, n: nat, w: nat, span: nat)
    requires n > 0 && span == n * w && t <= t' <= t + span
    ensures t / n <= t' / n <= t / n + w
  {
    QuotientShift(t, n, w);
    QuotientMonotone(t, t', n);
    QuotientMonotone(t', t + span, n);
  }

  lemma StepFar(t: nat, t': nat, n: nat, w: nat, span: nat)
    requires n > 0 && span == n * w && t + span <= t'
    ensures t' / n >= t / n + w
  {
    QuotientShift(t, n, w);
    QuotientMonotone(t + span, t', n);
  }

  function Distance(a: nat, b: nat): nat { if a <= b then b - a else a - b }

  lemma MintedStep(t: nat, t': nat, n: nat, w: nat)
    requires n > 0
    ensures Distance(t, t') <= n * w ==> -(w as int) <= t / n - t' / n <= w
    ensures Distance(t, t') >= n * (w + 1) ==> !(-(w as int) <= t / n - t' / n <= w)
  {
    var lo, hi := if t <= t' then t else t', if t <= t' then t' else t;
    if Distance(t, t') <= n * w {
      StepNear(lo, hi, n, w, n * w);
    }
    if Distance(t, t') >= n * (w + 1) {
      StepFar(lo, hi, n, w + 1, n * (w + 1));
    }
  }


  /** A code minted at `t` is accepted within `interval * window` seconds of it; from
      `interval * (window + 1)` seconds away it is accepted only if a code of another step coincides. In the
      first `window` steps of the epoch nothing is accepted. */
  lemma CodeLifetime(hmac: Hmac, secret: string, t: nat, t': nat, digits: nat, interval: nat, window: nat)
    requires interval > 0 && t / interval < 0x1_0000_0000_0000_0000
    ensures var code := Totp(hmac, secret, t, digits, interval).value;
      var now := t' / interval;
      var accepted := Verdict(hmac, secret, code, now, digits, window) == Some(true);
      && (Distance(t, t') <= interval * window ==> (accepted <==> window <= now))
      && (Distance(t, t') >= interval * (window + 1) && accepted ==>
            exists i :: -(window as int) <= i <= window && now + i != t / interval
                        && CodeAt(hmac, secret, code, now, digits, i))
  {
    var minted, now := t / interval, t' / interval;
    var code := Totp(hmac, secret, t, digits, interval).value;
    ZeroFillKeepsValue(Decimal(Truncate(hmac(secret, minted)) % Pow10(digits)), digits);
    assert Ascii(code);
    MintedStep(t, t', interval, window);
    CodeWindow(hmac, secret, minted, now, digits, window);
    VerdictMeans(hmac, secret, code, now, digits, window);
  }

  lemma CodeWindow(hmac: Hmac, secret: string, minted: nat, now: nat, digits: nat, window: nat)
    requires minted < COUNTER_LIMIT
    ensures var code := Hotp(hmac, secret, minted, digits).value;
      && (-(window as int) <= minted - now <= window ==> InWindow(hmac, secret, code, now, digits, window))
      && (!(-(window as int) <= minted - now <= window) && InWindow(hmac, secret, code, now, digits, window) ==>
            exists i :: -(window as int) <= i <= window && now + i != minted
                        && CodeAt(hmac, secret, code, now, digits, i))
  {
    var code := Hotp(hmac, secret, minted, digits).value;
    assert now + (minted - now) == minted;
    assert CodeAt(hmac, secret, code, now, digits, minted - now);
  }

  // ---- Recovery codes ----

  function RemoveOne(hashes: seq<string>, h: string): seq<string> {
    if hashes == [] then [] else if hashes[0] == h then hashes[1..] else [hashes[0]] + RemoveOne(hashes[1..], h)
  }

  /** (matched?, what is left). */
  function Use(stored: seq<string>, code: string, digest: string -> string): (bool, seq<string>) {
    if code == "" then (false, stored)
    else (digest(code) in stored, RemoveOne(stored, digest(code)))
  }

  method VerifyAndConsume(stored: seq<string>, code: string, digest: string -> string)
    returns (ok: bool, remaining: seq<string>)
    ensures (ok, remaining) == Use(stored, code, digest)
    ensures ok ==> multiset(stored) == multiset(remaining) + multiset{digest(code)}
    ensures !ok ==> remaining == stored
  {
    if code == "" {
      return false, stored;
    }
    var target := digest(code);
    remaining, ok := [], false;
    LeftEnds(stored, target);
    for i := 0 to |stored|
      invariant target in stored <==> ok || Awaits(stored, i, target)
      invariant RemoveOne(stored, target) == remaining + Left(stored, i, target, ok)
    {
      LeftStep(stored, i, target, ok, remaining);
      if !ok && stored[i] == target {
        ok := true;
      } else {
        remaining := remaining + [stored[i]];
      }
    }
    assert remaining + [] == remaining;
    RemoveOneCounts(stored, target);
  }

  /** What the loop still appends after looking at `i` hashes. */
  function Left(hashes: seq<string>, i: nat, h: string, matched: bool): seq<string>
    requires i <= |hashes|
  {
    if matched then hashes[i..] else RemoveOne(hashes[i..], h)
  }

  predicate Awaits(hashes: seq<string>, i: nat, h: string)
    requires i <= |hashes|
  {
    h in hashes[i..]
  }

  lemma LeftStep(hashes: seq<string>, i: nat, h: string, matched: bool, done: seq<string>)
    requires i < |hashes|
    ensures Awaits(hashes, i, h) <==> hashes[i] == h || Awaits(hashes, i + 1, h)
    ensures !matched && hashes[i] == h ==> Left(hashes, i, h, matched) == Left(hashes, i + 1, h, true)
    ensures matched || hashes[i] != h ==>
      done + Left(hashes, i, h, matched) == (done + [hashes[i]]) + Left(hashes, i + 1, h, matched)
  {
    assert hashes[i..] == [hashes[i]] + hashes[i+1..];
    assert hashes[i..][1..] == hashes[i+1..];
  }

  lemma LeftEnds(hashes: seq<string>, h: string)
    ensures Left(hashes, 0, h, false) == RemoveOne(hashes, h) && (Awaits(hashes, 0, h) <==> h in hashes)
    ensures forall matched :: Left(hashes, |hashes|, h, matched) == []
    ensures !Awaits(hashes, |hashes|, h)
  {
    assert hashes[0..] == hashes;
  }

  lemma {:induction false} RemoveOneCounts(hashes: seq<string>, h: string)
    ensures h in hashes ==> multiset(hashes) == multiset(RemoveOne(hashes, h)) + multiset{h}
    ensures h !in hashes ==> RemoveOne(hashes, h) == hashes
  {
    if hashes != [] {
      assert hashes == [hashes[0]] + hashes[1..];
      if hashes[0] != h {
        RemoveOneCounts(hashes[1..], h);
      }
    }
  }

  lemma UseCounts(stored: seq<string>, code: string, digest: string -> string)
    ensures var (ok, left) := Use(stored, code, digest);
      multiset(stored) == multiset(left) + multiset(if ok then [digest(code)] else [])
  {
    RemoveOneCounts(stored, digest(code));
  }

  /** `part` is `whole` with elements left out. */
  predicate Subsequence(part: seq<string>, whole: seq<string>) {
    if part == [] then true
    else if whole == [] then false
    else if part[0] == whole[0] then Subsequence(part[1..], whole[1..])
    else Subsequence(part, whole[1..])
  }

  lemma {:induction false} SubsequenceSelf(s: seq<string>)
    ensures Subsequence(s, s)
  {
    if s != [] {
      SubsequenceSelf(s[1..]);
    }
  }

  lemma {:induction false} RemoveOneInOrder(part: seq<string>, whole: seq<string>, h: string)
    requires Subsequence(part, whole)
    ensures Subsequence(RemoveOne(part, h), whole)
    decreases |whole|
  {
    if part != [] {
      if part[0] == whole[0] {
        if part[0] == h {
          TailSubsequence(part[1..], whole[1..], whole[0]);
          assert whole == [whole[0]] + whole[1..];
        } else {
          RemoveOneInOrder(part[1..], whole[1..], h);
          assert RemoveOne(part, h)[1..] == RemoveOne(part[1..], h);
        }
      } else {
        RemoveOneInOrder(part, whole[1..], h);
        TailSubsequence(RemoveOne(part, h), whole[1..], whole[0]);
        assert whole == [whole[0]] + whole[1..];
      }
    }
  }

  lemma UseInOrder(stored: seq<string>, whole: seq<string>, code: string, digest: string -> string)
    requires Subsequence(stored, whole)
    ensures Subsequence(Use(stored, code, digest).1, whole)
  {
    RemoveOneInOrder(stored, whole, digest(code));
  }

  lemma {:induction false} TailSubsequence(part: seq<string>, whole: seq<string>, x: string)
    requires Subsequence(part, whole)
    ensures Subsequence(part, [x] + whole)
    decreases |whole|, 1
  {
    assert ([x] + whole)[1..] == whole;
    if part != [] && part[0] == x {
      DropHead(part, whole);
    }
  }

  lemma {:induction false} DropHead(part: seq<string>, whole: seq<string>)
    requires part != [] && Subsequence(part, whole)
    ensures Subsequence(part[1..], whole)
    decreases |whole|, 0
  {
    assert whole == [whole[0]] + whole[1..];
    if part[0] != whole[0] {
      DropHead(part, whole[1..]);
    }
    TailSubsequence(part[1..], whole[1..], whole[0]);
  }

  function Remaining(generated: seq<string>, codes: seq<string>, digest: string -> string): seq<string> {
    if codes == [] then generated else Use(Remaining(generated, codes[..|codes|-1], digest), codes[|codes|-1], digest).1
  }

  /** The hashes of the submissions that were accepted. */
  function Used(generated: seq<string>, codes: seq<string>, digest: string -> string): seq<string> {
    if codes == [] then [] else
    var n := |codes| - 1;
    Used(generated, codes[..n], digest)
    + if Use(Remaining(generated, codes[..n], digest), codes[n], digest).0 then [digest(codes[n])] else []
  }

  /** Between regenerations: generated = remaining + used, and what remains keeps its order. */
  lemma {:induction false} CodesConserved(generated: seq<string>, codes: seq<string>, digest: string -> string)
    ensures multiset(generated)
         == multiset(Remaining(generated, codes, digest)) + multiset(Used(generated, codes, digest))
    ensures Subsequence(Remaining(generated, codes, digest), generated)
  {
    if codes == [] {
      SubsequenceSelf(generated);
    } else {
      var n := |codes| - 1;
      var before := Remaining(generated, codes[..n], digest);
      CodesConserved(generated, codes[..n], digest);
      UseCounts(before, codes[n], digest);
      UseInOrder(before, generated, codes[n], digest);
    }
  }

  /** So no code is accepted more often than it was generated. */
  lemma NoCodeTwice(generated: seq<string>, codes: seq<string>, digest: string -> string, h: string)
    ensures multiset(Used(generated, codes, digest))[h] <= multiset(generated)[h]
  {
    CodesConserved(generated, codes, digest);
  }
}
