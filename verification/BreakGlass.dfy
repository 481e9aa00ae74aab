/** The single-use emergency operator token: one stored record, issued, consumed and cleared. */
module BreakGlass {
  import opened Prelude
  import opened Text

  datatype Token = Token(hash: string, issuedAt: int, expiresAt: int, operator: string, reason: string, used: bool)

  /** The token as it is hashed: stripped and upper-cased. */
  function Folded(token: string): string { Upper(Strip(token)) }

  /** The same token as typed: blanks around it and the case of its letters do not count. */
  predicate SameToken(a: string, b: string) { SameButCase(Strip(a), Strip(b)) }

  lemma FoldedAlikeIff(a: string, b: string)
    ensures Folded(a) == Folded(b) <==> SameToken(a, b)
  {
    CaseForgotten(Strip(a), Strip(b));
  }

  type Digest = string -> string

  datatype Event =
    | Issue(token: string, operator: string, reason: string, now: int, ttl: int)
    | Consume(token: string, now: int, unlinked: bool)
    | Clear(unlinked: bool)

  function Issued(h: Digest, e: Event): Token
    requires e.Issue?
  {
    Token(h(Folded(e.token)), e.now, e.now + e.ttl, e.operator, e.reason, false)
  }

  /** The stored record answers to this token now. */
  predicate Accepts(h: Digest, stored: Option<Token>, token: string, now: int) {
    && stored.Some? && !stored.value.used
    && now < stored.value.expiresAt
    && stored.value.hash == h(Folded(token))
  }

  /** A failing unlink is ignored: the record then stays. */
  function Step(h: Digest, stored: Option<Token>, e: Event): Option<Token> {
    match e
    case Issue(_, _, _, _, _) => Some(Issued(h, e))
    case Consume(token, now, unlinked) => if Accepts(h, stored, token, now) && unlinked then None else stored
    case Clear(unlinked) => if unlinked then None else stored
  }

  class Store {
    const digest: Digest
    var stored: Option<Token>

    constructor (digest: Digest)
      ensures this.digest == digest && stored == None
    {
      this.digest, stored := digest, None;
    }

    method IssueToken(token: string, operator: string, reason: string, now: int, ttl: int)
      modifies this
      ensures stored == Step(digest, old(stored), Issue(token, operator, reason, now, ttl))
      ensures stored == Some(Token(digest(Upper(Strip(token))), now, now + ttl, operator, reason, false))
    {
      stored := Some(Token(digest(Folded(token)), now, now + ttl, operator, reason, false));
    }

    /** (ok, operator); the operator is empty on any failure. */
    method ConsumeToken(token: string, now: int, unlinked: bool) returns (ok: bool, operator: string)
      modifies this
      ensures stored == Step(digest, old(stored), Consume(token, now, unlinked))
      ensures ok == Accepts(digest, old(stored), token, now)
      ensures operator == if ok then old(stored).value.operator else ""
      ensures ok <==>
        && old(stored).Some? && !old(stored).value.used && now < old(stored).value.expiresAt
        && old(stored).value.hash == digest(Upper(Strip(token)))
      ensures stored == if ok && unlinked then None else old(stored)
    {
      if stored.None? || stored.value.used {
        return false, "";
      }
      if stored.value.expiresAt <= now {
        return false, "";
      }
      if stored.value.hash != digest(Folded(token)) {
        return false, "";
      }
      operator := stored.value.operator;
      if unlinked {
        stored := None;
      }
      ok := true;
    }

    method ClearToken(unlinked: bool)
      modifies this
      ensures stored == Step(digest, old(stored), Clear(unlinked))
    {
      if unlinked {
        stored := None;
      }
    }
  }

  // ---- Whole histories ----

  function After(h: Digest, es: seq<Event>): Option<Token> {
    if es == [] then None else Step(h, After(h, es[..|es|-1]), es[|es|-1])
  }

  predicate Succeeds(h: Digest, es: seq<Event>, i: nat)
    requires i < |es|
  {
    es[i].Consume? && Accepts(h, After(h, es[..i]), es[i].token, es[i].now)
  }

  /** Events that replace or wipe the record. */
  predicate Ends(h: Digest, es: seq<Event>, i: nat)
    requires i < |es|
  {
    || es[i].Issue?
    || (es[i].Clear? && es[i].unlinked)
    || (Succeeds(h, es, i) && es[i].unlinked)
  }

  /** `j` is an issue and nothing after it ended it. */
  ghost predicate Outstanding(h: Digest, es: seq<Event>, j: nat) {
    j < |es| && es[j].Issue? && forall k :: j < k < |es| ==> !Ends(h, es, k)
  }

  lemma EndsInPrefix(h: Digest, es: seq<Event>, n: nat, k: nat)
    requires k < n <= |es|
    ensures Ends(h, es[..n], k) == Ends(h, es, k) && Succeeds(h, es[..n], k) == Succeeds(h, es, k)
  {
    assert es[..n][..k] == es[..k];
  }

  lemma OutstandingStep(h: Digest, es: seq<Event>, j: nat)
    requires es != []
    ensures var n := |es| - 1;
      Outstanding(h, es, j) <==> if j == n then es[n].Issue? else Outstanding(h, es[..n], j) && !Ends(h, es, n)
  {
    var n := |es| - 1;
    forall k | 0 <= k < n
      ensures Ends(h, es[..n], k) == Ends(h, es, k)
    {
      EndsInPrefix(h, es, n, k);
    }
  }

  /** The stored record is the issue nothing has ended yet, and there is a record only if there is one. */
  lemma {:induction false} StoredIsOutstanding(h: Digest, es: seq<Event>, j: nat)
    ensures Outstanding(h, es, j) ==> After(h, es) == Some(Issued(h, es[j]))
  {
    if es != [] {
      OutstandingStep(h, es, j);
      StoredIsOutstanding(h, es[..|es|-1], j);
    }
  }

  lemma {:induction false} StoredWasIssued(h: Digest, es: seq<Event>) returns (j: nat)
    requires After(h, es).Some?
    ensures Outstanding(h, es, j)
  {
    var n := |es| - 1;
    if es[n].Issue? {
      j := n;
    } else {
      j := StoredWasIssued(h, es[..n]);
    }
    OutstandingStep(h, es, j);
  }

  /** The digest tells apart the tokens that occur. */
  ghost predicate Injective(h: Digest, es: seq<Event>) {
    forall i, j | 0 <= i < |es| && 0 <= j < |es| && !es[i].Clear? && !es[j].Clear? ::
      h(Folded(es[i].token)) == h(Folded(es[j].token)) ==> SameToken(es[i].token, es[j].token)
  }

  /** A consume succeeds exactly when the latest issue, effective clear or effective success is an
      issue of the same token, up to case and blanks around it, that has not reached its expiry. */
  lemma ConsumeSucceedsIff(h: Digest, es: seq<Event>, i: nat)
    requires i < |es| && es[i].Consume? && Injective(h, es)
    ensures Succeeds(h, es, i) <==>
      exists j: nat :: j < i && Outstanding(h, es[..i], j)
        && SameToken(es[j].token, es[i].token) && es[i].now < es[j].now + es[j].ttl
  {
    var before := es[..i];
    if After(h, before).Some? {
      var j := StoredWasIssued(h, before);
      StoredIsOutstanding(h, before, j);
      assert before[j] == es[j];
    }
    forall j: nat | j < i && Outstanding(h, before, j)
      ensures After(h, before) == Some(Issued(h, es[j]))
      ensures SameToken(es[j].token, es[i].token) <==> h(Folded(es[j].token)) == h(Folded(es[i].token))
    {
      StoredIsOutstanding(h, before, j);
      FoldedAlikeIff(es[j].token, es[i].token);
      assert before[j] == es[j];
    }
  }

  lemma NothingEndedIt(h: Digest, es: seq<Event>, j: nat, i: nat)
    requires Outstanding(h, es, j) && i < |es| && Ends(h, es, i) && !es[i].Issue?
    ensures i < j
  {
  }

  /** One token, one use: between two successes, the first of which wiped the record, lies an issue. */
  lemma SingleUse(h: Digest, es: seq<Event>, i: nat, k: nat) returns (j: nat)
    requires i < k < |es|
    ensures Succeeds(h, es, i) && es[i].unlinked && Succeeds(h, es, k) ==> i < j < k && es[j].Issue?
  {
    j := 0;
    if Succeeds(h, es, i) && es[i].unlinked && Succeeds(h, es, k) {
      EndsInPrefix(h, es, k, i);
      j := StoredWasIssued(h, es[..k]);
      NothingEndedIt(h, es[..k], j, i);
    }
  }

  /** The exception: when wiping failed, the very next submission before the expiry succeeds again. */
  lemma UnwipedSucceedsAgain(h: Digest, es: seq<Event>, i: nat)
    requires i + 1 < |es| && es[i].Consume? && es[i+1].Consume? && SameToken(es[i+1].token, es[i].token)
    ensures Succeeds(h, es, i) && es[i+1].now < After(h, es[..i]).value.expiresAt ==>
      (Succeeds(h, es, i + 1) <==> !es[i].unlinked)
  {
    FoldedAlikeIff(es[i+1].token, es[i].token);
    assert es[..i+1][..i] == es[..i];
  }
}
