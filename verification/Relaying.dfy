/**
 What the relaying services share: fee bounds and authorization lifetime
 (`apps/api/src/common/solana-relay.ts`) and the idempotent broadcast
 (`apps/api/src/relayer/relayer-idempotency.service.ts`).
 */
module Relaying {
  import opened Bytes

  /** Longest authorization lifetime in seconds. */
  const MAX_TTL: int := 600

  /** The authorization is neither expired nor longer-lived than allowed. */
  predicate Timely(now: int, deadline: int) {
    now < deadline <= now + MAX_TTL
  }

  /** `exceedsDriftBound`: more than 120 % of the quote. */
  predicate Drifted(attested: nat, quoted: int) {
    attested * 100 > quoted * 120
  }

  /** `protocolFeeOf`. */
  function ProtocolFee(networkFee: nat, bps: nat): nat {
    networkFee * bps / 10000
  }

  // ---- Slots ----

  /** A slot row: the signed bytes it was claimed with, and the signature once submitted. */
  datatype Claim<P> = Claim(payload: P, signature: Option<nat>)

  datatype ClaimResult = Proceed | SameBytes(signature: Option<nat>) | Conflict

  /** `claimSlot`, given the slot's row. */
  function Claimed<P(==)>(slot: Option<Claim<P>>, payload: P): ClaimResult {
    if slot.None? then Proceed
    else if slot.value.payload == payload then SameBytes(slot.value.signature)
    else Conflict
  }

  // ---- Broadcasts ----

  /** How one submission ends; `Ambiguous` may or may not have reached the network. */
  datatype Submission = Submitted(signature: nat) | Reverted | Ambiguous

  datatype Resolution = HasLanded(signature: Option<nat>) | NotLanded | Unreadable

  /** Submissions, and the chain reads in between: `None` is a read that threw. */
  datatype Network = Network(first: Submission, checks: seq<Option<Resolution>>, second: Submission)

  const MAX_RESOLVES: nat := 5

  /** `resolveWithBound`: the first read that answers, among at most five. */
  function Resolved(checks: seq<Option<Resolution>>, i: nat := 0): Resolution
    requires i <= |checks|
    decreases |checks| - i
  {
    if i >= MAX_RESOLVES || i == |checks| then Unreadable
    else if checks[i].Some? then checks[i].value
    else Resolved(checks, i + 1)
  }

  datatype Relay = Failed | Accepted(signature: nat) | AlreadyLanded(attributed: Option<nat>)

  /** `broadcastWithResolveThenAct`: what the caller gets back. */
  function Relayed(n: Network): Relay {
    match n.first
    case Submitted(signature) => Accepted(signature)
    case Reverted => Failed
    case Ambiguous =>
      match Resolved(n.checks)
      case HasLanded(signature) => AlreadyLanded(signature)
      case Unreadable => Failed
      case NotLanded => if n.second.Submitted? then Accepted(n.second.signature) else Failed
  }

  // ---- What the network's answers amount to ----

  /** The `k`-th chain read is the first that answers, within the bound of five. */
  ghost predicate Answers(checks: seq<Option<Resolution>>, k: nat) {
    k < 5 && k < |checks| && checks[k].Some? && forall j :: 0 <= j < k ==> checks[j].None?
  }

  /** The first answer is `r`. */
  ghost predicate FirstAnswer(checks: seq<Option<Resolution>>, r: Resolution) {
    exists k: nat :: Answers(checks, k) && checks[k].value == r
  }

  /** A submission was accepted: the first, or the second after an answer that the first did not land. */
  ghost predicate WasSubmitted(n: Network, signature: nat) {
    || n.first == Submitted(signature)
    || (n.first == Ambiguous && n.second == Submitted(signature) && FirstAnswer(n.checks, NotLanded))
  }

  /** The chain answered that an ambiguous first submission had landed. */
  ghost predicate WasSeenLanded(n: Network, signature: Option<nat>) {
    n.first == Ambiguous && FirstAnswer(n.checks, HasLanded(signature))
  }

  lemma {:induction false} ResolvedAnswers(checks: seq<Option<Resolution>>, i: nat)
    requires i <= |checks| && forall j :: 0 <= j < i ==> checks[j].None?
    ensures FirstAnswer(checks, Resolved(checks, i))
         || (Resolved(checks, i) == Unreadable && forall k: nat :: !Answers(checks, k))
    decreases |checks| - i
  {
    if i < |checks| && i < 5 {
      if checks[i].Some? {
        assert Answers(checks, i);
      } else {
        ResolvedAnswers(checks, i + 1);
      }
    }
  }

  /** The resolution is the first answer, or unreadable. */
  lemma ResolvedExactly(checks: seq<Option<Resolution>>, r: Resolution)
    requires r != Unreadable
    ensures Resolved(checks) == r <==> FirstAnswer(checks, r)
  {
    hide Resolved;
    ResolvedAnswers(checks, 0);
    if FirstAnswer(checks, r) {
      var k: nat :| Answers(checks, k) && checks[k].value == r;
    }
  }

  /** `broadcastWithResolveThenAct` reports exactly what the network's answers amount to. */
  lemma RelayedExactly(n: Network)
    ensures forall sig :: Relayed(n) == Accepted(sig) <==> WasSubmitted(n, sig)
    ensures forall sig :: Relayed(n) == AlreadyLanded(sig) <==> WasSeenLanded(n, sig)
  {
    hide Resolved, FirstAnswer;
    ResolvedExactly(n.checks, NotLanded);
    forall sig: Option<nat>
      ensures Resolved(n.checks) == HasLanded(sig) <==> FirstAnswer(n.checks, HasLanded(sig))
    {
      ResolvedExactly(n.checks, HasLanded(sig));
    }
  }
}
