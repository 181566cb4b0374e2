/**
 The EVM first action (`apps/api/src/account/evm-activation.service.ts`): the gates before a
 transaction leaves, the row status around a deployment, and the at-most-once broadcast
 ledger (`apps/api/src/relayer/relayer-idempotency.service.ts`).

 Calldata is kept as the fields it is built from, so equal hashes mean equal fields. What the
 chain, the fee service and the configuration answer is input; `None` is an answer that threw.
 */
module EvmFirstAction {
  import opened Bytes
  import opened Relaying
  import opened WalletRows

  /** The signed calldata of one relayed transaction. */
  datatype Payload =
    | DeployCall(pid: Pid, key: Key, policy: int, maxTotal: nat, deadline: int, networkFee: nat, assertion: nat)
    | ExecuteCall(
        to: nat, value: nat, data: Bytes, policy: int, maxTotal: nat, deadline: int, networkFee: nat, assertion: nat)

  datatype EntryPoint = ActivateEntry | ExecuteEntry

  /** `@@unique([pid, nonce, chain, entryPoint])`, with the deadline as nonce. */
  datatype Slot = Slot(pid: Pid, deadline: int, chain: nat, entry: EntryPoint)

  /** The parts of `viewOf` that decide the status. */
  datatype View = View(isActive: bool, balance: nat, totalFee: nat)

  function ViewStatus(v: View, current: Status): Status {
    if v.isActive then Active else Classify(v.balance, v.totalFee, current)
  }

  /**
   A transaction handed to the network, with what the relayer had read when it sent it: clock,
   the client's quote, service fee, the asserting key, and for an execute the activation view
   it relies on.
   */
  datatype Sent = Sent(
    slot: Slot, payload: Payload, now: int, quoted: int, serviceFee: nat, asserting: Key, activation: Option<View>)

  /** What the user's authorization allows. */
  predicate Permitted(s: Sent) {
    && s.payload.policy == 2
    && s.now < s.payload.deadline <= s.now + 600
    && s.payload.networkFee * 100 <= s.quoted * 120
    && (s.payload.DeployCall? ==> s.payload.key == s.asserting)
    && s.payload.networkFee + s.serviceFee <= s.payload.maxTotal
    && (s.payload.ExecuteCall? ==> s.activation.Some? && s.activation.value.isActive)
    && s.slot.deadline == s.payload.deadline
    && s.slot.entry == (if s.payload.DeployCall? then ActivateEntry else ExecuteEntry)
  }

  // ---- The broadcast ledger ----

  function Count(sent: seq<Sent>, slot: Slot): nat {
    if sent == [] then 0
    else Count(sent[..|sent| - 1], slot) + if sent[|sent| - 1].slot == slot then 1 else 0
  }

  lemma CountSnoc(sent: seq<Sent>, s: Sent, slot: Slot)
    ensures Count(sent + [s], slot) == Count(sent, slot) + if s.slot == slot then 1 else 0
  {
    assert (sent + [s])[..|sent|] == sent;
  }

  lemma {:induction false} CountNone(sent: seq<Sent>, slot: Slot)
    requires forall i :: 0 <= i < |sent| ==> sent[i].slot != slot
    ensures Count(sent, slot) == 0
  {
    if sent != [] {
      CountNone(sent[..|sent| - 1], slot);
    }
  }

  /** Everything sent under a slot is the slot's one payload. */
  ghost predicate OnePayload(slots: map<Slot, Claim<Payload>>, sent: seq<Sent>) {
    forall i :: 0 <= i < |sent| ==> sent[i].slot in slots && slots[sent[i].slot].payload == sent[i].payload
  }

  ghost predicate AllPermitted(sent: seq<Sent>) {
    forall i :: 0 <= i < |sent| ==> Permitted(sent[i])
  }

  /** A deployment slot is broadcast at most twice, ever. */
  ghost predicate AtMostTwice(sent: seq<Sent>) {
    forall slot: Slot :: slot.entry == ActivateEntry ==> Count(sent, slot) <= 2
  }

  lemma {:induction false} CountMonotone(sent: seq<Sent>, slot: Slot, i: nat, j: nat)
    requires i <= j <= |sent|
    ensures Count(sent[..i], slot) <= Count(sent[..j], slot)
    decreases j
  {
    if i < j {
      CountMonotone(sent, slot, i, j - 1);
      assert sent[..j][..j - 1] == sent[..j - 1];
    }
  }

  lemma CountHere(sent: seq<Sent>, slot: Slot, i: nat)
    requires i < |sent| && sent[i].slot == slot
    ensures Count(sent[..i + 1], slot) == Count(sent[..i], slot) + 1
  {
    assert sent[..i + 1][..i] == sent[..i];
  }

  lemma ThreeCounted(sent: seq<Sent>, slot: Slot, i: nat, j: nat, k: nat)
    requires i < j < k < |sent| && sent[i].slot == sent[j].slot == sent[k].slot == slot
    ensures Count(sent, slot) >= 3
  {
    hide Count;
    CountHere(sent, slot, i);
    CountMonotone(sent, slot, i + 1, j);
    CountHere(sent, slot, j);
    CountMonotone(sent, slot, j + 1, k);
    CountHere(sent, slot, k);
    CountMonotone(sent, slot, k + 1, |sent|);
    assert sent[..|sent|] == sent;
  }

  // ---- Requests and what they meet ----

  /** `None` is a missing field or text that is not a number. */
  datatype DeployRequest = DeployRequest(
    quoted: Option<int>, policy: int, maxTotal: Option<int>, deadline: int, credential: nat, assertion: nat)

  datatype DeployWorld = DeployWorld(
    view: Option<View>,
    breakerClosed: bool,
    relayerConfigured: bool,
    versionAccepted: bool,
    now: int,
    networkFee: nat,
    serviceFee: Option<nat>,
    network: Network,
    resolvedView: Option<View>,
    matches: bool,
    lateFailure: bool,
    finalView: Option<View>)

  datatype ExecuteRequest = ExecuteRequest(
    to: nat, targetValid: bool, value: nat, valueValid: bool, data: Bytes,
    quoted: Option<int>, policy: int, maxTotal: Option<int>, deadline: int, credential: nat, assertion: nat)

  datatype ExecuteWorld = ExecuteWorld(
    breakerClosed: bool,
    relayerConfigured: bool,
    now: int,
    networkFee: nat,
    serviceFee: Option<nat>,
    nonceBefore: Option<nat>,
    nonceNow: Option<nat>,
    network: Network)

  /** The gates of `activate` between the view and the asserting credential. */
  predicate DeployGates(q: DeployRequest, w: DeployWorld) {
    && w.breakerClosed && w.relayerConfigured && w.versionAccepted && q.policy == 2
    && Timely(w.now, q.deadline)
    && q.quoted.Some? && !Drifted(w.networkFee, q.quoted.value)
    && w.serviceFee.Some? && q.maxTotal.Some? && w.networkFee + w.serviceFee.value <= q.maxTotal.value
  }

  /** The gates of `relayExecute`, likewise. */
  predicate ExecuteGates(q: ExecuteRequest, w: ExecuteWorld) {
    && w.breakerClosed && w.relayerConfigured && q.policy == 2
    && q.targetValid && q.valueValid && |q.data| <= 10240
    && Timely(w.now, q.deadline)
    && q.quoted.Some? && !Drifted(w.networkFee, q.quoted.value)
    && w.serviceFee.Some? && q.maxTotal.Some? && w.networkFee + w.serviceFee.value <= q.maxTotal.value
  }

  /** The view `activate` returns: an active one found first, or the one read after the row turned active. */
  predicate ActivationView(w: DeployWorld, row: Row, v: View) {
    || (w.view == Some(v) && v.isActive)
    || (w.view.Some? && !w.view.value.isActive && w.finalView == Some(v) && row.status == Active)
  }

  /** Some active authority of the identity has this credential and this key. */
  predicate IsActiveKey(auths: seq<Authority>, pid: Pid, credential: nat, key: Key) {
    exists k :: && 0 <= k < |auths| && auths[k].pid == pid && auths[k].credential == credential
                && auths[k].active && auths[k].key == key
  }

  predicate Shows(v: Option<View>) {
    v.Some? && v.value.isActive
  }

  /** The deployment's slot was free and the network accepted a submission. */
  ghost predicate DeployAccepted(slots: map<Slot, Claim<Payload>>, s: Sent, n: Network) {
    s.slot !in slots && exists sig :: WasSubmitted(n, sig)
  }

  /** The account shows active, after a duplicate or after the chain answered that the first try landed. */
  ghost predicate DeployFound(slots: map<Slot, Claim<Payload>>, s: Sent, n: Network, view: Option<View>) {
    && Shows(view)
    && if s.slot in slots then slots[s.slot].payload == s.payload else exists sig :: WasSeenLanded(n, sig)
  }

  /** The deployment sent for this request, in this world, by the holder of this key. */
  function DeploySend(q: DeployRequest, w: DeployWorld, id: nat, pid: Pid, key: Key): Sent
    requires DeployGates(q, w)
  {
    Sent(Slot(pid, q.deadline, id, ActivateEntry),
      DeployCall(pid, key, q.policy, q.maxTotal.value, q.deadline, w.networkFee, q.assertion),
      w.now, q.quoted.value, w.serviceFee.value, key, None)
  }

  /** An execute sent for this request, in this world, on the strength of this view. */
  predicate ExecuteSend(
      s: Sent, activation: View, q: ExecuteRequest, w: ExecuteWorld, id: nat, pid: Pid, auths: seq<Authority>)
  {
    && ExecuteGates(q, w)
    && IsActiveKey(auths, pid, q.credential, s.asserting)
    && s.now == w.now && q.quoted == Some(s.quoted) && w.serviceFee == Some(s.serviceFee)
    && s.activation == Some(activation)
    && s.slot == Slot(pid, q.deadline, id, ExecuteEntry)
    && s.payload == ExecuteCall(
         q.to, q.value, q.data, q.policy, q.maxTotal.value, q.deadline, w.networkFee, q.assertion)
  }

  class Relayer {
    var row: Row
    var auths: seq<Authority>
    var slots: map<Slot, Claim<Payload>>
    var sent: seq<Sent>

    ghost predicate Valid()
      reads this
    {
      OnePayload(slots, sent) && AllPermitted(sent) && AtMostTwice(sent)
    }

    constructor (r: Row, credentials: seq<Authority>)
      ensures Valid() && row == r && auths == credentials && sent == []
    {
      row, auths, slots, sent := r, credentials, map[], [];
    }

    /** No authorization is ever broadcast with two payloads, and no deployment a third time. */
    lemma NoThirdDeployment(i: nat, j: nat, k: nat)
      requires Valid()
      requires i < j < k < |sent| && sent[i].slot == sent[j].slot
      ensures sent[i].payload == sent[j].payload
      ensures sent[i].slot.entry == ActivateEntry ==> sent[k].slot != sent[i].slot
    {
      if sent[k].slot == sent[i].slot {
        ThreeCounted(sent, sent[i].slot, i, j, k);
      }
    }

    /** `claimSlot`. */
    method ClaimSlot(slot: Slot, payload: Payload) returns (r: ClaimResult)
      requires Valid()
      modifies this`slots
      ensures Valid()
      ensures r == Claimed(if slot in old(slots) then Some(old(slots)[slot]) else None, payload)
      ensures slots == if r.Proceed? then old(slots)[slot := Claim(payload, None)] else old(slots)
      ensures r.Proceed? ==> Count(sent, slot) == 0
    {
      if slot !in slots {
        CountNone(sent, slot);
        slots := slots[slot := Claim(payload, None)];
        return Proceed;
      }
      if slots[slot].payload == payload {
        return SameBytes(slots[slot].signature);
      }
      return Conflict;
    }

    /** One submission of the slot's bytes. */
    method Send(s: Sent, outcome: Submission) returns (r: Submission)
      requires Valid() && Permitted(s) && s.slot in slots && slots[s.slot].payload == s.payload
      requires s.slot.entry == ActivateEntry ==> Count(sent, s.slot) <= 1
      modifies this`sent
      ensures Valid() && sent == old(sent) + [s] && r == outcome
      ensures Count(sent, s.slot) == old(Count(sent, s.slot)) + 1
    {
      forall slot: Slot
        ensures Count(sent + [s], slot) == Count(sent, slot) + if s.slot == slot then 1 else 0
      {
        CountSnoc(sent, s, slot);
      }
      sent := sent + [s];
      return outcome;
    }

    method Record(slot: Slot, signature: nat)
      requires Valid() && slot in slots
      modifies this`slots
      ensures Valid() && slots == old(slots)[slot := old(slots)[slot].(signature := Some(signature))]
    {
      slots := slots[slot := slots[slot].(signature := Some(signature))];
    }

    /** `resolveWithBound`. */
    method ResolveWithBound(checks: seq<Option<Resolution>>) returns (r: Resolution)
      ensures r == Resolved(checks)
    {
      var attempt := 0;
      while attempt < MAX_RESOLVES && attempt < |checks|
        invariant 0 <= attempt <= |checks|
        invariant Resolved(checks) == Resolved(checks, attempt)
      {
        if checks[attempt].Some? {
          return checks[attempt].value;
        }
        attempt := attempt + 1;
      }
      return Unreadable;
    }

    /** `broadcastWithResolveThenAct`: a second, identical submission only after proof that the first did not land. */
    method Broadcast(s: Sent, n: Network) returns (r: Relay)
      requires Valid() && Permitted(s) && s.slot in slots && slots[s.slot].payload == s.payload
      requires s.slot.entry == ActivateEntry ==> Count(sent, s.slot) == 0
      modifies this`slots, this`sent
      ensures Valid() && s.slot in slots && slots[s.slot].payload == s.payload
      ensures sent == old(sent) + [s] || sent == old(sent) + [s, s]
      ensures sent == old(sent) + [s, s] ==> n.first == Ambiguous && Resolved(n.checks) == NotLanded
      ensures r == Relayed(n)
    {
      hide Count, Resolved, Permitted;
      var first := Send(s, n.first);
      if first.Reverted? {
        return Failed;
      }
      if first.Submitted? {
        Record(s.slot, first.signature);
        return Accepted(first.signature);
      }
      var resolution := ResolveWithBound(n.checks);
      match resolution {
        case Unreadable => return Failed;
        case HasLanded(signature) =>
          if signature.Some? {
            Record(s.slot, signature.value);
          }
          return AlreadyLanded(signature);
        case NotLanded =>
          var second := Send(s, n.second);
          assert sent == old(sent) + [s, s];
          if !second.Submitted? {
            return Failed;
          }
          Record(s.slot, second.signature);
          return Accepted(second.signature);
      }
    }

    /** `broadcastDeploy`: an identical retry never sends; it only looks at the chain. */
    method BroadcastDeploy(s: Sent, n: Network, resolvedView: Option<View>) returns (r: Relay)
      requires Valid() && Permitted(s) && s.payload.DeployCall?
      modifies this`slots, this`sent
      ensures Valid()
      ensures old(sent) <= sent && |sent| <= |old(sent)| + 2
      ensures forall i :: |old(sent)| <= i < |sent| ==> sent[i] == s
      ensures s.slot in old(slots) <==> sent == old(sent)
      ensures |sent| == |old(sent)| + 2 ==> n.first == Ambiguous && FirstAnswer(n.checks, NotLanded)
      ensures r.Accepted? <==> DeployAccepted(old(slots), s, n)
      ensures r.AlreadyLanded? <==> DeployFound(old(slots), s, n, resolvedView)
    {
      hide Count, Resolved, OnePayload, AllPermitted, AtMostTwice, Relayed, WasSubmitted, WasSeenLanded, FirstAnswer;
      RelayedExactly(n);
      ResolvedExactly(n.checks, NotLanded);
      if resolvedView.Some? {
        NeverClassifiedActive(resolvedView.value, row.status);
      }
      var claim := ClaimSlot(s.slot, s.payload);
      match claim {
        case Conflict => return Failed;
        case SameBytes(_) =>
          if resolvedView.None? || ViewStatus(resolvedView.value, row.status) != Active {
            return Failed;
          }
          return AlreadyLanded(None);
        case Proceed =>
          r := Broadcast(s, n);
          if r.AlreadyLanded? && (resolvedView.None? || ViewStatus(resolvedView.value, row.status) != Active) {
            return Failed;
          }
      }
    }

    /** The `try` block of `activate`: claim `activating`, heal, deploy, and settle the status. */
    method Deploy(q: DeployRequest, w: DeployWorld, id: nat, contracts: Contracts, key: Key) returns (r: Option<View>)
      requires Valid() && DeployGates(q, w)
      modifies this`row, this`slots, this`sent
      ensures Valid() && old(sent) <= sent && |sent| <= |old(sent)| + 2
      ensures forall i :: |old(sent)| <= i < |sent| ==> sent[i] == DeploySend(q, w, id, old(row).pid, key)
      ensures Slot(old(row).pid, q.deadline, id, ActivateEntry) in old(slots) <==> sent == old(sent)
      ensures row.status == Active || row.status == Ready
      ensures var s := DeploySend(q, w, id, old(row).pid, key);
              row.status == Active <==>
              && !w.lateFailure
              && (|| (DeployAccepted(old(slots), s, w.network) && w.matches)
                  || (DeployFound(old(slots), s, w.network, w.resolvedView) && w.finalView.Some?))
      ensures var bound := Counterfactual(old(row).pid, contracts.factory, contracts.implementation, key);
              row == Heal(old(row), bound, key).(status := row.status)
      ensures r.Some? ==> r == w.finalView && row.status == Active
    {
      hide OnePayload, AllPermitted, AtMostTwice, ViewStatus, Resolved, DeployAccepted, DeployFound, FirstAnswer;
      ghost var slots0, send := slots, DeploySend(q, w, id, row.pid, key);
      NotBoth(slots0, send, w.network, w.resolvedView);
      row := row.(status := Activating);
      var bound := Counterfactual(row.pid, contracts.factory, contracts.implementation, key);
      if row.address != bound {
        row := row.(address := bound, balance := None, required := None, claimKey := Some(key));
      }
      var deploy := BroadcastDeploy(DeploySend(q, w, id, row.pid, key), w.network, w.resolvedView);
      if deploy.Failed? || (deploy.Accepted? && !w.matches) {
        row := row.(status := Ready);
        return None;
      }
      row := row.(status := Active);
      if w.lateFailure || (w.finalView.None? && deploy.AlreadyLanded?) {
        row := row.(status := Ready);
        return None;
      }
      return w.finalView;
    }

    /** `activate`: every gate, then the deployment, and the view it returns. */
    method Activate(q: DeployRequest, w: DeployWorld, id: nat, contracts: Contracts) returns (r: Option<View>)
      requires Valid()
      modifies this`row, this`slots, this`sent
      ensures Valid() && old(sent) <= sent && |sent| <= |old(sent)| + 2
      ensures sent != old(sent) ==>
        && w.view.Some? && !w.view.value.isActive && old(row).status != Activating
        && w.view.value.balance > 0 && w.view.value.balance >= w.view.value.totalFee
        && w.breakerClosed && w.relayerConfigured && w.versionAccepted
      ensures && w.view.Some? && ViewStatus(w.view.value, old(row).status) == Ready && DeployGates(q, w)
              && OldestActive(auths, old(row).pid).Some?
              && (exists key :: IsActiveKey(auths, old(row).pid, q.credential, key))
              && Slot(old(row).pid, q.deadline, id, ActivateEntry) !in old(slots)
              ==> sent != old(sent)
      ensures forall i :: |old(sent)| <= i < |sent| ==>
        && DeployGates(q, w) && IsActiveKey(auths, row.pid, q.credential, sent[i].asserting)
        && sent[i] == DeploySend(q, w, id, row.pid, sent[i].asserting)
      ensures r.Some? ==> ActivationView(w, row, r.value)
      ensures row == if w.view.None? then old(row) else EvmActivateRow(old(row), auths, contracts,
        EvmAttempt(w.view.value.isActive, w.view.value.balance, w.view.value.totalFee,
          DeployGates(q, w), q.credential, row.status == Active))
      ensures row.status == Activating ==> row == old(row)
    {
      hide OldestActive, Classify, Drifted, Valid;
      if w.view.None? {
        return None;
      }
      var live := ViewStatus(w.view.value, row.status);
      NeverClassifiedActive(w.view.value, row.status);
      ReadyMeans(w.view.value, row.status);
      if live == Active {
        return w.view;
      }
      if live != Ready || !w.breakerClosed || OldestActive(auths, row.pid).None? || !w.relayerConfigured {
        return None;
      }
      if !w.versionAccepted || q.policy != 2 {
        return None;
      }
      if q.deadline <= w.now || q.deadline - w.now > MAX_TTL {
        return None;
      }
      if q.quoted.None? || Drifted(w.networkFee, q.quoted.value) || w.serviceFee.None? || q.maxTotal.None? {
        return None;
      }
      var totalFee := w.networkFee + w.serviceFee.value;
      if totalFee > q.maxTotal.value {
        return None;
      }
      var asserting := Asserting(auths, row.pid, q.credential);
      if asserting.None? {
        return None;
      }
      r := Deploy(q, w, id, contracts, asserting.value);
    }

    /** `relayExecute`, relying on the activation view its caller read. */
    method RelayExecute(activation: View, q: ExecuteRequest, w: ExecuteWorld, id: nat) returns (r: Option<nat>)
      requires Valid() && activation.isActive
      modifies this`slots, this`sent
      ensures Valid() && old(sent) <= sent && |sent| <= |old(sent)| + 2
      ensures sent != old(sent) || r.Some? ==>
        && ExecuteGates(q, w) && w.breakerClosed && w.relayerConfigured
        && q.targetValid && q.valueValid && |q.data| <= 10240
      ensures && ExecuteGates(q, w) && (exists key :: IsActiveKey(auths, row.pid, q.credential, key))
              && Slot(row.pid, q.deadline, id, ExecuteEntry) !in old(slots)
              ==> sent != old(sent)
      ensures var slot := Slot(row.pid, q.deadline, id, ExecuteEntry);
              && (sent != old(sent) && slot in old(slots) ==>
                    old(slots)[slot].signature.None? && w.nonceBefore == Some(0) && w.nonceNow == Some(0))
              && (r.Some? && sent == old(sent) ==> slot in old(slots) && r == old(slots)[slot].signature)
              && (r.Some? && sent != old(sent) ==>
                    WasSubmitted(w.network, r.value) || WasSeenLanded(w.network, r))
      ensures forall i :: |old(sent)| <= i < |sent| ==> ExecuteSend(sent[i], activation, q, w, id, row.pid, auths)
    {
      hide WasSubmitted, WasSeenLanded, Relayed;
      RelayedExactly(w.network);
      if !w.breakerClosed || q.policy != 2 || !q.targetValid || !q.valueValid || |q.data| > 10240 {
        return None;
      }
      if q.deadline <= w.now || q.deadline - w.now > MAX_TTL {
        return None;
      }
      var asserting := Asserting(auths, row.pid, q.credential);
      if asserting.None? || !w.relayerConfigured {
        return None;
      }
      if q.quoted.None? || Drifted(w.networkFee, q.quoted.value) || w.serviceFee.None? || q.maxTotal.None? {
        return None;
      }
      if w.networkFee + w.serviceFee.value > q.maxTotal.value {
        return None;
      }
      var payload := ExecuteCall(
        q.to, q.value, q.data, q.policy, q.maxTotal.value, q.deadline, w.networkFee, q.assertion);
      var slot := Slot(row.pid, q.deadline, id, ExecuteEntry);
      var s := Sent(slot, payload, w.now, q.quoted.value, w.serviceFee.value, asserting.value, Some(activation));
      var claim := ClaimSlot(s.slot, payload);
      match claim {
        case Conflict => return None;
        case SameBytes(signature) =>
          if signature.Some? {
            return signature;
          }
          if w.nonceBefore != Some(0) || w.nonceNow != Some(0) {
            return None;
          }
        case Proceed =>
      }
      var exec := Broadcast(s, w.network);
      match exec {
        case Failed => return None;
        case Accepted(signature) => return Some(signature);
        case AlreadyLanded(attributed) => return attributed;
      }
    }

    /** `activateAndExecute`: the execute leg runs only behind an active view that was read. */
    method ActivateAndExecute(
        dq: DeployRequest, dw: DeployWorld, eq: ExecuteRequest, ew: ExecuteWorld,
        live: Option<View>, id: nat, contracts: Contracts) returns (r: Option<nat>)
      requires Valid()
      modifies this`row, this`slots, this`sent
      ensures Valid() && old(sent) <= sent && |sent| <= |old(sent)| + 4
      ensures forall i :: |old(sent)| <= i < |sent| && sent[i].payload.DeployCall? ==>
        dw.view.Some? && !dw.view.value.isActive && DeployGates(dq, dw) && sent[i].now == dw.now
      ensures forall i :: |old(sent)| <= i < |sent| && sent[i].payload.ExecuteCall? ==>
        && sent[i].activation.Some? && sent[i].activation.value.isActive
        && ActivationView(dw, row, sent[i].activation.value)
        && ExecuteSend(sent[i], sent[i].activation.value, eq, ew, id, row.pid, auths)
      ensures r.Some? ==> ExecuteGates(eq, ew) && exists v :: ActivationView(dw, row, v) && v.isActive
      ensures row.status == Activating ==> row == old(row)
    {
      hide Classify, DeployGates, ExecuteGates, Valid, IsActiveKey;
      if live.None? || ViewStatus(live.value, row.status) == Activating {
        return None;
      }
      var activation := Activate(dq, dw, id, contracts);
      if activation.None? || ViewStatus(activation.value, row.status) != Active {
        return None;
      }
      NeverClassifiedActive(activation.value, row.status);
      NeverClassifiedActive(dw.view.value, old(row).status);
      r := RelayExecute(activation.value, eq, ew, id);
    }
  }

  /** An answer cannot be both that a submission was accepted and that it was found landed. */
  lemma NotBoth(slots: map<Slot, Claim<Payload>>, s: Sent, n: Network, view: Option<View>)
    ensures !(DeployAccepted(slots, s, n) && DeployFound(slots, s, n, view))
  {
    hide WasSubmitted, WasSeenLanded, Relayed;
    RelayedExactly(n);
  }

  lemma ReadyMeans(v: View, current: Status)
    ensures ViewStatus(v, current) == Ready ==>
            !v.isActive && current != Activating && v.balance > 0 && v.balance >= v.totalFee
  {
  }

  lemma NeverClassifiedActive(v: View, current: Status)
    ensures ViewStatus(v, current) == Active <==> v.isActive
  {
  }
}
