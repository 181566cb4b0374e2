/**
 The services as they run: tables that `ensureAccount`, `activate` and `poll` update in place
 (`apps/api/src/account/account.service.ts`, `apps/api/src/account/activation.service.ts`), each
 refining its step of module `WalletRows`.
 */
module WalletDb {
  import opened Bytes
  import opened Relaying
  import opened WalletRows

  /** The quotes of a poll in which they all succeed. */
  function Quotes(quote: Cluster -> Option<nat>): Cluster -> nat {
    c => if quote(c).Some? then quote(c).value else 0
  }

  /** `byChain`: chains in order of first appearance, and the pending rows of each. */
  datatype Groups = Groups(order: seq<ChainId>, members: map<ChainId, seq<nat>>)

  ghost predicate Increasing(s: seq<nat>) {
    forall i, j :: 0 <= i < j < |s| ==> s[i] < s[j]
  }

  /** `members` lists the rows of `chain` among the first `n`, once each and in order. */
  ghost predicate GroupOf(rows: seq<Row>, chain: ChainId, members: seq<nat>, n: nat)
    requires n <= |rows|
  {
    && Increasing(members)
    && (forall k :: 0 <= k < |members| ==> members[k] < n && rows[members[k]].chain == chain)
    && (forall i :: 0 <= i < n && rows[i].chain == chain ==> i in members)
  }

  /** The groups split the first `n` Solana rows by chain, and no chain is listed twice. */
  ghost predicate Partition(g: Groups, rows: seq<Row>, n: nat)
    requires n <= |rows|
  {
    && (forall i, j :: 0 <= i < j < |g.order| ==> g.order[i] != g.order[j])
    && (forall i :: 0 <= i < |g.order| ==> g.order[i] in g.members && g.order[i].Solana?)
    && (forall c :: c in g.members ==> c in g.order)
    && (forall c :: c in g.members ==> GroupOf(rows, c, g.members[c], n))
    && (forall i :: 0 <= i < n && rows[i].chain.Solana? ==> rows[i].chain in g.members)
  }

  function AddToGroup(g: Groups, chain: ChainId, i: nat): Groups {
    if chain in g.members then g.(members := g.members[chain := g.members[chain] + [i]])
    else Groups(g.order + [chain], g.members[chain := [i]])
  }

  lemma GroupJoins(rows: seq<Row>, chain: ChainId, members: seq<nat>, n: nat)
    requires n < |rows| && GroupOf(rows, chain, members, n) && rows[n].chain == chain
    ensures GroupOf(rows, chain, members + [n], n + 1)
  {
    var after := members + [n];
    assert after[|members|] == n;
    forall k | 0 <= k < |members|
      ensures after[k] == members[k] && members[k] < n && rows[members[k]].chain == chain
    {
    }
    forall i | 0 <= i < n && rows[i].chain == chain
      ensures i in after
    {
      assert i in members;
    }
  }

  lemma GroupStep(rows: seq<Row>, chain: ChainId, members: seq<nat>, n: nat)
    requires n < |rows| && GroupOf(rows, chain, members, n)
    ensures GroupOf(rows, chain, if rows[n].chain == chain then members + [n] else members, n + 1)
  {
    if rows[n].chain == chain {
      hide GroupOf;
      GroupJoins(rows, chain, members, n);
    }
  }

  lemma AddKeepsPartition(g: Groups, rows: seq<Row>, n: nat)
    requires n < |rows| && Partition(g, rows, n) && rows[n].chain.Solana?
    ensures Partition(AddToGroup(g, rows[n].chain, n), rows, n + 1)
  {
    hide GroupOf;
    var chain := rows[n].chain;
    var h := AddToGroup(g, chain, n);
    forall c | c in h.members
      ensures GroupOf(rows, c, h.members[c], n + 1)
    {
      if c in g.members {
        GroupStep(rows, c, g.members[c], n);
      } else {
        NewGroup(rows, g, n);
      }
    }
    assert chain in h.order by {
      if chain !in g.members {
        assert h.order[|g.order|] == chain;
      }
    }
  }

  lemma NewGroup(rows: seq<Row>, g: Groups, n: nat)
    requires n < |rows| && Partition(g, rows, n) && rows[n].chain.Solana? && rows[n].chain !in g.members
    ensures GroupOf(rows, rows[n].chain, [n], n + 1)
  {
    assert [n][0] == n;
  }

  /** The grouping loop of `poll`. */
  method GroupByChain(rows: seq<Row>) returns (g: Groups)
    ensures Partition(g, rows, |rows|)
  {
    g := Groups([], map[]);
    var i := 0;
    while i < |rows|
      invariant 0 <= i <= |rows| && Partition(g, rows, i)
    {
      if rows[i].chain.Solana? {
        hide Partition;
        AddKeepsPartition(g, rows, i);
        g := AddToGroup(g, rows[i].chain, i);
      } else {
        SkipKeepsPartition(g, rows, i);
      }
      i := i + 1;
    }
  }

  lemma SkipKeepsPartition(g: Groups, rows: seq<Row>, n: nat)
    requires n < |rows| && Partition(g, rows, n) && !rows[n].chain.Solana?
    ensures Partition(g, rows, n + 1)
  {
    hide GroupOf;
    forall c | c in g.members
      ensures GroupOf(rows, c, g.members[c], n + 1)
    {
      assert c in g.order;
      GroupStep(rows, c, g.members[c], n);
    }
  }

  class Tables {
    var rows: seq<Row>
    var auths: seq<Authority>
    var reg: Registry

    constructor (registry: Registry)
      ensures rows == [] && auths == [] && reg == registry
    {
      rows, auths, reg := [], [], registry;
    }

    /** `chainAccount.create` or the re-pointing `chainAccount.update`. */
    method CreateOrRepoint(pid: Pid, chain: ChainId, derived: Address, key: Key)
      modifies this`rows
      ensures rows == EnsureRow(old(rows), pid, chain, derived, key)
    {
      var existing := Find(rows, pid, chain);
      if existing.None? {
        rows := rows + [Row(pid, chain, derived, Some(key), Inactivated, None, None)];
      } else {
        var row := rows[existing.value];
        if row.address != derived {
          row := row.(address := derived, balance := None, required := None);
          if row.status != Active {
            row := row.(status := Inactivated);
          }
        }
        rows := rows[existing.value := row];
      }
    }

    /** `ensureEvmRows`. */
    method EnsureEvmRows(pid: Pid)
      requires ValidRegistry(reg)
      modifies this`rows
      ensures rows == WalletRows.EnsureEvmRows(old(rows), auths, reg, pid, |reg.deployable|)
    {
      hide OldestActive, EnsureRow, Known;
      var authority := OldestActive(auths, pid);
      if authority.None? {
        return;
      }
      var n := 0;
      while n < |reg.deployable|
        invariant 0 <= n <= |reg.deployable|
        invariant rows == WalletRows.EnsureEvmRows(old(rows), auths, reg, pid, n)
      {
        var id := reg.deployable[n];
        var recorded := Recorded(rows, pid, Evm(id));
        n := n + 1;
        if recorded.Some? && !Known(auths, pid, recorded.value) {
          continue;
        }
        var key := if recorded.Some? then recorded.value else authority.value;
        var contracts := reg.contracts[id];
        CreateOrRepoint(pid, Evm(id), Counterfactual(pid, contracts.factory, contracts.implementation, key), key);
      }
    }

    /** `ensureAccount` with an explicit selection. */
    method EnsureAccount(pid: Pid, c: Cluster)
      requires ValidRegistry(reg)
      modifies this`rows
      ensures rows == Ensure(old(rows), auths, reg, pid, c)
    {
      hide WalletRows.EnsureEvmRows, OldestActive, EnsureRow, ValidRegistry;
      var recorded := Recorded(rows, pid, Solana(Mapped(c)));
      var key := if recorded.Some? then recorded else OldestActive(auths, pid);
      if key.Some? {
        CreateOrRepoint(pid, Solana(Mapped(c)), Vault(pid, Program(reg, c), key.value), key.value);
      }
      assert rows == EnsureSolana(old(rows), auths, reg, pid, c);
      EnsureEvmRows(pid);
    }

    /** `activate`: claim `activating`, heal the address, and settle the status. */
    method ActivateSolana(pid: Pid, c: Cluster, a: Attempt)
      modifies this`rows
      ensures rows == WalletRows.Activate(old(rows), auths, reg, pid, c, a)
    {
      hide Find, OldestActive, Asserting, EndStatus;
      var found := Find(rows, pid, Solana(Mapped(c)));
      if found.None? {
        return;
      }
      var j := found.value;
      var chain := rows[j];
      assert rows[j := chain] == rows;
      if chain.status == Active {
        return;
      }
      var balance, activated := 0, false;
      if a.balance.Some? {
        balance := a.balance.value;
        activated := a.activated == Some(true);
      }
      var live := if activated then Active else Classify(balance, a.required, chain.status);
      if live != Ready || !a.checksPass || OldestActive(auths, pid).None? {
        return;
      }
      SetStatus(j, Activating);
      if !a.credentialRead {
        SetStatus(j, Ready);
        return;
      }
      var asserting := Asserting(auths, pid, a.credential);
      if asserting.None? {
        return;
      }
      if !a.programRead {
        SetStatus(j, Ready);
        return;
      }
      var bound := Vault(pid, Program(reg, c), asserting.value);
      if chain.address != bound {
        rows := rows[j := rows[j].(address := bound, balance := None, required := None)];
        rows := rows[j := rows[j].(claimKey := Some(asserting.value))];
      }
      Submit(j, a);
    }

    /** The rest of `activate` on a row marked `activating`: each `throw` resets it, each bare return leaves it. */
    method Submit(j: nat, a: Attempt)
      requires j < |rows| && rows[j].status == Activating
      modifies this`rows
      ensures rows == old(rows)[j := old(rows)[j].(status := EndStatus(a))]
    {
      hide Drifted, ProtocolFee, Relayed;
      assert rows[j := rows[j].(status := Activating)] == rows;
      if a.relayerBalance < a.required {
        SetStatus(j, Ready);
        return;
      }
      if a.expiry <= a.chainTime || a.expiry - a.chainTime > MAX_TTL {
        return;
      }
      if a.versionAccepted.None? {
        SetStatus(j, Ready);
        return;
      }
      if !a.versionAccepted.value {
        return;
      }
      if a.bps.None? || a.quotedFee.None? || a.networkFee.None? {
        SetStatus(j, Ready);
        return;
      }
      var networkFee := a.networkFee.value;
      if Drifted(networkFee, a.quotedFee.value) {
        if a.branchThrew {
          SetStatus(j, Ready);
        }
        return;
      }
      var totalFee := networkFee + ProtocolFee(networkFee, a.bps.value);
      if a.maxTotalFee.None? || totalFee > a.maxTotalFee.value || a.slot.None? {
        SetStatus(j, Ready);
        return;
      }
      var claim := Claimed(a.slot.value, Intent(a.expiry, a.version, networkFee, a.assertion));
      if claim.Conflict? {
        SetStatus(j, Ready);
        return;
      }
      if claim.SameBytes? && claim.signature.Some? {
        if a.branchThrew {
          SetStatus(j, Ready);
        }
        return;
      }
      var landed := Relayed(a.network);
      if landed.Failed? || (landed != AlreadyLanded(None) && !a.confirmed) {
        SetStatus(j, Ready);
        return;
      }
      SetStatus(j, Active);
      if a.branchThrew {
        SetStatus(j, Ready);
      }
    }

    method SetStatus(j: nat, status: Status)
      requires j < |rows|
      modifies this`rows
      ensures rows == old(rows)[j := old(rows)[j].(status := status)]
    {
      rows := rows[j := rows[j].(status := status)];
    }

    /** The body of `poll`'s inner loop: writes to row `j` from the snapshot `ca`. */
    method PollOne(j: nat, ca: Row, rd: Reading, required: nat)
      requires j < |rows| && rows[j] == ca
      modifies this`rows
      ensures rows == old(rows)[j := PollRow(ca, rd, required)]
    {
      assert rows[j := ca] == rows;
      if rd.activated.None? {
        return;
      }
      var activated := rd.activated.value;
      if activated && ca.status != Active {
        rows := rows[j := rows[j].(status := Active)];
        return;
      }
      if ca.status == Active {
        if activated {
          return;
        }
        rows := rows[j := rows[j].(status := Inactivated, balance := None, required := None)];
        return;
      }
      if rd.balance.None? {
        return;
      }
      var next := Classify(rd.balance.value, required, ca.status);
      rows := rows[j := rows[j].(status := next, balance := rd.balance, required := Some(required))];
    }

    /** One group of `poll`, on a mapped cluster. */
    method PollGroup(
        pending: seq<Row>, chain: ChainId, group: seq<nat>,
        read: (ChainId, Address) -> Reading, quote: Cluster -> Option<nat>, ghost done: set<nat>)
      requires chain.Solana? && chain.reference.Mapped? && quote(chain.reference.cluster).Some?
      requires |rows| == |pending| && Increasing(group)
      requires forall k :: 0 <= k < |group| ==>
        group[k] < |pending| && pending[group[k]].chain == chain && group[k] !in done
      requires forall i :: 0 <= i < |rows| ==>
        rows[i] == if i in done then Polled(pending[i], read, Quotes(quote)) else pending[i]
      modifies this`rows
      ensures |rows| == |pending|
      ensures forall i :: 0 <= i < |rows| ==>
        rows[i] == if i in done || i in group then Polled(pending[i], read, Quotes(quote)) else pending[i]
    {
      var required := quote(chain.reference.cluster).value;
      var k := 0;
      while k < |group|
        invariant 0 <= k <= |group| && |rows| == |pending|
        invariant forall i :: 0 <= i < |rows| ==>
          rows[i] == if i in done || i in group[..k] then Polled(pending[i], read, Quotes(quote)) else pending[i]
      {
        hide PollRow;
        var j := group[k];
        assert j !in group[..k];
        var rd := read(chain, pending[j].address);
        assert Polled(pending[j], read, Quotes(quote)) == PollRow(pending[j], rd, required);
        PollOne(j, pending[j], rd, required);
        assert group[..k + 1] == group[..k] + [j];
        k := k + 1;
      }
      assert group[..k] == group;
    }

    /**
     `poll`: group the snapshot by chain, skip unmapped references, and advance every other
     row once. `ok` is false when a cluster's quote threw and the poll stopped there.
     */
    method PollSolana(read: (ChainId, Address) -> Reading, quote: Cluster -> Option<nat>) returns (ok: bool)
      modifies this`rows
      ensures ok ==> rows == WalletRows.Poll(old(rows), read, Quotes(quote))
      ensures (forall c :: quote(c).Some?) ==> ok
      ensures |rows| == |old(rows)|
      ensures forall i :: 0 <= i < |rows| ==>
        rows[i] == old(rows)[i] || rows[i] == Polled(old(rows)[i], read, Quotes(quote))
    {
      var pending := rows;
      var groups := GroupByChain(pending);
      ghost var done: set<nat> := {};
      var t := 0;
      while t < |groups.order|
        invariant 0 <= t <= |groups.order| && |rows| == |pending|
        invariant forall i :: i in done <==>
          0 <= i < |pending| && Pollable(pending[i]) && pending[i].chain in groups.order[..t]
        invariant forall i :: 0 <= i < |rows| ==>
          rows[i] == if i in done then Polled(pending[i], read, Quotes(quote)) else pending[i]
      {
        hide Polled, Quotes;
        var chain := groups.order[t];
        assert groups.order[..t + 1] == groups.order[..t] + [chain];
        if chain.reference.Mapped? {
          if quote(chain.reference.cluster).None? {
            return false;
          }
          var group := groups.members[chain];
          assert forall k :: 0 <= k < |group| ==> pending[group[k]].chain == chain && chain !in groups.order[..t];
          PollGroup(pending, chain, group, read, quote, done);
          done := done + set k | 0 <= k < |group| :: group[k];
        }
        t := t + 1;
      }
      assert groups.order[..t] == groups.order;
      return true;
    }

    /** The EVM `poll`: rows of other namespaces and rows whose reads threw are left alone. */
    method PollEvm(read: (ChainId, Address) -> Option<EvmReading>)
      modifies this`rows
      ensures rows == WalletRows.EvmPoll(old(rows), read)
    {
      var pending := rows;
      var i := 0;
      while i < |pending|
        invariant 0 <= i <= |pending| == |rows|
        invariant forall k :: 0 <= k < i ==> rows[k] == WalletRows.EvmPoll(pending, read)[k]
        invariant forall k :: i <= k < |rows| ==> rows[k] == pending[k]
      {
        var ca := pending[i];
        var rd := read(ca.chain, ca.address);
        if ca.chain.Evm? && rd.Some? {
          var v := rd.value;
          if !v.deployed {
            if ca.status != Active {
              rows := rows[i := rows[i].(status := Classify(v.balance, v.required, ca.status))];
            }
          } else if v.matches {
            if ca.status != Active {
              rows := rows[i := rows[i].(status := Active)];
            }
          } else if ca.status == Active {
            rows := rows[i := rows[i].(status := Ready)];
          }
        }
        i := i + 1;
      }
    }

    method Register(pid: Pid, credential: nat, key: Key)
      modifies this`auths
      ensures auths == old(auths) + [Authority(pid, credential, key, true)]
    {
      auths := auths + [Authority(pid, credential, key, true)];
    }

    /** `revoke`: the last active credential of an identity stays. */
    method RevokeCredential(i: nat)
      requires i < |auths|
      modifies this`auths
      ensures auths == Revoke(old(auths), i)
    {
      if ActiveCount(auths, auths[i].pid) <= 1 {
        return;
      }
      auths := auths[i := auths[i].(active := false)];
    }
  }
}
