/**
 The chain-account rows of `apps/api`: one smart-account row per identity and chain, holding an
 address, the claiming passkey the address commits to, and a status. The steps that write
 rows are wallet setup (`apps/api/src/account/account.service.ts`), Solana activation and
 polling (`apps/api/src/account/activation.service.ts`), their EVM counterparts
 (`apps/api/src/account/evm-activation.service.ts`), and changes of passkeys and deployments.

 Address derivation is a free constructor: injective, and otherwise unknown. Every
 check-then-write of a row is one step, and row writes succeed.
 */
module WalletRows {
  import opened Bytes
  import opened Relaying

  type Pid = nat
  /** A compressed public key. */
  type Key = nat

  datatype Cluster = Devnet | Testnet

  datatype Reference = Mapped(cluster: Cluster) | Unmapped(name: string)

  datatype ChainId = Solana(reference: Reference) | Evm(id: nat)

  datatype Address =
    | Vault(pid: Pid, program: nat, key: Key)
    | Counterfactual(pid: Pid, factory: nat, implementation: nat, key: Key)

  datatype Status = Inactivated | Funded | Insufficient | Ready | Activating | Active

  datatype Row = Row(
    pid: Pid,
    chain: ChainId,
    address: Address,
    claimKey: Option<Key>,
    status: Status,
    balance: Option<nat>,
    required: Option<nat>)

  /** In order of creation; revoked credentials stay. */
  datatype Authority = Authority(pid: Pid, credential: nat, key: Key, active: bool)

  datatype Contracts = Contracts(factory: nat, implementation: nat)

  /** The registry: one program per cluster and the deployable EVM chains. */
  datatype Registry = Registry(devnet: nat, testnet: nat, deployable: seq<nat>, contracts: map<nat, Contracts>)

  function Program(reg: Registry, c: Cluster): (p: nat)
    ensures c == Devnet ==> p == reg.devnet
    ensures c == Testnet ==> p == reg.testnet
  {
    if c == Devnet then reg.devnet else reg.testnet
  }

  predicate ValidRegistry(reg: Registry) {
    forall i :: 0 <= i < |reg.deployable| ==> reg.deployable[i] in reg.contracts
  }

  /** The address a claiming key commits to on a chain, where the registry can derive one. */
  function Derive(reg: Registry, pid: Pid, chain: ChainId, key: Key): Option<Address> {
    match chain
    case Solana(Mapped(c)) => Some(Vault(pid, Program(reg, c), key))
    case Solana(Unmapped(_)) => None
    case Evm(id) =>
      if id in reg.contracts
      then Some(Counterfactual(pid, reg.contracts[id].factory, reg.contracts[id].implementation, key))
      else None
  }

  // ---- Lookups ----

  /** `authority.findFirst({ status: "active" }, createdAt asc)`. */
  function OldestActive(auths: seq<Authority>, pid: Pid, i: nat := 0): (r: Option<Key>)
    requires i <= |auths|
    ensures r.Some? ==> Known(auths, pid, r.value) && FirstActive(auths, pid, r.value, i)
    ensures r.None? ==> forall k :: i <= k < |auths| ==> auths[k].pid != pid || !auths[k].active
    decreases |auths| - i
  {
    if i == |auths| then None
    else if auths[i].pid == pid && auths[i].active then Some(auths[i].key)
    else OldestActive(auths, pid, i + 1)
  }

  /** `key` is that of the first active authority of `pid` from `i` on. */
  predicate FirstActive(auths: seq<Authority>, pid: Pid, key: Key, i: nat := 0) {
    exists k :: && i <= k < |auths|
                && auths[k].pid == pid && auths[k].active && auths[k].key == key
                && forall j :: i <= j < k ==> auths[j].pid != pid || !auths[j].active
  }

  /** `key` is that of an active authority of `pid` with this credential. */
  predicate ActiveCredential(auths: seq<Authority>, pid: Pid, credential: nat, key: Key) {
    exists k :: && 0 <= k < |auths|
                && auths[k].pid == pid && auths[k].credential == credential && auths[k].active && auths[k].key == key
  }

  /** The active credential an assertion names. */
  function Asserting(auths: seq<Authority>, pid: Pid, credential: nat, i: nat := 0): (r: Option<Key>)
    requires i <= |auths|
    ensures r.Some? ==> Known(auths, pid, r.value) && ActiveCredential(auths, pid, credential, r.value)
    ensures r.Some? ==> exists k :: && i <= k < |auths| && auths[k].pid == pid && auths[k].credential == credential
                                    && auths[k].active && auths[k].key == r.value
    ensures r.None? ==> forall k :: i <= k < |auths| ==>
              auths[k].pid != pid || auths[k].credential != credential || !auths[k].active
    decreases |auths| - i
  {
    if i == |auths| then None
    else if auths[i].pid == pid && auths[i].credential == credential && auths[i].active then Some(auths[i].key)
    else Asserting(auths, pid, credential, i + 1)
  }

  /** `claimKeyXy` finds the key material, whatever the credential's status. */
  predicate Known(auths: seq<Authority>, pid: Pid, key: Key) {
    exists i :: 0 <= i < |auths| && auths[i].pid == pid && auths[i].key == key
  }

  function Find(rows: seq<Row>, pid: Pid, chain: ChainId, i: nat := 0): (r: Option<nat>)
    requires i <= |rows|
    ensures r.Some? ==> i <= r.value < |rows| && rows[r.value].pid == pid && rows[r.value].chain == chain
    ensures r.None? ==> forall k :: i <= k < |rows| ==> rows[k].pid != pid || rows[k].chain != chain
    decreases |rows| - i
  {
    if i == |rows| then None
    else if rows[i].pid == pid && rows[i].chain == chain then Some(i)
    else Find(rows, pid, chain, i + 1)
  }

  // ---- Wallet setup ----

  /** Re-point a row to the derived address; the key stays and an active row stays active. */
  function Repoint(row: Row, derived: Address): Row {
    if row.address == derived then row
    else row.(address := derived, balance := None, required := None,
              status := if row.status == Active then Active else Inactivated)
  }

  function NewRow(pid: Pid, chain: ChainId, derived: Address, key: Key): Row {
    Row(pid, chain, derived, Some(key), Inactivated, None, None)
  }

  function EnsureRow(rows: seq<Row>, pid: Pid, chain: ChainId, derived: Address, key: Key): seq<Row> {
    match Find(rows, pid, chain)
    case None => rows + [NewRow(pid, chain, derived, key)]
    case Some(j) => rows[j := Repoint(rows[j], derived)]
  }

  function Recorded(rows: seq<Row>, pid: Pid, chain: ChainId): Option<Key> {
    match Find(rows, pid, chain)
    case None => None
    case Some(j) => rows[j].claimKey
  }

  function EnsureSolana(rows: seq<Row>, auths: seq<Authority>, reg: Registry, pid: Pid, c: Cluster): seq<Row> {
    var recorded := Recorded(rows, pid, Solana(Mapped(c)));
    var key := if recorded.Some? then recorded else OldestActive(auths, pid);
    if key.None? then rows
    else EnsureRow(rows, pid, Solana(Mapped(c)), Vault(pid, Program(reg, c), key.value), key.value)
  }

  /** One turn of the loop in `ensureEvmRows`, with the oldest active key. */
  function EnsureEvm(rows: seq<Row>, auths: seq<Authority>, reg: Registry, pid: Pid, oldest: Key, id: nat): seq<Row>
    requires id in reg.contracts
  {
    var recorded := Recorded(rows, pid, Evm(id));
    if recorded.Some? && !Known(auths, pid, recorded.value) then rows
    else
      var key := if recorded.Some? then recorded.value else oldest;
      var derived := Counterfactual(pid, reg.contracts[id].factory, reg.contracts[id].implementation, key);
      EnsureRow(rows, pid, Evm(id), derived, key)
  }

  function EnsureEvmRows(rows: seq<Row>, auths: seq<Authority>, reg: Registry, pid: Pid, n: nat): seq<Row>
    requires ValidRegistry(reg) && n <= |reg.deployable|
    decreases n
  {
    var oldest := OldestActive(auths, pid);
    if oldest.None? || n == 0 then rows
    else EnsureEvm(EnsureEvmRows(rows, auths, reg, pid, n - 1), auths, reg, pid, oldest.value, reg.deployable[n - 1])
  }

  function Ensure(rows: seq<Row>, auths: seq<Authority>, reg: Registry, pid: Pid, c: Cluster): seq<Row>
    requires ValidRegistry(reg)
  {
    EnsureEvmRows(EnsureSolana(rows, auths, reg, pid, c), auths, reg, pid, |reg.deployable|)
  }

  // ---- Invariants ----

  /** `@@unique([pid, chainId, accountType])`. */
  ghost predicate Unique(rows: seq<Row>) {
    forall i, j :: 0 <= i < j < |rows| ==> rows[i].pid != rows[j].pid || rows[i].chain != rows[j].chain
  }

  /** The row has a claiming key, and its credential is on record. */
  predicate Keyed(row: Row, auths: seq<Authority>) {
    row.claimKey.Some? && Known(auths, row.pid, row.claimKey.value)
  }

  /** The address is the derivation of the claiming key. */
  predicate Bound(row: Row, reg: Registry) {
    row.claimKey.Some? && Derive(reg, row.pid, row.chain, row.claimKey.value) == Some(row.address)
  }

  ghost predicate AllKeyed(rows: seq<Row>, auths: seq<Authority>) {
    forall i :: 0 <= i < |rows| ==> Keyed(rows[i], auths)
  }

  ghost predicate AllBound(rows: seq<Row>, reg: Registry) {
    forall i :: 0 <= i < |rows| ==> Bound(rows[i], reg)
  }

  /** Identity, chain and claiming key of a row stay, and an active row stays active. */
  predicate SameOwner(a: Row, b: Row) {
    a.pid == b.pid && a.chain == b.chain && a.claimKey == b.claimKey && (a.status == Active ==> b.status == Active)
  }

  ghost predicate Extends(a: seq<Row>, b: seq<Row>) {
    |a| <= |b| && forall i :: 0 <= i < |a| ==> SameOwner(a[i], b[i])
  }

  lemma FindUnique(rows: seq<Row>, i: nat)
    requires Unique(rows) && i < |rows|
    ensures Find(rows, rows[i].pid, rows[i].chain) == Some(i)
  {
  }

  /** What one row's check-then-write does to the whole table. */
  lemma EnsureRowEffect(
      rows: seq<Row>, auths: seq<Authority>, reg: Registry, pid: Pid, chain: ChainId, derived: Address, key: Key)
    requires Unique(rows) && AllKeyed(rows, auths) && Known(auths, pid, key)
    requires Recorded(rows, pid, chain) == None || Recorded(rows, pid, chain) == Some(key)
    requires Derive(reg, pid, chain, key) == Some(derived)
    ensures var after := EnsureRow(rows, pid, chain, derived, key);
            && Unique(after) && AllKeyed(after, auths) && Extends(rows, after)
            && (forall i :: 0 <= i < |rows| && (rows[i].pid != pid || rows[i].chain != chain) ==> after[i] == rows[i])
            && (forall i :: 0 <= i < |after| && after[i].pid == pid && after[i].chain == chain ==> Bound(after[i], reg))
            && (forall i :: |rows| <= i < |after| ==> after[i].pid == pid && Bound(after[i], reg))
            && (forall i :: 0 <= i < |rows| && Bound(rows[i], reg) ==> after[i] == rows[i])
  {
    hide Known, Derive;
    var after := EnsureRow(rows, pid, chain, derived, key);
    match Find(rows, pid, chain) {
      case None =>
        assert Keyed(after[|rows|], auths);
      case Some(j) =>
        assert Keyed(rows[j], auths);
        assert rows[j].claimKey == Some(key);
        forall i | 0 <= i < |rows|
          ensures i != j ==> rows[i].pid != pid || rows[i].chain != chain
        {
          FindUnique(rows, i);
        }
        assert forall i :: 0 <= i < |after| ==> Keyed(after[i], auths) by {
          assert forall i :: 0 <= i < |rows| ==> Keyed(rows[i], auths);
        }
    }
  }

  /** What a setup step keeps and establishes for the rows it is `about`. */
  ghost predicate Restored(
      before: seq<Row>, after: seq<Row>, auths: seq<Authority>, reg: Registry, pid: Pid, chains: set<ChainId>)
  {
    && Unique(after) && AllKeyed(after, auths) && Extends(before, after)
    && (forall i :: 0 <= i < |before| && (before[i].pid != pid || before[i].chain !in chains) ==> after[i] == before[i])
    && (forall i :: 0 <= i < |after| && after[i].pid == pid && after[i].chain in chains ==> Bound(after[i], reg))
    && (forall i :: |before| <= i < |after| ==> after[i].pid == pid && Bound(after[i], reg))
    && (forall i :: 0 <= i < |before| && Bound(before[i], reg) ==> after[i] == before[i])
  }

  lemma RestoredTrans(
      a: seq<Row>, b: seq<Row>, c: seq<Row>,
      auths: seq<Authority>, reg: Registry, pid: Pid, p: set<ChainId>, q: set<ChainId>)
    requires Restored(a, b, auths, reg, pid, p) && Restored(b, c, auths, reg, pid, q)
    ensures Restored(a, c, auths, reg, pid, p + q)
  {
    hide Keyed, Bound, Unique;
    forall i | 0 <= i < |a|
      ensures SameOwner(a[i], c[i])
      ensures a[i].pid != pid || a[i].chain !in p + q ==> c[i] == a[i]
      ensures Bound(a[i], reg) ==> c[i] == a[i]
    {
      assert SameOwner(a[i], b[i]) && SameOwner(b[i], c[i]);
    }
    forall i | 0 <= i < |c| && c[i].pid == pid && c[i].chain in p + q
      ensures Bound(c[i], reg)
    {
      if i < |b| {
        assert SameOwner(b[i], c[i]);
      }
    }
  }

  lemma RestoredNone(rows: seq<Row>, auths: seq<Authority>, reg: Registry, pid: Pid)
    requires Unique(rows) && AllKeyed(rows, auths)
    ensures Restored(rows, rows, auths, reg, pid, {})
  {
  }

  lemma EnsureRowRestores(
      rows: seq<Row>, auths: seq<Authority>, reg: Registry, pid: Pid, chain: ChainId, derived: Address, key: Key)
    requires Unique(rows) && AllKeyed(rows, auths) && Known(auths, pid, key)
    requires Recorded(rows, pid, chain) == None || Recorded(rows, pid, chain) == Some(key)
    requires Derive(reg, pid, chain, key) == Some(derived)
    ensures Restored(rows, EnsureRow(rows, pid, chain, derived, key), auths, reg, pid, {chain})
  {
    hide EnsureRow, Keyed, Bound, Derive, Recorded, Unique, Known;
    EnsureRowEffect(rows, auths, reg, pid, chain, derived, key);
  }

  lemma RecordedKnown(rows: seq<Row>, auths: seq<Authority>, pid: Pid, chain: ChainId)
    requires AllKeyed(rows, auths)
    ensures Recorded(rows, pid, chain).Some? ==> Known(auths, pid, Recorded(rows, pid, chain).value)
    ensures Recorded(rows, pid, chain).None? <==> Find(rows, pid, chain).None?
  {
    hide Known;
    match Find(rows, pid, chain) {
      case None =>
      case Some(j) => assert Keyed(rows[j], auths);
    }
  }

  lemma EnsureSolanaRestores(rows: seq<Row>, auths: seq<Authority>, reg: Registry, pid: Pid, c: Cluster)
    requires Unique(rows) && AllKeyed(rows, auths)
    ensures Restored(rows, EnsureSolana(rows, auths, reg, pid, c), auths, reg, pid, {Solana(Mapped(c))})
  {
    hide EnsureRow, Known, Recorded, Unique, AllKeyed;
    var chain := Solana(Mapped(c));
    RecordedKnown(rows, auths, pid, chain);
    var recorded := Recorded(rows, pid, chain);
    var key := if recorded.Some? then recorded else OldestActive(auths, pid);
    if key.Some? {
      EnsureRowRestores(rows, auths, reg, pid, chain, Vault(pid, Program(reg, c), key.value), key.value);
    } else {
      NothingToRestore(rows, auths, reg, pid, chain);
    }
  }

  lemma NothingToRestore(rows: seq<Row>, auths: seq<Authority>, reg: Registry, pid: Pid, chain: ChainId)
    requires Unique(rows) && AllKeyed(rows, auths) && Find(rows, pid, chain).None?
    ensures Restored(rows, rows, auths, reg, pid, {chain})
  {
    hide Keyed, Bound;
  }

  lemma EnsureEvmRestores(rows: seq<Row>, auths: seq<Authority>, reg: Registry, pid: Pid, oldest: Key, id: nat)
    requires Unique(rows) && AllKeyed(rows, auths) && id in reg.contracts && Known(auths, pid, oldest)
    ensures Restored(rows, EnsureEvm(rows, auths, reg, pid, oldest, id), auths, reg, pid, {Evm(id)})
  {
    hide EnsureRow, Known, Recorded, Unique, AllKeyed, Restored;
    RecordedKnown(rows, auths, pid, Evm(id));
    var recorded := Recorded(rows, pid, Evm(id));
    var key := if recorded.Some? then recorded.value else oldest;
    EnsureRowRestores(rows, auths, reg, pid, Evm(id),
      Counterfactual(pid, reg.contracts[id].factory, reg.contracts[id].implementation, key), key);
  }

  /** The first `n` deployable EVM chains. */
  function EvmChains(reg: Registry, n: nat): set<ChainId>
    requires n <= |reg.deployable|
  {
    set k | 0 <= k < n :: Evm(reg.deployable[k])
  }

  lemma NoEvmChains(reg: Registry)
    ensures EvmChains(reg, 0) == {}
  {
  }

  lemma EvmChainsStep(reg: Registry, n: nat)
    requires 0 < n <= |reg.deployable|
    ensures EvmChains(reg, n) == EvmChains(reg, n - 1) + {Evm(reg.deployable[n - 1])}
  {
  }

  lemma {:induction false} EnsureEvmRowsRestores(rows: seq<Row>, auths: seq<Authority>, reg: Registry, pid: Pid, n: nat)
    requires ValidRegistry(reg) && n <= |reg.deployable| && Unique(rows) && AllKeyed(rows, auths)
    requires OldestActive(auths, pid).Some?
    ensures Restored(rows, EnsureEvmRows(rows, auths, reg, pid, n), auths, reg, pid, EvmChains(reg, n))
    decreases n
  {
    hide EnsureEvm, Known, OldestActive, Restored, Unique, AllKeyed, EvmChains;
    if n == 0 {
      NoEvmChains(reg);
      RestoredNone(rows, auths, reg, pid);
    } else {
      EvmChainsStep(reg, n);
      var mid := EnsureEvmRows(rows, auths, reg, pid, n - 1);
      var oldest := OldestActive(auths, pid).value;
      EnsureEvmRowsRestores(rows, auths, reg, pid, n - 1);
      RestoredKeeps(rows, mid, auths, reg, pid, EvmChains(reg, n - 1));
      EnsureEvmRestores(mid, auths, reg, pid, oldest, reg.deployable[n - 1]);
      RestoredTrans(rows, mid, EnsureEvm(mid, auths, reg, pid, oldest, reg.deployable[n - 1]),
        auths, reg, pid, EvmChains(reg, n - 1), {Evm(reg.deployable[n - 1])});
    }
  }

  lemma RestoredKeeps(a: seq<Row>, b: seq<Row>, auths: seq<Authority>, reg: Registry, pid: Pid, p: set<ChainId>)
    requires Restored(a, b, auths, reg, pid, p)
    ensures Unique(b) && AllKeyed(b, auths)
  {
  }

  /** The chains a setup call is about: the selected cluster and every deployable EVM chain. */
  function SetupChains(reg: Registry, c: Cluster): set<ChainId> {
    {Solana(Mapped(c))} + EvmChains(reg, |reg.deployable|)
  }

  /**
   One setup call on rows that all have their keys, whatever the deployment was when their
   addresses were written: the rows it is about end up bound to their recorded keys, no key
   changes, active rows stay active, and correctly bound rows are untouched.
   */
  lemma EnsureRestores(rows: seq<Row>, auths: seq<Authority>, reg: Registry, pid: Pid, c: Cluster)
    requires ValidRegistry(reg) && Unique(rows) && AllKeyed(rows, auths)
    requires OldestActive(auths, pid).Some?
    ensures Restored(rows, Ensure(rows, auths, reg, pid, c), auths, reg, pid, SetupChains(reg, c))
  {
    hide EnsureSolana, EnsureEvmRows, Restored, OldestActive, EvmChains, Unique, AllKeyed;
    var mid := EnsureSolana(rows, auths, reg, pid, c);
    EnsureSolanaRestores(rows, auths, reg, pid, c);
    RestoredKeeps(rows, mid, auths, reg, pid, {Solana(Mapped(c))});
    EnsureEvmRowsRestores(mid, auths, reg, pid, |reg.deployable|);
    RestoredTrans(rows, mid, EnsureEvmRows(mid, auths, reg, pid, |reg.deployable|),
      auths, reg, pid, {Solana(Mapped(c))}, EvmChains(reg, |reg.deployable|));
  }

  // ---- What setup creates and re-points ----

  /** Only the address moved; balances are forgotten and an inactive row starts over. */
  predicate Repointed(a: Row, b: Row) {
    && b.pid == a.pid && b.chain == a.chain && b.claimKey == a.claimKey
    && b.balance == None && b.required == None
    && (a.status == Active ==> b.status == Active)
    && (a.status != Active ==> b.status == Inactivated)
  }

  /** A row as setup creates it: inactive, unpolled, claimed by the oldest active passkey. */
  predicate Created(row: Row, auths: seq<Authority>, pid: Pid) {
    && row.pid == pid && row.status == Inactivated && row.balance == None && row.required == None
    && row.claimKey.Some? && FirstActive(auths, pid, row.claimKey.value)
  }

  predicate HasRow(rows: seq<Row>, pid: Pid, chain: ChainId) {
    exists i :: 0 <= i < |rows| && rows[i].pid == pid && rows[i].chain == chain
  }

  /** Old rows are kept or re-pointed, new ones are as created, and every chain has its row. */
  ghost predicate Provisioned(
      before: seq<Row>, after: seq<Row>, auths: seq<Authority>, pid: Pid, chains: set<ChainId>)
  {
    && |before| <= |after|
    && (forall i :: 0 <= i < |before| ==> after[i] == before[i] || Repointed(before[i], after[i]))
    && (forall i :: |before| <= i < |after| ==> Created(after[i], auths, pid) && after[i].chain in chains)
    && (forall c :: c in chains ==> HasRow(after, pid, c))
  }

  lemma HasRowLater(a: seq<Row>, b: seq<Row>, pid: Pid, chain: ChainId)
    requires |a| <= |b| && forall i :: 0 <= i < |a| ==> b[i] == a[i] || Repointed(a[i], b[i])
    requires HasRow(a, pid, chain)
    ensures HasRow(b, pid, chain)
  {
    var i :| 0 <= i < |a| && a[i].pid == pid && a[i].chain == chain;
    assert b[i].pid == pid && b[i].chain == chain;
  }

  lemma CreatedLater(a: Row, b: Row, auths: seq<Authority>, pid: Pid)
    requires Created(a, auths, pid) && (b == a || Repointed(a, b))
    ensures Created(b, auths, pid) && b.chain == a.chain
  {
    hide FirstActive;
  }

  lemma ProvisionedTrans(
      a: seq<Row>, b: seq<Row>, c: seq<Row>, auths: seq<Authority>, pid: Pid, p: set<ChainId>, q: set<ChainId>)
    requires Provisioned(a, b, auths, pid, p) && Provisioned(b, c, auths, pid, q)
    ensures Provisioned(a, c, auths, pid, p + q)
  {
    hide Created, HasRow;
    forall i | |a| <= i < |c|
      ensures Created(c[i], auths, pid) && c[i].chain in p + q
    {
      if i < |b| {
        CreatedLater(b[i], c[i], auths, pid);
      }
    }
    forall chain | chain in p + q
      ensures HasRow(c, pid, chain)
    {
      if chain in p {
        HasRowLater(b, c, pid, chain);
      }
    }
  }

  lemma EnsureRowProvisions(rows: seq<Row>, auths: seq<Authority>, pid: Pid, chain: ChainId, derived: Address, key: Key)
    requires Find(rows, pid, chain).None? ==> FirstActive(auths, pid, key)
    ensures Provisioned(rows, EnsureRow(rows, pid, chain, derived, key), auths, pid, {chain})
  {
    hide FirstActive;
    var after := EnsureRow(rows, pid, chain, derived, key);
    var j := if Find(rows, pid, chain).Some? then Find(rows, pid, chain).value else |rows|;
    assert after[j].pid == pid && after[j].chain == chain;
  }

  lemma FoundHasRow(rows: seq<Row>, auths: seq<Authority>, pid: Pid, chain: ChainId)
    requires Find(rows, pid, chain).Some?
    ensures Provisioned(rows, rows, auths, pid, {chain})
  {
    assert rows[Find(rows, pid, chain).value].pid == pid;
  }

  lemma EnsureSolanaProvisions(rows: seq<Row>, auths: seq<Authority>, reg: Registry, pid: Pid, c: Cluster)
    requires OldestActive(auths, pid).Some?
    ensures Provisioned(rows, EnsureSolana(rows, auths, reg, pid, c), auths, pid, {Solana(Mapped(c))})
  {
    hide EnsureRow, OldestActive, FirstActive, Provisioned;
    var chain := Solana(Mapped(c));
    var recorded := Recorded(rows, pid, chain);
    var key := if recorded.Some? then recorded else OldestActive(auths, pid);
    EnsureRowProvisions(rows, auths, pid, chain, Vault(pid, Program(reg, c), key.value), key.value);
  }

  lemma EnsureEvmProvisions(rows: seq<Row>, auths: seq<Authority>, reg: Registry, pid: Pid, oldest: Key, id: nat)
    requires id in reg.contracts && FirstActive(auths, pid, oldest)
    ensures Provisioned(rows, EnsureEvm(rows, auths, reg, pid, oldest, id), auths, pid, {Evm(id)})
  {
    hide EnsureRow, FirstActive, Provisioned, Known;
    var recorded := Recorded(rows, pid, Evm(id));
    if recorded.Some? && !Known(auths, pid, recorded.value) {
      FoundHasRow(rows, auths, pid, Evm(id));
    } else {
      var key := if recorded.Some? then recorded.value else oldest;
      var derived := Counterfactual(pid, reg.contracts[id].factory, reg.contracts[id].implementation, key);
      EnsureRowProvisions(rows, auths, pid, Evm(id), derived, key);
    }
  }

  lemma {:induction false} EnsureEvmRowsProvisions(
      rows: seq<Row>, auths: seq<Authority>, reg: Registry, pid: Pid, n: nat)
    requires ValidRegistry(reg) && n <= |reg.deployable| && OldestActive(auths, pid).Some?
    ensures Provisioned(rows, EnsureEvmRows(rows, auths, reg, pid, n), auths, pid, EvmChains(reg, n))
    decreases n
  {
    hide EnsureEvm, OldestActive, FirstActive, Created, HasRow, Repointed;
    if n > 0 {
      EvmChainsStep(reg, n);
      var mid, id := EnsureEvmRows(rows, auths, reg, pid, n - 1), reg.deployable[n - 1];
      EnsureEvmRowsProvisions(rows, auths, reg, pid, n - 1);
      EnsureEvmProvisions(mid, auths, reg, pid, OldestActive(auths, pid).value, id);
      ProvisionedTrans(rows, mid, EnsureEvm(mid, auths, reg, pid, OldestActive(auths, pid).value, id),
        auths, pid, EvmChains(reg, n - 1), {Evm(id)});
    }
  }

  /**
   Setup of an identity with an active passkey, on any rows whatever: afterwards the selected
   cluster and every deployable EVM chain have their row; new rows are claimed by the oldest
   active passkey; old rows are untouched or re-pointed with only what that resets.
   */
  lemma EnsureProvisions(rows: seq<Row>, auths: seq<Authority>, reg: Registry, pid: Pid, c: Cluster)
    requires ValidRegistry(reg) && OldestActive(auths, pid).Some?
    ensures Provisioned(rows, Ensure(rows, auths, reg, pid, c), auths, pid, SetupChains(reg, c))
  {
    hide EnsureSolana, EnsureEvmRows, Provisioned, OldestActive, EvmChains;
    var mid := EnsureSolana(rows, auths, reg, pid, c);
    EnsureSolanaProvisions(rows, auths, reg, pid, c);
    EnsureEvmRowsProvisions(mid, auths, reg, pid, |reg.deployable|);
    ProvisionedTrans(rows, mid, EnsureEvmRows(mid, auths, reg, pid, |reg.deployable|),
      auths, pid, {Solana(Mapped(c))}, EvmChains(reg, |reg.deployable|));
  }

  // ---- Activation and polling ----

  /** `classifyActivation`. */
  function Classify(balance: nat, required: nat, current: Status): Status {
    if balance == 0 then Inactivated
    else if balance < required then Insufficient
    else if current == Activating then Activating
    else Ready
  }

  /** The signed intent whose hash claims the slot of (identity, expiry). */
  datatype Intent = Intent(expiry: int, version: int, networkFee: nat, assertion: nat)

  /** One Solana activation call: its request and what it reads, `None` being a read that threw. */
  datatype Attempt = Attempt(
    balance: Option<nat>,
    activated: Option<bool>,
    required: nat,
    /** The breaker is closed, and nothing before the first write threw. */
    checksPass: bool,
    credential: nat,
    assertion: nat,
    /** The credential lookup and the program-id lookup did not throw. */
    credentialRead: bool,
    programRead: bool,
    relayerBalance: nat,
    chainTime: int,
    expiry: int,
    version: int,
    versionAccepted: Option<bool>,
    bps: Option<nat>,
    /** The client's quote, any integer, and fee cap; `None` is text that is not a number. */
    quotedFee: Option<int>,
    maxTotalFee: Option<nat>,
    networkFee: Option<nat>,
    /** The slot's row, if there is one. */
    slot: Option<Option<Claim<Intent>>>,
    network: Network,
    confirmed: bool,
    /** A log, write or view awaited on the branch that was taken threw. */
    branchThrew: bool)

  /** The live status; a failed balance read skips the ownership read too. */
  function Live(row: Row, a: Attempt): Status {
    if a.balance.None? then Classify(0, a.required, row.status)
    else if a.activated == Some(true) then Active
    else Classify(a.balance.value, a.required, row.status)
  }

  function Heal(row: Row, bound: Address, key: Key): Row {
    if row.address == bound then row
    else row.(address := bound, balance := None, required := None, claimKey := Some(key))
  }

  /** The fee legs the submit stage computes with are all there. */
  predicate FeesRead(a: Attempt) {
    a.bps.Some? && a.quotedFee.Some? && a.networkFee.Some?
  }

  function TotalFee(a: Attempt): nat
    requires FeesRead(a)
  {
    a.networkFee.value + ProtocolFee(a.networkFee.value, a.bps.value)
  }

  function IntentOf(a: Attempt): Intent
    requires FeesRead(a)
  {
    Intent(a.expiry, a.version, a.networkFee.value, a.assertion)
  }

  /** Status after the broadcast: active once it is seen to have landed, else reset. */
  function LandedStatus(a: Attempt): Status {
    match Relayed(a.network)
    case Failed => Ready
    case AlreadyLanded(None) => Settled(a, Active)
    case _ => if a.confirmed then Settled(a, Active) else Ready
  }

  /** A branch that awaits something ends in `ready` when that throws. */
  function Settled(a: Attempt, status: Status): Status {
    if a.branchThrew then Ready else status
  }

  /**
   Status in which an attempt with a known credential leaves the row. A `throw` reaches the
   `catch` that resets it to `ready`; `return this.reject(..)` hands out a promise the `catch`
   never awaits, and the early return for a duplicate does not reset it either.
   */
  function EndStatus(a: Attempt): Status {
    if a.relayerBalance < a.required then Ready
    else if !Timely(a.chainTime, a.expiry) then Activating
    else if a.versionAccepted.None? then Ready
    else if !a.versionAccepted.value then Activating
    else if !FeesRead(a) then Ready
    else if Drifted(a.networkFee.value, a.quotedFee.value) then Settled(a, Activating)
    else if a.maxTotalFee.None? || TotalFee(a) > a.maxTotalFee.value || a.slot.None? then Ready
    else
      match Claimed(a.slot.value, IntentOf(a))
      case Conflict => Ready
      case SameBytes(Some(_)) => Settled(a, Activating)
      case _ => LandedStatus(a)
  }

  function ActivateRow(row: Row, auths: seq<Authority>, program: nat, a: Attempt): Row {
    if !Starts(row, auths, a) then row
    else if !a.credentialRead then row.(status := Ready)
    else
      match Asserting(auths, row.pid, a.credential)
      case None => row.(status := Activating)
      case Some(key) =>
        if !a.programRead then row.(status := Ready)
        else Heal(row, Vault(row.pid, program, key), key).(status := EndStatus(a))
  }

  /** The activation passes every check before `activating` is written. */
  predicate Starts(row: Row, auths: seq<Authority>, a: Attempt) {
    row.status != Active && Live(row, a) == Ready && a.checksPass && OldestActive(auths, row.pid).Some?
  }

  function Activate(rows: seq<Row>, auths: seq<Authority>, reg: Registry, pid: Pid, c: Cluster, a: Attempt): seq<Row> {
    match Find(rows, pid, Solana(Mapped(c)))
    case None => rows
    case Some(j) => rows[j := ActivateRow(rows[j], auths, Program(reg, c), a)]
  }

  /** What one EVM activation call reads. */
  datatype EvmAttempt = EvmAttempt(
    isActive: bool,
    balance: nat,
    required: nat,
    gatesPass: bool,
    credential: nat,
    landed: bool)

  function EvmActivateRow(row: Row, auths: seq<Authority>, contracts: Contracts, a: EvmAttempt): Row {
    var live := if a.isActive then Active else Classify(a.balance, a.required, row.status);
    if live != Ready || OldestActive(auths, row.pid).None? || !a.gatesPass then row
    else
      match Asserting(auths, row.pid, a.credential)
      case None => row
      case Some(key) =>
        var bound := Counterfactual(row.pid, contracts.factory, contracts.implementation, key);
        Heal(row, bound, key).(status := if a.landed then Active else Ready)
  }

  function EvmActivate(
      rows: seq<Row>, auths: seq<Authority>, reg: Registry, pid: Pid, id: nat, a: EvmAttempt): seq<Row>
  {
    match Find(rows, pid, Evm(id))
    case None => rows
    case Some(j) =>
      if id in reg.contracts then rows[j := EvmActivateRow(rows[j], auths, reg.contracts[id], a)] else rows
  }

  /** What a poll reads about one address on one cluster: a missing read threw. */
  datatype Reading = Reading(activated: Option<bool>, balance: Option<nat>)

  function PollRow(row: Row, rd: Reading, required: nat): Row {
    match rd.activated
    case None => row
    case Some(true) => row.(status := Active)
    case Some(false) =>
      if row.status == Active then row.(status := Inactivated, balance := None, required := None)
      else if rd.balance.None? then row
      else
        var next := Classify(rd.balance.value, required, row.status);
        row.(status := next, balance := rd.balance, required := Some(required))
  }

  predicate Pollable(row: Row) {
    row.chain.Solana? && row.chain.reference.Mapped?
  }

  function Polled(row: Row, read: (ChainId, Address) -> Reading, quote: Cluster -> nat): Row {
    if Pollable(row) then PollRow(row, read(row.chain, row.address), quote(row.chain.reference.cluster)) else row
  }

  function Poll(rows: seq<Row>, read: (ChainId, Address) -> Reading, quote: Cluster -> nat): (r: seq<Row>)
    ensures |r| == |rows|
  {
    seq(|rows|, i requires 0 <= i < |rows| => Polled(rows[i], read, quote))
  }

  /** What the EVM poll reads about one row: code present, authority match, funding. */
  datatype EvmReading = EvmReading(deployed: bool, matches: bool, balance: nat, required: nat)

  function EvmPollRow(row: Row, rd: Option<EvmReading>): Row {
    if rd.None? then row
    else if !rd.value.deployed then
      if row.status == Active then row
      else row.(status := Classify(rd.value.balance, rd.value.required, row.status))
    else if rd.value.matches then row.(status := Active)
    else if row.status == Active then row.(status := Ready)
    else row
  }

  function EvmPoll(rows: seq<Row>, read: (ChainId, Address) -> Option<EvmReading>): (r: seq<Row>)
    ensures |r| == |rows|
  {
    seq(|rows|, i requires 0 <= i < |rows| =>
      if rows[i].chain.Evm? then EvmPollRow(rows[i], read(rows[i].chain, rows[i].address)) else rows[i])
  }

  /**
   After a poll that reads everything, a row of a mapped cluster is active exactly when its
   account is program-owned on that cluster, whatever is at the same address elsewhere.
   */
  lemma PollTellsTruth(
      rows: seq<Row>, read: (ChainId, Address) -> Reading, quote: Cluster -> nat,
      owned: set<(ChainId, Address)>, i: nat)
    requires i < |rows|
    requires forall c, a :: read(c, a).activated == Some((c, a) in owned) && read(c, a).balance.Some?
    ensures var after := Poll(rows, read, quote)[i];
            && (Pollable(rows[i]) ==> (after.status == Active <==> (rows[i].chain, rows[i].address) in owned))
            && (!Pollable(rows[i]) ==> after == rows[i])
            && after.address == rows[i].address && after.claimKey == rows[i].claimKey
  {
    var c, a := rows[i].chain, rows[i].address;
    assert read(c, a).activated == Some((c, a) in owned);
  }

  /** The status after a poll, reading by reading. */
  lemma PollStatus(row: Row, rd: Reading, required: nat)
    ensures var after := PollRow(row, rd, required);
            && (rd.activated.None? ==> after == row)
            && (rd.activated == Some(true) ==> after == row.(status := Active))
            && (rd.activated == Some(false) && row.status == Active ==>
                  after == row.(status := Inactivated, balance := None, required := None))
            && (rd.activated == Some(false) && row.status != Active && rd.balance.None? ==> after == row)
            && (rd.activated == Some(false) && row.status != Active && rd.balance.Some? ==>
                  && after.balance == rd.balance && after.required == Some(required) && SameBinding(row, after)
                  && (after.status == Inactivated <==> rd.balance.value == 0)
                  && (after.status == Insufficient <==> 0 < rd.balance.value < required)
                  && (after.status == Activating <==>
                        row.status == Activating && rd.balance.value > 0 && rd.balance.value >= required)
                  && (after.status == Ready <==>
                        row.status != Activating && rd.balance.value > 0 && rd.balance.value >= required))
  {
  }

  /**
   After an EVM poll that reads a row: with code at its address the row is active exactly when
   the authority matches, and a mismatch sends an active row back to `ready`; without code an
   active row stays, and any other is classified by its funding.
   */
  lemma EvmPollTellsTruth(rows: seq<Row>, read: (ChainId, Address) -> Option<EvmReading>, i: nat)
    requires i < |rows| && rows[i].chain.Evm? && read(rows[i].chain, rows[i].address).Some?
    ensures var before, after := rows[i], EvmPoll(rows, read)[i];
            var rd := read(before.chain, before.address).value;
            && after == before.(status := after.status)
            && (after.status == Active <==> if rd.deployed then rd.matches else before.status == Active)
            && (rd.deployed && !rd.matches ==>
                  after.status == if before.status == Active then Ready else before.status)
            && (!rd.deployed && before.status != Active ==>
                  && (after.status == Inactivated <==> rd.balance == 0)
                  && (after.status == Insufficient <==> 0 < rd.balance < rd.required)
                  && (after.status == Ready <==>
                        rd.balance > 0 && rd.balance >= rd.required && before.status != Activating))
  {
  }

  /** A pending activation is never started a second time. */
  lemma ActivatingBlocks(row: Row, auths: seq<Authority>, program: nat, a: Attempt)
    requires row.status == Activating
    ensures ActivateRow(row, auths, program, a) == row
  {
  }

  /** The slot already carries this very intent, submitted, and the fee is one the user accepted. */
  predicate AlreadySubmitted(a: Attempt)
    requires FeesRead(a)
  {
    && a.maxTotalFee.Some? && TotalFee(a) <= a.maxTotalFee.value
    && a.slot.Some? && a.slot.value.Some?
    && a.slot.value.value.payload == IntentOf(a) && a.slot.value.value.signature.Some?
  }

  /**
   The guards whose branch leaves a started activation pending: an unknown credential; or,
   with a funded relayer, an untimely expiry, a policy that is not accepted, or, unless
   something awaited on that branch throws, a drifted fee or a duplicate submission.
   */
  predicate Strands(row: Row, auths: seq<Authority>, a: Attempt) {
    && a.credentialRead
    && (|| Asserting(auths, row.pid, a.credential).None?
        || (&& a.programRead && a.relayerBalance >= a.required
            && (|| !Timely(a.chainTime, a.expiry)
                || a.versionAccepted == Some(false)
                || (&& a.versionAccepted == Some(true) && FeesRead(a) && !a.branchThrew
                    && (Drifted(a.networkFee.value, a.quotedFee.value) || AlreadySubmitted(a))))))
  }

  /** An activation leaves `activating` behind exactly when it starts under one of those guards. */
  lemma StrandedExactly(row: Row, auths: seq<Authority>, program: nat, a: Attempt)
    requires row.status != Activating
    ensures ActivateRow(row, auths, program, a).status == Activating
            <==> Starts(row, auths, a) && Strands(row, auths, a)
  {
    hide OldestActive, Asserting, Live, Drifted, Timely, Relayed, ProtocolFee;
  }

  /** When an activation starts, in terms of what it read. */
  lemma StartsExactly(row: Row, auths: seq<Authority>, a: Attempt)
    ensures Starts(row, auths, a) <==>
            && row.status != Active && row.status != Activating
            && a.balance.Some? && a.balance.value > 0 && a.balance.value >= a.required
            && a.activated != Some(true) && a.checksPass
            && exists k :: 0 <= k < |auths| && auths[k].pid == row.pid && auths[k].active
  {
    OldestActiveIff(auths, row.pid, 0);
  }

  /** The submit stage passes: time, policy, fees, cap and slot, spelled out. */
  ghost predicate MaySubmit(a: Attempt) {
    && a.relayerBalance >= a.required
    && a.chainTime < a.expiry <= a.chainTime + 600
    && a.versionAccepted == Some(true)
    && a.bps.Some? && a.quotedFee.Some? && a.networkFee.Some? && a.maxTotalFee.Some?
    && a.networkFee.value * 100 <= a.quotedFee.value * 120
    && a.networkFee.value + a.networkFee.value * a.bps.value / 10000 <= a.maxTotalFee.value
    && a.slot.Some?
    && (a.slot.value.Some? ==>
          && a.slot.value.value.signature.None?
          && a.slot.value.value.payload == Intent(a.expiry, a.version, a.networkFee.value, a.assertion))
  }

  /** The broadcast landed: seen without a signature, or with one and confirmed. */
  ghost predicate Landed(a: Attempt) {
    || WasSeenLanded(a.network, None)
    || (&& a.confirmed
        && exists sig :: WasSubmitted(a.network, sig) || WasSeenLanded(a.network, Some(sig)))
  }

  lemma LandedExactly(a: Attempt)
    ensures LandedStatus(a) == Active <==> Landed(a) && !a.branchThrew
    ensures LandedStatus(a) == Active || LandedStatus(a) == Ready
  {
    hide Relayed, WasSubmitted, WasSeenLanded;
    RelayedExactly(a.network);
    match Relayed(a.network) {
      case Failed =>
      case Accepted(sig) => assert WasSubmitted(a.network, sig);
      case AlreadyLanded(Some(sig)) => assert WasSeenLanded(a.network, Some(sig));
      case AlreadyLanded(None) => assert WasSeenLanded(a.network, None);
    }
  }

  lemma EndsActiveExactly(a: Attempt)
    ensures EndStatus(a) == Active <==> MaySubmit(a) && Landed(a) && !a.branchThrew
    ensures EndStatus(a) == Active || EndStatus(a) == Activating || EndStatus(a) == Ready
  {
    hide LandedStatus, Landed;
    LandedExactly(a);
  }

  /**
   A row turns active exactly when the activation starts, its credential is that of an active
   passkey, every gate passes, nothing awaited throws, and the transaction landed.
   */
  lemma ActivatedExactly(row: Row, auths: seq<Authority>, program: nat, a: Attempt)
    requires row.status != Active
    ensures ActivateRow(row, auths, program, a).status == Active <==>
            && Starts(row, auths, a) && a.credentialRead && a.programRead
            && (exists key :: ActiveCredential(auths, row.pid, a.credential, key))
            && MaySubmit(a) && Landed(a) && !a.branchThrew
  {
    hide OldestActive, Live, EndStatus, MaySubmit, Landed, Starts;
    EndsActiveExactly(a);
    AssertingExactly(auths, row.pid, a.credential);
  }

  lemma AssertingExactly(auths: seq<Authority>, pid: Pid, credential: nat)
    ensures Asserting(auths, pid, credential).Some? <==> exists key :: ActiveCredential(auths, pid, credential, key)
  {
    hide Asserting;
    if key :| ActiveCredential(auths, pid, credential, key) {
      var k :| 0 <= k < |auths| && auths[k].pid == pid && auths[k].credential == credential && auths[k].active;
    }
  }

  /**
   What an activation writes besides the status: with a started attempt, read lookups and an
   active credential, the address and claiming key of that credential; otherwise nothing.
   */
  lemma HealedExactly(row: Row, auths: seq<Authority>, program: nat, a: Attempt)
    ensures var after := ActivateRow(row, auths, program, a);
            && after.pid == row.pid && after.chain == row.chain
            && (after.address == row.address ==> after == row.(status := after.status))
            && (after.address != row.address ==>
                  && Starts(row, auths, a) && a.credentialRead && a.programRead
                  && after.claimKey.Some? && ActiveCredential(auths, row.pid, a.credential, after.claimKey.value)
                  && after.address == Vault(row.pid, program, after.claimKey.value)
                  && after.balance == None && after.required == None)
            && (Starts(row, auths, a) && a.credentialRead && a.programRead
                && Asserting(auths, row.pid, a.credential).Some? ==>
                  exists key :: && ActiveCredential(auths, row.pid, a.credential, key)
                                && after.address == Vault(row.pid, program, key))
            && (!Starts(row, auths, a) ==> after == row)
            && (Starts(row, auths, a) ==> after.status == Active || after.status == Activating || after.status == Ready)
  {
    hide OldestActive, Live, EndStatus, Starts, Asserting;
    EndsActiveExactly(a);
  }

  /** The EVM counterpart: what an activation of a known outcome writes. */
  lemma EvmHealedExactly(row: Row, auths: seq<Authority>, contracts: Contracts, a: EvmAttempt)
    ensures var after := EvmActivateRow(row, auths, contracts, a);
            && after.pid == row.pid && after.chain == row.chain
            && (after.address == row.address ==> after == row.(status := after.status))
            && (after.address != row.address ==>
                  && after.claimKey.Some? && ActiveCredential(auths, row.pid, a.credential, after.claimKey.value)
                  && after.address == Counterfactual(
                       row.pid, contracts.factory, contracts.implementation, after.claimKey.value))
            && (after != row ==>
                  && !a.isActive && a.balance > 0 && a.balance >= a.required && row.status != Activating && a.gatesPass
                  && after.status == (if a.landed then Active else Ready))
  {
    hide OldestActive, Asserting;
  }

  /** Only a poll that finds the vault owned or the balance short ends `activating`. */
  lemma ActivatingEnds(row: Row, rd: Reading, required: nat)
    requires row.status == Activating
    ensures PollRow(row, rd, required).status != Activating <==>
            || rd.activated == Some(true)
            || (&& rd.activated == Some(false) && rd.balance.Some?
                && (rd.balance.value == 0 || rd.balance.value < required))
  {
  }

  lemma HealBinds(row: Row, reg: Registry, auths: seq<Authority>, key: Key, bound: Address, status: Status)
    requires Bound(row, reg) && Keyed(row, auths) && Known(auths, row.pid, key)
    requires Derive(reg, row.pid, row.chain, key) == Some(bound)
    ensures var after := Heal(row, bound, key).(status := status);
            Bound(after, reg) && Keyed(after, auths)
  {
  }

  /** Activation keeps the address the derivation of the claiming key. */
  lemma ActivateRowBinds(row: Row, auths: seq<Authority>, reg: Registry, c: Cluster, a: Attempt)
    requires Bound(row, reg) && Keyed(row, auths) && row.chain == Solana(Mapped(c))
    ensures var after := ActivateRow(row, auths, Program(reg, c), a);
            Bound(after, reg) && Keyed(after, auths) && after.pid == row.pid && after.chain == row.chain
  {
    hide Known, OldestActive, Asserting, Live, EndStatus;
    var r := Asserting(auths, row.pid, a.credential);
    if r.Some? {
      HealBinds(row, reg, auths, r.value, Vault(row.pid, Program(reg, c), r.value), EndStatus(a));
    }
  }

  lemma EvmActivateRowBinds(row: Row, auths: seq<Authority>, reg: Registry, id: nat, a: EvmAttempt)
    requires Bound(row, reg) && Keyed(row, auths) && row.chain == Evm(id) && id in reg.contracts
    ensures var after := EvmActivateRow(row, auths, reg.contracts[id], a);
            Bound(after, reg) && Keyed(after, auths) && after.pid == row.pid && after.chain == row.chain
  {
    hide Known, OldestActive, Asserting, Classify;
    var r := Asserting(auths, row.pid, a.credential);
    if r.Some? {
      HealBinds(row, reg, auths, r.value,
        Counterfactual(row.pid, reg.contracts[id].factory, reg.contracts[id].implementation, r.value),
        if a.landed then Active else Ready);
    }
  }

  // ---- Runs ----

  datatype State = State(rows: seq<Row>, auths: seq<Authority>, reg: Registry)

  datatype Step =
    | EnsureStep(pid: Pid, cluster: Cluster)
    | ActivateStep(pid: Pid, cluster: Cluster, attempt: Attempt)
    | PollStep(read: (ChainId, Address) -> Reading, quote: Cluster -> nat)
    | EvmActivateStep(pid: Pid, id: nat, evmAttempt: EvmAttempt)
    | EvmPollStep(evmRead: (ChainId, Address) -> Option<EvmReading>)
    | RegisterStep(pid: Pid, credential: nat, key: Key)
    | RevokeStep(index: nat)
    | RedeployStep(reg: Registry)

  function ActiveCount(auths: seq<Authority>, pid: Pid, i: nat := 0): nat
    requires i <= |auths|
    decreases |auths| - i
  {
    if i == |auths| then 0
    else (if auths[i].pid == pid && auths[i].active then 1 else 0) + ActiveCount(auths, pid, i + 1)
  }

  /** `revoke` never takes the last active credential; a rotation ends with it in the same step. */
  function Revoke(auths: seq<Authority>, i: nat): seq<Authority> {
    if i < |auths| && ActiveCount(auths, auths[i].pid) > 1 then auths[i := auths[i].(active := false)] else auths
  }

  function Apply(st: State, step: Step): State
    requires ValidRegistry(st.reg) && (step.RedeployStep? ==> ValidRegistry(step.reg))
  {
    match step
    case EnsureStep(pid, c) => st.(rows := Ensure(st.rows, st.auths, st.reg, pid, c))
    case ActivateStep(pid, c, a) => st.(rows := Activate(st.rows, st.auths, st.reg, pid, c, a))
    case PollStep(read, quote) => st.(rows := Poll(st.rows, read, quote))
    case EvmActivateStep(pid, id, a) => st.(rows := EvmActivate(st.rows, st.auths, st.reg, pid, id, a))
    case EvmPollStep(read) => st.(rows := EvmPoll(st.rows, read))
    case RegisterStep(pid, credential, key) => st.(auths := st.auths + [Authority(pid, credential, key, true)])
    case RevokeStep(i) => st.(auths := Revoke(st.auths, i))
    case RedeployStep(reg) => st.(reg := reg)
  }

  ghost predicate HasActive(rows: seq<Row>, auths: seq<Authority>) {
    forall i :: 0 <= i < |rows| ==> OldestActive(auths, rows[i].pid).Some?
  }

  /** What every run from no rows keeps, except for addresses after a redeployment. */
  ghost predicate Sound(st: State) {
    ValidRegistry(st.reg) && Unique(st.rows) && AllKeyed(st.rows, st.auths) && HasActive(st.rows, st.auths)
  }

  lemma {:induction false} OldestActiveIff(auths: seq<Authority>, pid: Pid, i: nat)
    requires i <= |auths|
    ensures OldestActive(auths, pid, i).Some?
       <==> exists k :: i <= k < |auths| && auths[k].pid == pid && auths[k].active
    decreases |auths| - i
  {
    if i < |auths| {
      OldestActiveIff(auths, pid, i + 1);
    }
  }

  lemma {:induction false} TwoActive(auths: seq<Authority>, pid: Pid, i: nat, skip: nat)
    requires i <= |auths|
    ensures ActiveCount(auths, pid, i) > 0 ==> exists k :: i <= k < |auths| && auths[k].pid == pid && auths[k].active
    ensures ActiveCount(auths, pid, i) > 1 ==>
              exists k :: i <= k < |auths| && k != skip && auths[k].pid == pid && auths[k].active
    decreases |auths| - i
  {
    if i < |auths| {
      TwoActive(auths, pid, i + 1, skip);
    }
  }

  /** Changing credentials loses no key and no identity's last active credential. */
  lemma CredentialsKept(st: State, step: Step, pid: Pid, key: Key)
    requires ValidRegistry(st.reg) && (step.RegisterStep? || step.RevokeStep?)
    ensures Known(st.auths, pid, key) ==> Known(Apply(st, step).auths, pid, key)
    ensures OldestActive(st.auths, pid).Some? ==> OldestActive(Apply(st, step).auths, pid).Some?
  {
    hide ActiveCount, OldestActive;
    var before, after := st.auths, Apply(st, step).auths;
    OldestActiveIff(before, pid, 0);
    OldestActiveIff(after, pid, 0);
    assert forall k :: 0 <= k < |before| ==> after[k].pid == before[k].pid && after[k].key == before[k].key;
    if Known(before, pid, key) {
      var k :| 0 <= k < |before| && before[k].pid == pid && before[k].key == key;
      assert after[k].pid == pid && after[k].key == key;
    }
    if OldestActive(before, pid).Some? {
      if step.RevokeStep? && step.index < |before| && before[step.index].pid == pid {
        TwoActive(before, pid, 0, step.index);
        if after != before {
          var k :| 0 <= k < |before| && k != step.index && before[k].pid == pid && before[k].active;
          assert after[k] == before[k];
        }
      } else {
        var k :| 0 <= k < |before| && before[k].pid == pid && before[k].active;
        assert after[k] == before[k];
      }
    }
  }

  /** `revoke` deactivates a credential exactly when another active one of its identity remains. */
  lemma RevokesExactly(auths: seq<Authority>, i: nat)
    requires i < |auths| && auths[i].active
    ensures |Revoke(auths, i)| == |auths|
    ensures !Revoke(auths, i)[i].active <==>
            exists k :: 0 <= k < |auths| && k != i && auths[k].pid == auths[i].pid && auths[k].active
    ensures forall k :: 0 <= k < |auths| && k != i ==> Revoke(auths, i)[k] == auths[k]
  {
    hide ActiveCount;
    TwoActive(auths, auths[i].pid, 0, i);
    if k :| 0 <= k < |auths| && k != i && auths[k].pid == auths[i].pid && auths[k].active {
      CountsTwo(auths, auths[i].pid, 0, i, k);
    }
  }

  lemma {:induction false} CountsTwo(auths: seq<Authority>, pid: Pid, n: nat, i: nat, k: nat)
    requires n <= |auths|
    ensures n <= i < |auths| && auths[i].pid == pid && auths[i].active ==> ActiveCount(auths, pid, n) >= 1
    ensures && n <= i < |auths| && auths[i].pid == pid && auths[i].active
            && n <= k < |auths| && auths[k].pid == pid && auths[k].active && i != k
            ==> ActiveCount(auths, pid, n) >= 2
    decreases |auths| - n
  {
    if n < |auths| {
      CountsTwo(auths, pid, n + 1, i, k);
      CountsTwo(auths, pid, n + 1, k, i);
    }
  }

  lemma CredentialStepKeeps(st: State, step: Step)
    requires Sound(st) && (step.RegisterStep? || step.RevokeStep?)
    ensures Sound(Apply(st, step)) && Apply(st, step).rows == st.rows && Apply(st, step).reg == st.reg
  {
    hide Known, OldestActive, Revoke, ValidRegistry;
    var after := Apply(st, step);
    forall i | 0 <= i < |st.rows|
      ensures Keyed(st.rows[i], after.auths) && OldestActive(after.auths, st.rows[i].pid).Some?
    {
      assert Keyed(st.rows[i], st.auths);
      CredentialsKept(st, step, st.rows[i].pid, st.rows[i].claimKey.value);
    }
  }

  /** Without rows and without an active credential, setup does nothing. */
  lemma EnsureDeferred(rows: seq<Row>, auths: seq<Authority>, reg: Registry, pid: Pid, c: Cluster)
    requires ValidRegistry(reg) && OldestActive(auths, pid).None?
    requires forall i :: 0 <= i < |rows| ==> rows[i].pid != pid
    ensures Ensure(rows, auths, reg, pid, c) == rows
  {
    hide OldestActive;
  }

  /** Setup on a sound state: see `EnsureRestores`. */
  lemma EnsureKeeps(st: State, pid: Pid, c: Cluster)
    requires Sound(st)
    ensures var after := Apply(st, EnsureStep(pid, c));
            Sound(after) && Restored(st.rows, after.rows, st.auths, st.reg, pid, SetupChains(st.reg, c))
  {
    hide Known, OldestActive, Ensure, EvmChains, Keyed, Bound, Unique, Derive;
    var after := Apply(st, EnsureStep(pid, c));
    if OldestActive(st.auths, pid).Some? {
      EnsureRestores(st.rows, st.auths, st.reg, pid, c);
      forall i | 0 <= i < |after.rows|
        ensures OldestActive(st.auths, after.rows[i].pid).Some?
      {
        if i < |st.rows| {
          assert SameOwner(st.rows[i], after.rows[i]);
        }
      }
    } else {
      EnsureDeferred(st.rows, st.auths, st.reg, pid, c);
      assert after.rows == st.rows;
    }
  }

  predicate SameBinding(a: Row, b: Row) {
    a.pid == b.pid && a.chain == b.chain && a.claimKey == b.claimKey && a.address == b.address
  }

  /** Polls write neither addresses nor keys. */
  lemma PollsRebind(st: State, step: Step, i: nat)
    requires ValidRegistry(st.reg) && (step.PollStep? || step.EvmPollStep?) && i < |st.rows|
    ensures |Apply(st, step).rows| == |st.rows| && SameBinding(st.rows[i], Apply(st, step).rows[i])
  {
    hide Classify, ValidRegistry;
    var after := Apply(st, step).rows;
    if step.PollStep? {
      assert after[i] == Polled(st.rows[i], step.read, step.quote);
    } else {
      var row := st.rows[i];
      assert after[i] == if row.chain.Evm? then EvmPollRow(row, step.evmRead(row.chain, row.address)) else row;
    }
  }

  /** The address commits to the claiming key, under the current deployment or an earlier one. */
  predicate Committed(row: Row) {
    && row.claimKey == Some(row.address.key)
    && row.address.pid == row.pid
    && match row.chain
       case Solana(Mapped(_)) => row.address.Vault?
       case Solana(Unmapped(_)) => false
       case Evm(_) => row.address.Counterfactual?
  }

  ghost predicate Whole(st: State) {
    Sound(st) && forall i :: 0 <= i < |st.rows| ==> Committed(st.rows[i])
  }

  lemma BoundCommitted(row: Row, reg: Registry)
    requires Bound(row, reg)
    ensures Committed(row)
  {
  }

  lemma EnsureKeepsWhole(st: State, pid: Pid, c: Cluster)
    requires Whole(st)
    ensures Whole(Apply(st, EnsureStep(pid, c)))
  {
    hide Known, OldestActive, Ensure, Keyed, Bound, Unique, Derive, EvmChains, Committed;
    var after := Apply(st, EnsureStep(pid, c));
    EnsureKeeps(st, pid, c);
    var chains := SetupChains(st.reg, c);
    forall i | 0 <= i < |after.rows|
      ensures Committed(after.rows[i])
    {
      if i < |st.rows| && (st.rows[i].pid != pid || st.rows[i].chain !in chains) {
        assert after.rows[i] == st.rows[i];
      } else {
        if i < |st.rows| {
          assert SameOwner(st.rows[i], after.rows[i]);
        }
        BoundCommitted(after.rows[i], st.reg);
      }
    }
  }

  lemma UpdateKeepsWhole(st: State, j: nat, row: Row)
    requires Whole(st) && j < |st.rows| && row.pid == st.rows[j].pid && row.chain == st.rows[j].chain
    requires Keyed(row, st.auths) && Committed(row)
    ensures Whole(st.(rows := st.rows[j := row]))
  {
    hide Known, OldestActive, Committed, ValidRegistry;
  }

  /** Healing records the key the new address commits to. */
  lemma HealCommits(row: Row, auths: seq<Authority>, bound: Address, key: Key, status: Status)
    requires Committed(row) && Keyed(row, auths) && Known(auths, row.pid, key)
    requires bound.key == key && bound.pid == row.pid && bound.Vault? == row.address.Vault?
    ensures var after := Heal(row, bound, key).(status := status);
            Committed(after) && Keyed(after, auths) && after.pid == row.pid && after.chain == row.chain
  {
  }

  lemma ActivateKeepsWhole(st: State, pid: Pid, c: Cluster, a: Attempt)
    requires Whole(st)
    ensures Whole(Apply(st, ActivateStep(pid, c, a)))
  {
    hide Known, OldestActive, Asserting, Live, EndStatus, ValidRegistry, Unique;
    var r := Find(st.rows, pid, Solana(Mapped(c)));
    if r.Some? {
      var row := st.rows[r.value];
      assert Committed(row) && Keyed(row, st.auths);
      var key := Asserting(st.auths, pid, a.credential);
      if key.Some? {
        HealCommits(row, st.auths, Vault(pid, Program(st.reg, c), key.value), key.value, EndStatus(a));
      }
      UpdateKeepsWhole(st, r.value, ActivateRow(row, st.auths, Program(st.reg, c), a));
    }
  }

  lemma EvmActivateKeepsWhole(st: State, pid: Pid, id: nat, a: EvmAttempt)
    requires Whole(st)
    ensures Whole(Apply(st, EvmActivateStep(pid, id, a)))
  {
    hide Known, OldestActive, Asserting, Classify, ValidRegistry, Unique;
    var r := Find(st.rows, pid, Evm(id));
    if r.Some? && id in st.reg.contracts {
      var row, contracts := st.rows[r.value], st.reg.contracts[id];
      assert Committed(row) && Keyed(row, st.auths);
      var key := Asserting(st.auths, pid, a.credential);
      if key.Some? {
        var bound := Counterfactual(pid, contracts.factory, contracts.implementation, key.value);
        HealCommits(row, st.auths, bound, key.value, if a.landed then Active else Ready);
      }
      UpdateKeepsWhole(st, r.value, EvmActivateRow(row, st.auths, contracts, a));
    }
  }

  lemma RebindingKeepsWhole(st: State, rows: seq<Row>)
    requires Whole(st) && |rows| == |st.rows| && forall i :: 0 <= i < |rows| ==> SameBinding(st.rows[i], rows[i])
    ensures Whole(st.(rows := rows))
  {
    hide Known, OldestActive, ValidRegistry;
    forall i | 0 <= i < |rows|
      ensures Keyed(rows[i], st.auths) && Committed(rows[i]) && OldestActive(st.auths, rows[i].pid).Some?
    {
      assert SameBinding(st.rows[i], rows[i]);
      assert Keyed(st.rows[i], st.auths) && Committed(st.rows[i]);
    }
    forall i, j | 0 <= i < j < |rows|
      ensures rows[i].pid != rows[j].pid || rows[i].chain != rows[j].chain
    {
      assert SameBinding(st.rows[i], rows[i]) && SameBinding(st.rows[j], rows[j]);
    }
  }

  lemma PollsKeepWhole(st: State, step: Step)
    requires Whole(st) && (step.PollStep? || step.EvmPollStep?)
    ensures Whole(Apply(st, step))
  {
    hide Known, OldestActive, Poll, EvmPoll, Keyed, Unique, SameBinding, Committed;
    forall i | 0 <= i < |st.rows|
      ensures SameBinding(st.rows[i], Apply(st, step).rows[i])
    {
      PollsRebind(st, step, i);
    }
    RebindingKeepsWhole(st, Apply(st, step).rows);
  }

  ghost predicate ValidStep(step: Step) {
    step.RedeployStep? ==> ValidRegistry(step.reg)
  }

  /** Every step whatever keeps every row keyed, and its address committed to that key. */
  lemma StepKeepsWhole(st: State, step: Step)
    requires Whole(st) && ValidStep(step)
    ensures Whole(Apply(st, step))
  {
    hide Known, OldestActive, Keyed, Unique, ValidRegistry, Committed;
    hide Ensure, Activate, EvmActivate, Poll, EvmPoll, Revoke;
    match step {
      case EnsureStep(pid, c) => EnsureKeepsWhole(st, pid, c);
      case ActivateStep(pid, c, a) => ActivateKeepsWhole(st, pid, c, a);
      case PollStep(_, _) => PollsKeepWhole(st, step);
      case EvmActivateStep(pid, id, a) => EvmActivateKeepsWhole(st, pid, id, a);
      case EvmPollStep(_) => PollsKeepWhole(st, step);
      case RegisterStep(_, _, _) => CredentialStepKeeps(st, step);
      case RevokeStep(_) => CredentialStepKeeps(st, step);
      case RedeployStep(_) =>
    }
  }

  ghost predicate Inv(st: State) {
    Whole(st) && AllBound(st.rows, st.reg)
  }

  lemma EnsureBinds(st: State, pid: Pid, c: Cluster)
    requires Inv(st)
    ensures AllBound(Apply(st, EnsureStep(pid, c)).rows, st.reg)
  {
    hide Ensure, Keyed, Bound, Unique, SetupChains, Committed, HasActive;
    EnsureKeeps(st, pid, c);
  }

  lemma ActivateBinds(st: State, pid: Pid, c: Cluster, a: Attempt)
    requires Inv(st)
    ensures AllBound(Apply(st, ActivateStep(pid, c, a)).rows, st.reg)
  {
    hide Keyed, Bound, ActivateRow, ValidRegistry, Unique, Committed, HasActive;
    var r := Find(st.rows, pid, Solana(Mapped(c)));
    if r.Some? {
      ActivateRowBinds(st.rows[r.value], st.auths, st.reg, c, a);
    }
  }

  lemma EvmActivateBinds(st: State, pid: Pid, id: nat, a: EvmAttempt)
    requires Inv(st)
    ensures AllBound(Apply(st, EvmActivateStep(pid, id, a)).rows, st.reg)
  {
    hide Keyed, Bound, EvmActivateRow, ValidRegistry, Unique, Committed, HasActive;
    var r := Find(st.rows, pid, Evm(id));
    if r.Some? && id in st.reg.contracts {
      EvmActivateRowBinds(st.rows[r.value], st.auths, st.reg, id, a);
    }
  }

  lemma PollsBind(st: State, step: Step)
    requires Inv(st) && (step.PollStep? || step.EvmPollStep?)
    ensures AllBound(Apply(st, step).rows, st.reg)
  {
    hide Poll, EvmPoll, Keyed, Unique, Derive, Committed, HasActive;
    forall i | 0 <= i < |st.rows|
      ensures Bound(Apply(st, step).rows[i], st.reg)
    {
      assert Bound(st.rows[i], st.reg);
      PollsRebind(st, step, i);
    }
    PollsRebindAll(st, step);
  }

  lemma PollsRebindAll(st: State, step: Step)
    requires ValidRegistry(st.reg) && (step.PollStep? || step.EvmPollStep?)
    ensures |Apply(st, step).rows| == |st.rows|
  {
  }

  /** Every step of a fixed deployment keeps every row keyed and bound. */
  lemma StepKeepsBinding(st: State, step: Step)
    requires Inv(st) && !step.RedeployStep?
    ensures Inv(Apply(st, step)) && Apply(st, step).reg == st.reg
  {
    hide Ensure, Activate, EvmActivate, Poll, EvmPoll, Sound, Bound, ValidRegistry, Revoke, Committed;
    StepKeepsWhole(st, step);
    match step {
      case EnsureStep(pid, c) => EnsureBinds(st, pid, c);
      case ActivateStep(pid, c, a) => ActivateBinds(st, pid, c, a);
      case PollStep(_, _) => PollsBind(st, step);
      case EvmActivateStep(pid, id, a) => EvmActivateBinds(st, pid, id, a);
      case EvmPollStep(_) => PollsBind(st, step);
      case RegisterStep(_, _, _) =>
      case RevokeStep(_) =>
    }
  }

  ghost predicate ValidSteps(steps: seq<Step>) {
    forall i :: 0 <= i < |steps| ==> ValidStep(steps[i])
  }

  /** The state after the first `n` steps, from no rows and no credentials. */
  ghost function Run(reg: Registry, steps: seq<Step>, n: nat): State
    requires ValidRegistry(reg) && ValidSteps(steps) && n <= |steps|
    ensures Whole(Run(reg, steps, n))
    decreases n
  {
    if n == 0 then State([], [], reg)
    else
      StepKeepsWhole(Run(reg, steps, n - 1), steps[n - 1]);
      Apply(Run(reg, steps, n - 1), steps[n - 1])
  }

  /** Over every run of a fixed deployment, every address is the derivation of its row's claiming key. */
  lemma {:induction false} RunBinds(reg: Registry, steps: seq<Step>, n: nat)
    requires ValidRegistry(reg) && ValidSteps(steps) && n <= |steps|
    requires forall i :: 0 <= i < n ==> !steps[i].RedeployStep?
    ensures Inv(Run(reg, steps, n)) && Run(reg, steps, n).reg == reg
    decreases n
  {
    hide Apply, Known, OldestActive, Keyed, Bound, Unique, Derive, ValidRegistry, Committed;
    if n > 0 {
      RunBinds(reg, steps, n - 1);
      StepKeepsBinding(Run(reg, steps, n - 1), steps[n - 1]);
    }
  }

  /**
   After any run at all and any redeployment, one setup call binds the identity's rows on its
   chains to the new deployment without touching a key, a live row or anybody else's row.
   */
  lemma RedeployHeals(reg: Registry, steps: seq<Step>, next: Registry, pid: Pid, c: Cluster)
    requires ValidRegistry(reg) && ValidSteps(steps) && ValidRegistry(next)
    ensures var moved := Apply(Run(reg, steps, |steps|), RedeployStep(next));
            Restored(moved.rows, Apply(moved, EnsureStep(pid, c)).rows, moved.auths, next, pid, SetupChains(next, c))
  {
    hide Apply, Unique, AllKeyed, HasActive, Committed, Restored, ValidRegistry, SetupChains, Run;
    var st := Run(reg, steps, |steps|);
    Redeployed(st, next);
    EnsureKeeps(Apply(st, RedeployStep(next)), pid, c);
    SetupOnly(Apply(st, RedeployStep(next)), pid, c);
  }

  lemma Redeployed(st: State, next: Registry)
    requires Whole(st) && ValidRegistry(next)
    ensures Sound(Apply(st, RedeployStep(next))) && Apply(st, RedeployStep(next)).reg == next
  {
    hide Unique, AllKeyed, HasActive;
  }

  lemma SetupOnly(st: State, pid: Pid, c: Cluster)
    requires ValidRegistry(st.reg)
    ensures Apply(st, EnsureStep(pid, c)).auths == st.auths && Apply(st, EnsureStep(pid, c)).reg == st.reg
  {
    hide Ensure;
  }

  // ---- Program-owned vaults ----

  /**
   What a step reads about the ownership of this row's vault is the truth. A poll's read may
   also throw, and so may an activation's balance read, which skips the ownership read.
   */
  ghost predicate Truthful(step: Step, row: Row, isOwned: bool) {
    match step
    case ActivateStep(pid, c, a) =>
      pid == row.pid && row.chain == Solana(Mapped(c)) && a.balance.Some? ==> a.activated == Some(isOwned)
    case PollStep(read, _) => read(row.chain, row.address).activated != Some(!isOwned)
    case _ => true
  }

  lemma TruthfulSame(step: Step, a: Row, b: Row, isOwned: bool)
    requires SameBinding(a, b) && Truthful(step, a, isOwned)
    ensures Truthful(step, b, isOwned)
  {
  }

  /** While a row's vault is program-owned, no step of a fixed deployment moves its address or key. */
  lemma OwnedIsFrozen(st: State, step: Step, i: nat)
    requires Inv(st) && !step.RedeployStep? && i < |st.rows| && Pollable(st.rows[i])
    requires Truthful(step, st.rows[i], true)
    ensures i < |Apply(st, step).rows| && SameBinding(st.rows[i], Apply(st, step).rows[i])
    ensures st.rows[i].status == Active ==> Apply(st, step).rows[i].status == Active
    ensures step.PollStep? && step.read(st.rows[i].chain, st.rows[i].address).activated.Some? ==>
              Apply(st, step).rows[i].status == Active
  {
    hide Known, OldestActive, Asserting, Keyed, Derive, EndStatus, ValidRegistry, Revoke, EvmChains, Unique, Ensure;
    var row := st.rows[i];
    match step {
      case EnsureStep(pid, c) =>
        EnsureKeeps(st, pid, c);
        assert Bound(row, st.reg);
      case ActivateStep(pid, c, a) =>
        if pid == row.pid && row.chain == Solana(Mapped(c)) {
          OwnedNotActivated(row, st.auths, Program(st.reg, c), a);
        }
      case _ =>
    }
  }

  lemma OwnedNotActivated(row: Row, auths: seq<Authority>, program: nat, a: Attempt)
    requires a.balance.Some? ==> a.activated == Some(true)
    ensures ActivateRow(row, auths, program, a) == row
  {
  }

  /** Steps of a fixed deployment from any state that satisfies the invariant. */
  ghost function Continue(st: State, steps: seq<Step>, n: nat): State
    requires Inv(st) && n <= |steps| && forall i :: 0 <= i < |steps| ==> !steps[i].RedeployStep?
    ensures Inv(Continue(st, steps, n))
    decreases n
  {
    if n == 0 then st
    else
      StepKeepsBinding(Continue(st, steps, n - 1), steps[n - 1]);
      Apply(Continue(st, steps, n - 1), steps[n - 1])
  }

  /**
   Over every continuation in which the vault stays program-owned, whatever other identities
   and clusters do meanwhile, its row keeps address and key and is not demoted.
   */
  lemma {:induction false} OwnedStaysFrozen(st: State, steps: seq<Step>, n: nat, i: nat)
    requires Inv(st) && n <= |steps| && i < |st.rows| && Pollable(st.rows[i])
    requires forall k :: 0 <= k < |steps| ==> !steps[k].RedeployStep? && Truthful(steps[k], st.rows[i], true)
    ensures i < |Continue(st, steps, n).rows| && SameBinding(st.rows[i], Continue(st, steps, n).rows[i])
    ensures st.rows[i].status == Active ==> Continue(st, steps, n).rows[i].status == Active
    decreases n
  {
    hide Inv, Truthful, Apply;
    if n > 0 {
      OwnedStaysFrozen(st, steps, n - 1, i);
      TruthfulSame(steps[n - 1], st.rows[i], Continue(st, steps, n - 1).rows[i], true);
      OwnedIsFrozen(Continue(st, steps, n - 1), steps[n - 1], i);
    }
  }

  /** No poll finds this row's vault owned, empty or short of the quote. */
  ghost predicate Inconclusive(step: Step, row: Row) {
    step.PollStep? && Pollable(row) ==>
      var rd := step.read(row.chain, row.address);
      && rd.activated != Some(true)
      && (rd.activated == Some(false) && rd.balance.Some? ==>
            rd.balance.value > 0 && rd.balance.value >= step.quote(row.chain.reference.cluster))
  }

  lemma InconclusiveSame(step: Step, a: Row, b: Row)
    requires SameBinding(a, b) && Inconclusive(step, a)
    ensures Inconclusive(step, b)
  {
  }

  lemma ActivatingStays(st: State, step: Step, i: nat)
    requires Inv(st) && !step.RedeployStep? && i < |st.rows| && Pollable(st.rows[i]) && st.rows[i].status == Activating
    requires Inconclusive(step, st.rows[i])
    ensures i < |Apply(st, step).rows| && SameBinding(st.rows[i], Apply(st, step).rows[i])
    ensures Apply(st, step).rows[i].status == Activating
  {
    hide Known, OldestActive, Asserting, Keyed, Derive, EndStatus, ValidRegistry, Revoke, EvmChains, Unique, Ensure;
    var row := st.rows[i];
    match step {
      case EnsureStep(pid, c) =>
        EnsureKeeps(st, pid, c);
        assert Bound(row, st.reg);
      case ActivateStep(pid, c, a) =>
        ActivatingBlocks(row, st.auths, Program(st.reg, c), a);
      case PollStep(read, quote) =>
        ActivatingEnds(row, read(row.chain, row.address), quote(row.chain.reference.cluster));
      case _ =>
    }
  }

  /**
   A funded wallet whose activation was rejected stays `activating` over every continuation,
   retries included, until a poll finds its vault owned or its balance short.
   */
  lemma {:induction false} ActivatingStaysOverRuns(st: State, steps: seq<Step>, n: nat, i: nat)
    requires Inv(st) && n <= |steps| && i < |st.rows| && Pollable(st.rows[i]) && st.rows[i].status == Activating
    requires forall k :: 0 <= k < |steps| ==> !steps[k].RedeployStep? && Inconclusive(steps[k], st.rows[i])
    ensures i < |Continue(st, steps, n).rows| && SameBinding(st.rows[i], Continue(st, steps, n).rows[i])
    ensures Continue(st, steps, n).rows[i].status == Activating
    decreases n
  {
    hide Inv, Inconclusive, Apply;
    if n > 0 {
      ActivatingStaysOverRuns(st, steps, n - 1, i);
      InconclusiveSame(steps[n - 1], st.rows[i], Continue(st, steps, n - 1).rows[i]);
      ActivatingStays(Continue(st, steps, n - 1), steps[n - 1], i);
    }
  }

  /**
   From a stranding attempt on: the row is `activating` after the attempt and after every
   inconclusive continuation, so no retry of the user's can bring it back.
   */
  lemma StrandedForGood(st: State, pid: Pid, c: Cluster, a: Attempt, j: nat, steps: seq<Step>, n: nat)
    requires Inv(st) && Find(st.rows, pid, Solana(Mapped(c))) == Some(j)
    requires Starts(st.rows[j], st.auths, a) && Strands(st.rows[j], st.auths, a)
    requires n <= |steps|
    requires var row := ActivateRow(st.rows[j], st.auths, Program(st.reg, c), a);
             forall k :: 0 <= k < |steps| ==> !steps[k].RedeployStep? && Inconclusive(steps[k], row)
    ensures var after := Apply(st, ActivateStep(pid, c, a));
            && Inv(after)
            && j < |Continue(after, steps, n).rows|
            && Continue(after, steps, n).rows[j].status == Activating
  {
    hide Unique, HasActive, Committed, Starts, Strands, Inconclusive, ActivateRow, Live;
    var after := Apply(st, ActivateStep(pid, c, a));
    assert Keyed(st.rows[j], st.auths) && Bound(st.rows[j], st.reg);
    ActivateRowBinds(st.rows[j], st.auths, st.reg, c, a);
    StepKeepsBinding(st, ActivateStep(pid, c, a));
    ReadyIsNotActivating(st.rows[j], st.auths, a);
    StrandedExactly(st.rows[j], st.auths, Program(st.reg, c), a);
    assert after.rows[j] == ActivateRow(st.rows[j], st.auths, Program(st.reg, c), a);
    ActivatingStaysOverRuns(after, steps, n, j);
  }

  lemma ReadyIsNotActivating(row: Row, auths: seq<Authority>, a: Attempt)
    requires Starts(row, auths, a)
    ensures row.status != Activating
  {
    hide OldestActive;
  }
}
