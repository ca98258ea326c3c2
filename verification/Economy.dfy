/** The mutual-credit ledger of internal/economy: ledger.go, store.go, policy.go and spend.go. */
module Economy {
  import opened Common
  import Q = Quorum

  newtype int64 = x: int | -0x8000_0000_0000_0000 <= x < 0x8000_0000_0000_0000
  type uint64 = x: int | 0 <= x < 0x1_0000_0000_0000_0000

  const MAX_INT64: int64 := 0x7FFF_FFFF_FFFF_FFFF
  const MIN_INT64: int64 := -0x8000_0000_0000_0000

  type AccountID = Hash

  datatype Mode = Escrow | Credit | Unknown(name: string)

  datatype Policy = Policy(mode: Mode, debitCap: uint64)

  datatype Spend = Spend(
    platform: string, from: AccountID, to: AccountID, amount: uint64,
    exchangeHash: Hash, issuedAt: int, nonce: uint64, signature: Signature)

  datatype PolicyChange = PolicyChange(platform: string, policy: Policy, version: uint64, at: int, sigs: seq<Signature>)

  datatype Genesis = Genesis(platform: string, stewards: seq<Key>, threshold: int, policy: Policy)

  /** What a store can hold. A foreign kind can only come from a writer that is not a ledger. */
  datatype Record = SpendRecord(spend: Spend) | ChangeRecord(change: PolicyChange) | ForeignRecord(tag: nat)

  /** The fixed surroundings: the directory, account-ID derivation, and ed25519 verification. */
  datatype World = World(
    directory: AccountID -> Option<Key>,
    accountIdFor: (string, Key) -> AccountID,
    spendSigned: (Key, Spend) -> bool,
    stewardSigned: (Key, PolicyChange, Signature) -> bool)

  datatype LedgerError =
    | CreditDisabled | WrongPlatform | SelfTransfer | ZeroAmount | AmountTooLarge
    | UnknownAccount | BadKeyLength | WrongAccountID | BadSignature | Replayed
    | OverLimit | PayeeOverflow | UnknownMode | CapTooLarge | NoQuorum | BadGenesis | Tampered

  /** Policy.validate */
  function PolicyError(p: Policy): Option<LedgerError> {
    if p.mode.Unknown? then Some(UnknownMode)
    else if p.debitCap > MAX_INT64 as int then Some(CapTooLarge)
    else None
  }

  /** Genesis.validate */
  predicate GenesisOk(g: Genesis) {
    g.platform != "" && 1 <= g.threshold <= |g.stewards| && PolicyError(g.policy).None?
  }

  /** The state a ledger derives from the records it has applied. */
  datatype View = View(pol: Policy, version: uint64, balances: map<AccountID, int64>, nonces: map<AccountID, uint64>)

  function Balance(v: View, a: AccountID): int64 {
    if a in v.balances then v.balances[a] else 0
  }

  function LastNonce(v: View, a: AccountID): uint64 {
    if a in v.nonces then v.nonces[a] else 0
  }

  function FirstView(g: Genesis): View {
    View(g.policy, 0, map[], map[])
  }

  /** The directory's key for an account: known, of canonical length, and hashing to the account. */
  function KeyError(w: World, g: Genesis, a: AccountID): Option<LedgerError> {
    match w.directory(a)
    case None => Some(UnknownAccount)
    case Some(key) =>
      if |key| != KEY_SIZE then Some(BadKeyLength)
      else if w.accountIdFor(g.platform, key) != a then Some(WrongAccountID)
      else None
  }

  /** admitSpend: the first rule the spend breaks, if any. Every int64 operation here is proved in
      range by its type. */
  function SpendError(w: World, g: Genesis, v: View, s: Spend): Option<LedgerError>
    requires PolicyError(v.pol).None?
  {
    if v.pol.mode.Escrow? then Some(CreditDisabled)
    else if s.platform != g.platform then Some(WrongPlatform)
    else if s.from == s.to then Some(SelfTransfer)
    else if s.amount == 0 then Some(ZeroAmount)
    else if s.amount > MAX_INT64 as int then Some(AmountTooLarge)
    else if KeyError(w, g, s.from).Some? then KeyError(w, g, s.from)
    else if KeyError(w, g, s.to).Some? then KeyError(w, g, s.to)
    else if |s.signature| != SIGNATURE_SIZE || !w.spendSigned(w.directory(s.from).value, s) then Some(BadSignature)
    else if s.nonce <= LastNonce(v, s.from) then Some(Replayed)
    else
      var amt := s.amount as int64;
      var from := Balance(v, s.from);
      if from < MIN_INT64 + amt then Some(OverLimit)
      else if from - amt < -(v.pol.debitCap as int64) then Some(OverLimit)
      else if Balance(v, s.to) > MAX_INT64 - amt then Some(PayeeOverflow)
      else None
  }

  /** Which steward signatures count for this change. */
  function StewardSigned(w: World, c: PolicyChange): Q.SignedBy {
    (k, s) => w.stewardSigned(k, c, s)
  }

  /** admitPolicyChange */
  function ChangeError(w: World, g: Genesis, v: View, c: PolicyChange): Option<LedgerError> {
    if c.platform != g.platform then Some(WrongPlatform)
    else if c.version <= v.version then Some(Replayed)
    else if PolicyError(c.policy).Some? then PolicyError(c.policy)
    else if !Q.Reached(StewardSigned(w, c), g.stewards, g.threshold, c.sigs) then Some(NoQuorum)
    else None
  }

  function AdmitError(w: World, g: Genesis, v: View, r: Record): Option<LedgerError>
    requires PolicyError(v.pol).None?
  {
    match r
    case SpendRecord(s) => SpendError(w, g, v, s)
    case ChangeRecord(c) => ChangeError(w, g, v, c)
    case ForeignRecord(_) => Some(Tampered)
  }

  /** applySpend and applyPolicyChange, on an admitted record. */
  function Apply(w: World, g: Genesis, v: View, r: Record): (v': View)
    requires PolicyError(v.pol).None? && AdmitError(w, g, v, r).None?
    ensures PolicyError(v'.pol).None?
  {
    match r
    case SpendRecord(s) =>
      var amt := s.amount as int64;
      var debited := v.balances[s.from := Balance(v, s.from) - amt];
      v.(balances := debited[s.to := Balance(v, s.to) + amt],
         nonces := v.nonces[s.from := s.nonce])
    case ChangeRecord(c) => v.(pol := c.policy, version := c.version)
  }

  /** Replaying a whole store from genesis, as Open does. */
  function Fold(w: World, g: Genesis, rs: seq<Record>): (r: Result<View, LedgerError>)
    requires GenesisOk(g)
    ensures r.Ok? ==> PolicyError(r.value.pol).None?
  {
    if rs == [] then Ok(FirstView(g))
    else
      var before := Fold(w, g, rs[..|rs| - 1]);
      if before.Err? then before
      else if AdmitError(w, g, before.value, rs[|rs| - 1]).Some? then Err(Tampered)
      else Ok(Apply(w, g, before.value, rs[|rs| - 1]))
  }

  lemma FoldStep(w: World, g: Genesis, rs: seq<Record>, r: Record)
    requires GenesisOk(g)
    ensures Fold(w, g, rs + [r]) ==
      var before := Fold(w, g, rs);
      if before.Err? then before
      else if AdmitError(w, g, before.value, r).Some? then Err(Tampered)
      else Ok(Apply(w, g, before.value, r))
  {
    var all := rs + [r];
    assert all[..|all| - 1] == rs;
  }

  /** Every prefix of a store that replays also replays. */
  lemma {:induction false} FoldOfPrefix(w: World, g: Genesis, rs: seq<Record>, i: nat)
    requires GenesisOk(g) && i <= |rs| && Fold(w, g, rs).Ok?
    ensures Fold(w, g, rs[..i]).Ok?
  {
    if i == |rs| {
      assert rs[..i] == rs;
    } else {
      FoldOfPrefix(w, g, rs[..|rs| - 1], i);
      assert rs[..|rs| - 1][..i] == rs[..i];
    }
  }

  lemma {:induction false} FoldStops(w: World, g: Genesis, rs: seq<Record>, i: nat)
    requires GenesisOk(g) && i <= |rs| && Fold(w, g, rs[..i]).Err?
    ensures Fold(w, g, rs).Err?
  {
    if Fold(w, g, rs).Ok? { FoldOfPrefix(w, g, rs, i); }
  }

  // ------------------------------------------------------------------ the store and the ledger

  class MemStore {
    var records: seq<Record>

    constructor ()
      ensures records == []
    {
      records := [];
    }

    /** Conditional append: nothing happens unless the caller's position is the record count. */
    method Append(after: nat, r: Record) returns (ok: bool)
      modifies this
      ensures ok <==> |old(records)| == after
      ensures records == if ok then old(records) + [r] else old(records)
    {
      if |records| != after {
        return false;
      }
      records := records + [r];
      return true;
    }
  }

  class Ledger {
    const w: World
    const g: Genesis
    const store: MemStore
    var pol: Policy
    var version: uint64
    var applied: nat
    var balances: map<AccountID, int64>
    var nonces: map<AccountID, uint64>

    function CurrentView(): View reads this {
      View(pol, version, balances, nonces)
    }

    /** The ledger's state is the replay of the first `applied` records of the store it shares. */
    ghost predicate Valid() reads this, store {
      && GenesisOk(g)
      && applied <= |store.records|
      && Fold(w, g, store.records[..applied]) == Ok(CurrentView())
    }

    constructor (w: World, g: Genesis, store: MemStore)
      requires GenesisOk(g)
      ensures Valid() && applied == 0
      ensures this.w == w && this.g == g && this.store == store
    {
      this.w, this.g, this.store := w, g, store;
      pol, version, applied := g.policy, 0, 0;
      balances, nonces := map[], map[];
    }

    /** replay: the fold step shared by Open and catch-up. A record that is not admitted changes
        nothing and reports tampering. */
    method Replay(r: Record) returns (ok: bool)
      requires Valid() && applied < |store.records| && r == store.records[applied]
      modifies this
      ensures ok <==> Fold(w, g, store.records[..old(applied) + 1]).Ok?
      ensures applied == old(applied) + (if ok then 1 else 0)
      ensures Valid()
      ensures !ok ==> CurrentView() == old(CurrentView())
    {
      assert store.records[..applied + 1] == store.records[..applied] + [r];
      FoldStep(w, g, store.records[..applied], r);
      if AdmitError(w, g, CurrentView(), r).Some? {
        return false;
      }
      ApplyRecord(r);
      applied := applied + 1;
      return true;
    }

    method ApplyRecord(r: Record)
      requires PolicyError(pol).None? && AdmitError(w, g, CurrentView(), r).None?
      modifies this`pol, this`version, this`balances, this`nonces
      ensures CurrentView() == Apply(w, g, old(CurrentView()), r)
    {
      match r
      case SpendRecord(s) =>
        var amt := s.amount as int64;
        balances := balances[s.from := Balance(CurrentView(), s.from) - amt];
        balances := balances[s.to := Balance(CurrentView(), s.to) + amt];
        nonces := nonces[s.from := s.nonce];
      case ChangeRecord(c) =>
        pol := c.policy;
        version := c.version;
    }

    /** catchUp: replays every record not yet applied; it fails only on a store that does not replay. */
    method CatchUp() returns (ok: bool)
      requires Valid()
      modifies this
      ensures Valid()
      ensures ok <==> Fold(w, g, store.records).Ok?
      ensures ok ==> applied == |store.records|
      ensures applied >= old(applied)
    {
      hide Fold, AdmitError, Apply;
      while applied < |store.records|
        invariant Valid() && applied >= old(applied)
        decreases |store.records| - applied
      {
        var i := applied;
        var replayed := Replay(store.records[i]);
        if !replayed {
          FoldStops(w, g, store.records, i + 1);
          return false;
        }
      }
      assert store.records[..applied] == store.records;
      return true;
    }

    /** The retry loop of Post and Enact, on a ledger that is alone while the call runs. The record
        enters the store exactly when the ledger's own view admits it and the view of the whole store
        does too; a stale ledger refuses from what it has seen, without looking further. At most two
        laps are made, and a store that does not replay is reported, never extended. */
    method Submit(r: Record) returns (outcome: Option<LedgerError>, laps: nat)
      requires Valid()
      modifies this, store
      ensures Valid()
      ensures laps <= 2
      ensures outcome.None? <==>
        && AdmitError(w, g, old(CurrentView()), r).None?
        && Fold(w, g, old(store.records)).Ok?
        && AdmitError(w, g, Fold(w, g, old(store.records)).value, r).None?
      ensures outcome.None? ==> store.records == old(store.records) + [r] && applied == |store.records|
      ensures outcome.Some? ==> store.records == old(store.records)
      ensures AdmitError(w, g, old(CurrentView()), r).None? && Fold(w, g, old(store.records)).Err? ==>
                outcome == Some(Tampered)
    {
      laps := 0;
      while true
        invariant Valid() && store.records == old(store.records)
        invariant laps <= 1
        invariant laps == 0 ==> CurrentView() == old(CurrentView())
        invariant laps == 1 ==> applied == |store.records| && AdmitError(w, g, old(CurrentView()), r).None?
        decreases |store.records| - applied, 1 - laps
      {
        laps := laps + 1;
        assert applied == |store.records| ==> store.records[..applied] == store.records;
        var refused := AdmitError(w, g, CurrentView(), r);
        if refused.Some? {
          outcome := refused;
          return;
        }
        var appended := store.Append(applied, r);
        if appended {
          assert old(store.records)[..applied] == old(store.records);
          FoldStep(w, g, old(store.records), r);
          ApplyRecord(r);
          applied := applied + 1;
          assert store.records[..applied] == store.records;
          outcome := None;
          return;
        }
        var ok := CatchUp();
        if !ok {
          outcome := Some(Tampered);
          return;
        }
      }
    }

    method Post(s: Spend) returns (outcome: Option<LedgerError>)
      requires Valid()
      modifies this, store
      ensures Valid()
      ensures outcome.None? ==> store.records == old(store.records) + [SpendRecord(s)]
      ensures outcome.Some? ==> store.records == old(store.records)
      ensures outcome.None? ==> w.directory(s.from).Some? && w.spendSigned(w.directory(s.from).value, s) && s.platform == g.platform
      ensures outcome.None? <==>
        && SpendError(w, g, old(CurrentView()), s).None?
        && Fold(w, g, old(store.records)).Ok?
        && SpendError(w, g, Fold(w, g, old(store.records)).value, s).None?
    {
      var laps;
      outcome, laps := Submit(SpendRecord(s));
    }

    method Enact(c: PolicyChange) returns (outcome: Option<LedgerError>)
      requires Valid()
      modifies this, store
      ensures Valid()
      ensures outcome.None? ==> store.records == old(store.records) + [ChangeRecord(c)]
      ensures outcome.Some? ==> store.records == old(store.records)
      ensures outcome.None? ==> |Q.Tally(StewardSigned(w, c), g.stewards, c.sigs)| >= g.threshold && c.platform == g.platform
      ensures outcome.None? <==>
        && ChangeError(w, g, old(CurrentView()), c).None?
        && Fold(w, g, old(store.records)).Ok?
        && ChangeError(w, g, Fold(w, g, old(store.records)).value, c).None?
    {
      var laps;
      outcome, laps := Submit(ChangeRecord(c));
    }
  }

  /** Open: a valid genesis and a store that replays, and nothing else, give a live ledger. */
  method Open(w: World, g: Genesis, store: MemStore) returns (r: Result<Ledger, LedgerError>)
    ensures r.Ok? <==>
      && g.platform != "" && 1 <= g.threshold <= |g.stewards|
      && !g.policy.mode.Unknown? && g.policy.debitCap <= 0x7FFF_FFFF_FFFF_FFFF
      && Fold(w, g, store.records).Ok?
    ensures r.Ok? ==> fresh(r.value) && r.value.store == store && r.value.w == w && r.value.g == g
    ensures r.Ok? ==> r.value.Valid() && r.value.applied == |store.records|
  {
    if !GenesisOk(g) {
      return Err(BadGenesis);
    }
    var l := new Ledger(w, g, store);
    var ok := l.CatchUp();
    if !ok {
      return Err(Tampered);
    }
    return Ok(l);
  }
}
