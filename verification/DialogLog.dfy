/** The operator's dialog log: internal/record/log.go over entries of internal/record/entry.go. */
module DialogLog {
  import opened Common
  import M = Merkle
  import W = Witness

  datatype Entry = Entry(
    log: Hash, proposer: Key, acceptor: Key, content: Hash, corrects: Hash, nonce: Hash, sealedAt: int,
    proposerSeal: Signature, acceptorSeal: Signature)

  /** ed25519 over an entry's canonical bytes, and the leaf hash of the sealed entry. */
  datatype Crypto = Crypto(signed: (Key, Entry, Signature) -> bool, id: Entry -> Hash)

  /** Entry.Verify: two distinct well-formed members, both of whose seals verify. */
  predicate Sealed(cr: Crypto, e: Entry) {
    && |e.proposer| == KEY_SIZE && |e.acceptor| == KEY_SIZE
    && e.proposer != e.acceptor
    && |e.proposerSeal| == SIGNATURE_SIZE && |e.acceptorSeal| == SIGNATURE_SIZE
    && cr.signed(e.proposer, e, e.proposerSeal) && cr.signed(e.acceptor, e, e.acceptorSeal)
  }

  datatype LogError = NotSealed | OtherLog | DanglingCorrection | DuplicateLeaf | BadKey | OutOfRange

  /** The in-memory tree state: leaf IDs in sequence order, and where each one is. */
  datatype TreeState = TreeState(leafs: seq<Hash>, index: map<Hash, nat>)

  const EMPTY := TreeState([], map[])

  /** check: every admission gate, against the current state. */
  function Check(cr: Crypto, id: Hash, st: TreeState, e: Entry): Result<Hash, LogError> {
    if !Sealed(cr, e) then Err(NotSealed)
    else if e.log != id then Err(OtherLog)
    else if e.corrects != ZERO_HASH && e.corrects !in st.index then Err(DanglingCorrection)
    else if cr.id(e) in st.index then Err(DuplicateLeaf)
    else Ok(cr.id(e))
  }

  function Admit(st: TreeState, leaf: Hash): TreeState {
    TreeState(st.leafs + [leaf], st.index[leaf := |st.leafs|])
  }

  function CheckAndAdmit(cr: Crypto, id: Hash, st: TreeState, e: Entry): Result<TreeState, LogError> {
    match Check(cr, id, st, e)
    case Err(x) => Err(x)
    case Ok(leaf) => Ok(Admit(st, leaf))
  }

  /** What opening a store that holds these entries yields. */
  function Replay(cr: Crypto, id: Hash, entries: seq<Entry>): Result<TreeState, LogError> {
    if entries == [] then Ok(EMPTY)
    else
      match Replay(cr, id, entries[..|entries| - 1])
      case Err(e) => Err(e)
      case Ok(st) => CheckAndAdmit(cr, id, st, entries[|entries| - 1])
  }

  /** Replaying one more entry. */
  lemma ReplayStep(cr: Crypto, id: Hash, entries: seq<Entry>, e: Entry)
    ensures Replay(cr, id, entries + [e]) ==
      var before := Replay(cr, id, entries);
      if before.Err? then before else CheckAndAdmit(cr, id, before.value, e)
  {
    var all := entries + [e];
    assert all[..|all| - 1] == entries;
  }

  class MemStore {
    var entries: seq<Entry>

    constructor ()
      ensures entries == []
    {
      entries := [];
    }

    method Append(e: Entry)
      modifies this
      ensures entries == old(entries) + [e]
    {
      entries := entries + [e];
    }

    method At(i: nat) returns (r: Result<Entry, LogError>)
      ensures r == if i < |entries| then Ok(entries[i]) else Err(OutOfRange)
    {
      if i >= |entries| {
        return Err(OutOfRange);
      }
      return Ok(entries[i]);
    }
  }

  class Log {
    const cr: Crypto
    const node: M.NodeHash
    const id: Hash
    const store: MemStore
    var leafs: seq<Hash>
    var index: map<Hash, nat>

    function State(): TreeState reads this {
      TreeState(leafs, index)
    }

    /** The log in memory is what its store replays to. */
    ghost predicate Valid() reads this, store {
      Replay(cr, id, store.entries) == Ok(State())
    }

    constructor (cr: Crypto, node: M.NodeHash, id: Hash, store: MemStore)
      ensures leafs == [] && index == map[]
      ensures this.cr == cr && this.node == node && this.id == id && this.store == store
    {
      this.cr, this.node, this.id, this.store := cr, node, id, store;
      leafs, index := [], map[];
    }

    method Append(e: Entry) returns (r: Result<nat, LogError>)
      requires Valid()
      modifies this, store
      ensures Valid()
      ensures r.Ok? <==> Check(cr, id, old(State()), e).Ok?
      ensures r.Ok? ==> r.value == |old(leafs)| && State() == Admit(old(State()), cr.id(e))
      ensures r.Ok? ==> store.entries == old(store.entries) + [e]
      ensures r.Err? ==> Check(cr, id, old(State()), e) == Err(r.error)
      ensures r.Err? ==> State() == old(State()) && store.entries == old(store.entries)
    {
      var checked := Check(cr, id, State(), e);
      if checked.Err? {
        return Err(checked.error);
      }
      store.Append(e);
      ReplayStep(cr, id, old(store.entries), e);
      r := Ok(|leafs|);
      index, leafs := index[checked.value := |leafs|], leafs + [checked.value];
    }

    method Checkpoint(at: int, sig: W.Checkpoint -> Signature) returns (cp: W.Checkpoint)
      requires Valid()
      ensures cp.log == id && cp.size == |leafs| && cp.issuedAt == at
      ensures cp.head == if leafs == [] then id else M.Head(node, leafs)
    {
      var head := id;
      if |leafs| > 0 {
        head := M.Head(node, leafs);
      }
      var unsigned := W.Checkpoint(id, |leafs|, head, at, []);
      cp := unsigned.(signature := sig(unsigned));
    }

    method Prove(seqNo: nat) returns (r: Result<seq<Hash>, LogError>)
      ensures r.Ok? <==> seqNo < |leafs|
      ensures r.Ok? ==> M.RootFromPath(node, leafs[seqNo], seqNo, |leafs|, r.value) == Some(M.Head(node, leafs))
    {
      if seqNo >= |leafs| {
        return Err(OutOfRange);
      }
      M.InclusionComplete(node, seqNo, leafs, 0, |leafs|);
      return Ok(M.ProvePath(node, seqNo, leafs, 0, |leafs|));
    }

    /** Proofs from any earlier size: the verifier consumes them exactly and recomputes both heads. */
    method ProveConsistency(size: nat) returns (r: Result<seq<Hash>, LogError>)
      ensures r.Ok? <==> size <= |leafs|
      ensures r.Ok? && (size == 0 || size == |leafs|) ==> r.value == []
      ensures r.Ok? && 0 < size < |leafs| ==>
        var older := M.Head(node, leafs[..size]);
        M.ConsRoots(node, size, |leafs|, true, r.value, older) == Some(M.Roots(older, M.Head(node, leafs), []))
    {
      if size > |leafs| {
        return Err(OutOfRange);
      }
      if size == 0 || size == |leafs| {
        return Ok([]);
      }
      var proof := M.ProveConsistency(node, size, leafs);
      M.HeadOfPrefix(node, leafs, size);
      M.ConsistencyComplete(node, size, leafs, 0, |leafs|, true, [], M.Head(node, leafs[..size]));
      assert [] + proof == proof;
      return Ok(proof);
    }
  }

  /** OpenLog: re-verifies every stored entry through the same gates. It succeeds exactly when the
      store replays, and then holds exactly the replayed state. */
  method OpenLog(cr: Crypto, node: M.NodeHash, operator: Key, id: Hash, store: MemStore)
    returns (r: Result<Log, LogError>)
    ensures |operator| != KEY_SIZE ==> r == Err(BadKey)
    ensures |operator| == KEY_SIZE ==> (r.Ok? <==> Replay(cr, id, store.entries).Ok?)
    ensures r.Ok? ==> r.value.Valid() && r.value.State() == Replay(cr, id, store.entries).value
    ensures r.Ok? ==> r.value.store == store && r.value.id == id && r.value.cr == cr && r.value.node == node
    ensures r.Ok? ==> fresh(r.value)
  {
    if |operator| != KEY_SIZE {
      return Err(BadKey);
    }
    var l := new Log(cr, node, id, store);
    for i := 0 to |store.entries|
      invariant fresh(l) && l.store == store && l.id == id && l.cr == cr && l.node == node
      invariant Replay(cr, id, store.entries[..i]) == Ok(l.State())
    {
      var e := store.entries[i];
      assert store.entries[..i + 1] == store.entries[..i] + [e];
      ReplayStep(cr, id, store.entries[..i], e);
      var checked := Check(cr, id, l.State(), e);
      if checked.Err? {
        ReplayStops(cr, id, store.entries, i + 1);
        return Err(checked.error);
      }
      l.index, l.leafs := l.index[checked.value := |l.leafs|], l.leafs + [checked.value];
    }
    assert store.entries[..|store.entries|] == store.entries;
    return Ok(l);
  }

  /** A prefix that fails to replay fails every extension of it. */
  lemma {:induction false} ReplayStops(cr: Crypto, id: Hash, entries: seq<Entry>, i: nat)
    requires i <= |entries| && Replay(cr, id, entries[..i]).Err?
    ensures Replay(cr, id, entries).Err?
  {
    if i == |entries| {
      assert entries[..i] == entries;
    } else {
      var front := entries[..|entries| - 1];
      assert front[..i] == entries[..i];
      ReplayStops(cr, id, front, i);
    }
  }

  /** In every log that replays, the leaves are the entries' IDs in order and pairwise distinct, the
      index is exactly the position of each, and corrections point only backwards. */
  ghost predicate Coherent(cr: Crypto, id: Hash, entries: seq<Entry>, st: TreeState) {
    && |st.leafs| == |entries|
    && (forall i :: 0 <= i < |entries| ==> st.leafs[i] == cr.id(entries[i]) && Sealed(cr, entries[i]) && entries[i].log == id)
    && (forall i :: 0 <= i < |st.leafs| ==> st.leafs[i] in st.index && st.index[st.leafs[i]] == i)
    && (forall h <- st.index :: st.index[h] < |st.leafs| && st.leafs[st.index[h]] == h)
    && (forall i :: 0 <= i < |entries| && entries[i].corrects != ZERO_HASH ==> entries[i].corrects in st.leafs[..i])
  }

  lemma CoherentStep(cr: Crypto, id: Hash, entries: seq<Entry>, st: TreeState, e: Entry)
    requires Coherent(cr, id, entries, st) && Check(cr, id, st, e).Ok?
    ensures Coherent(cr, id, entries + [e], Admit(st, cr.id(e)))
  {
    var next := Admit(st, cr.id(e));
    var all := entries + [e];
    forall i | 0 <= i < |all| && all[i].corrects != ZERO_HASH
      ensures all[i].corrects in next.leafs[..i]
    {
      assert next.leafs[..i] == st.leafs[..i];
      if i == |entries| {
        assert st.leafs[..i] == st.leafs;
        assert st.leafs[st.index[e.corrects]] == e.corrects;
      }
    }
  }

  lemma {:induction false} ReplayCoherent(cr: Crypto, id: Hash, entries: seq<Entry>)
    requires Replay(cr, id, entries).Ok?
    ensures Coherent(cr, id, entries, Replay(cr, id, entries).value)
  {
    hide Coherent, Replay, Check, Admit;
    if entries == [] {
      EmptyCoherent(cr, id);
    } else {
      var front, e := entries[..|entries| - 1], entries[|entries| - 1];
      assert entries == front + [e];
      ReplayStep(cr, id, front, e);
      ReplayCoherent(cr, id, front);
      CheckedId(cr, id, Replay(cr, id, front).value, e);
      CoherentStep(cr, id, front, Replay(cr, id, front).value, e);
    }
  }

  lemma EmptyCoherent(cr: Crypto, id: Hash)
    ensures Replay(cr, id, []) == Ok(EMPTY) && Coherent(cr, id, [], EMPTY)
  {
  }

  lemma CheckedId(cr: Crypto, id: Hash, st: TreeState, e: Entry)
    ensures Check(cr, id, st, e).Ok? ==> Check(cr, id, st, e).value == cr.id(e)
  {
  }

  /** Both parties are distinct, have keys of the pinned length, and sealed the entry. */
  predicate SealedByBoth(signed: (Key, Entry, Signature) -> bool, e: Entry) {
    && e.proposer != e.acceptor
    && |e.proposer| == KEY_SIZE && |e.proposerSeal| == SIGNATURE_SIZE && signed(e.proposer, e, e.proposerSeal)
    && |e.acceptor| == KEY_SIZE && |e.acceptorSeal| == SIGNATURE_SIZE && signed(e.acceptor, e, e.acceptorSeal)
  }

  /** Exactly which entry a log takes next, told by the entries it holds: one sealed by both parties, for this
      log, with a new ID, that corrects nothing or an entry already there. */
  lemma EntryAdmittedExactly(cr: Crypto, id: Hash, entries: seq<Entry>, e: Entry)
    requires Replay(cr, id, entries).Ok?
    ensures Replay(cr, id, entries + [e]).Ok? <==>
      && SealedByBoth(cr.signed, e) && e.log == id
      && (e.corrects == ZERO_HASH || exists i :: 0 <= i < |entries| && cr.id(entries[i]) == e.corrects)
      && (forall i :: 0 <= i < |entries| ==> cr.id(entries[i]) != cr.id(e))
  {
    ReplayStep(cr, id, entries, e);
    ReplayCoherent(cr, id, entries);
    hide Replay;
    var st := Replay(cr, id, entries).value;
    assert forall h :: h in st.index <==> exists i :: 0 <= i < |entries| && cr.id(entries[i]) == h by {
      assert forall i :: 0 <= i < |entries| ==> st.leafs[i] == cr.id(entries[i]);
    }
  }

  /** Every entry of every log was sealed by both its parties, for that log. */
  lemma EveryEntrySealed(cr: Crypto, id: Hash, entries: seq<Entry>, i: nat)
    requires Replay(cr, id, entries).Ok? && i < |entries|
    ensures SealedByBoth(cr.signed, entries[i]) && entries[i].log == id
  {
    hide Replay;
    ReplayCoherent(cr, id, entries);
  }

  /** What was committed stays committed: every prefix of a store that replays also replays, to the
      prefix of its leaves. */
  lemma {:induction false} ReplayOfPrefix(cr: Crypto, id: Hash, early: seq<Entry>, entries: seq<Entry>)
    requires early <= entries && Replay(cr, id, entries).Ok?
    ensures Replay(cr, id, early).Ok?
    ensures Replay(cr, id, early).value.leafs <= Replay(cr, id, entries).value.leafs
    decreases |entries|
  {
    if early != entries {
      var front, e := entries[..|entries| - 1], entries[|entries| - 1];
      assert entries == front + [e];
      ReplayOfPrefix(cr, id, early, front);
    }
  }

  /** An honest operator's extension is always accepted: a checkpoint over any earlier state of the
      store, and one over its present state, verify as consistent on the log's own proof. */
  lemma LogExtensionAccepted(cr: Crypto, wcr: W.Crypto, id: Hash, early: seq<Entry>, entries: seq<Entry>,
                             older: W.Checkpoint, newer: W.Checkpoint, operator: Key)
    requires early <= entries && Replay(cr, id, early).Ok? && Replay(cr, id, entries).Ok?
    requires W.VerifyAs(wcr, older, operator, id) && W.VerifyAs(wcr, newer, operator, id)
    requires W.Opens(wcr, older, Replay(cr, id, early).value.leafs)
    requires W.Opens(wcr, newer, Replay(cr, id, entries).value.leafs)
    ensures older.size <= newer.size
    ensures var proof := W.HonestProof(wcr, older.size, Replay(cr, id, entries).value.leafs);
      W.VerifyConsistencyAs(wcr, older, newer, proof, operator, id)
  {
    hide Replay;
    ReplayOfPrefix(cr, id, early, entries);
    assert Replay(cr, id, entries).value.leafs[..older.size] == Replay(cr, id, early).value.leafs;
    W.HonestExtensionAccepted(wcr, older, newer, Replay(cr, id, entries).value.leafs, operator, id);
  }

  // ------------------------------------------------------------------ inclusion, end to end

  /** VerifyInclusion: a sealed entry, a checkpoint of the operator's own log, and a path between them. */
  predicate VerifyInclusion(cr: Crypto, wcr: W.Crypto, logId: Key -> Hash, e: Entry, at: nat, path: seq<Hash>,
                            cp: W.Checkpoint, operator: Key)
  {
    && Sealed(cr, e)
    && W.VerifyAs(wcr, cp, operator, logId(operator))
    && e.log == cp.log
    && M.RootFromPath(wcr.node, cr.id(e), at, cp.size, path) == Some(cp.head)
  }

  /** VerifyInclusion comes back: every gate before the path does, and then rootFromPath must. */
  ghost predicate InclusionReturns(cr: Crypto, wcr: W.Crypto, logId: Key -> Hash, e: Entry, at: nat, path: seq<Hash>,
                                   cp: W.Checkpoint, operator: Key)
  {
    if !Sealed(cr, e) || !W.VerifyAs(wcr, cp, operator, logId(operator)) || e.log != cp.log then true
    else M.RootReturns(at, cp.size, path)
  }

  /** Exactly when: for sizes a checkpoint can carry, the verifier answers unless entry and checkpoint
      verify, the position is in range, the size is above 2^63, and there is a path to consume. */
  lemma InclusionReturnsExactly(cr: Crypto, wcr: W.Crypto, logId: Key -> Hash, e: Entry, at: nat, path: seq<Hash>,
                                cp: W.Checkpoint, operator: Key)
    requires cp.size < TWO_64
    ensures InclusionReturns(cr, wcr, logId, e, at, path, cp, operator) <==>
      !(&& Sealed(cr, e) && W.VerifyAs(wcr, cp, operator, logId(operator)) && e.log == cp.log
        && at < cp.size && cp.size > TWO_63 && path != [])
  {
    hide M.RootReturns;
    M.RootReturnsExactly(at, cp.size, path);
  }

  /** Every entry of every log that replays is provable under a checkpoint of its state, on a path no
      longer than the ceiling of log2 of the size. */
  lemma EntryProvable(cr: Crypto, wcr: W.Crypto, logId: Key -> Hash, entries: seq<Entry>, at: nat, cp: W.Checkpoint,
                      operator: Key, e: nat)
    requires Replay(cr, logId(operator), entries).Ok? && at < |entries|
    requires W.VerifyAs(wcr, cp, operator, logId(operator)) && W.Opens(wcr, cp, Replay(cr, logId(operator), entries).value.leafs)
    requires cp.size <= M.Pow2(e)
    ensures |Replay(cr, logId(operator), entries).value.leafs| == |entries|
    ensures var leafs := Replay(cr, logId(operator), entries).value.leafs;
      var path := M.ProvePath(wcr.node, at, leafs, 0, |leafs|);
      VerifyInclusion(cr, wcr, logId, entries[at], at, path, cp, operator) && |path| <= e
  {
    hide Replay, M.RootFromPath, M.ProvePath, M.Pow2, M.Mth;
    var id := logId(operator);
    ReplayCoherent(cr, id, entries);
    var leafs := Replay(cr, id, entries).value.leafs;
    M.InclusionComplete(wcr.node, at, leafs, 0, |leafs|);
    M.PathIsLogarithmic(wcr.node, at, leafs, 0, |leafs|, e);
  }

  /** An entry accepted under a checkpoint of a log that replays has the leaf ID of the entry the log holds
      at that position, and came with the log's own path; or the audit returns a node-hash collision. */
  lemma AcceptedEntryCommitted(cr: Crypto, wcr: W.Crypto, logId: Key -> Hash, entries: seq<Entry>, e: Entry, at: nat,
                               path: seq<Hash>, cp: W.Checkpoint, operator: Key)
    requires Replay(cr, logId(operator), entries).Ok?
    requires W.Opens(wcr, cp, Replay(cr, logId(operator), entries).value.leafs)
    requires VerifyInclusion(cr, wcr, logId, e, at, path, cp, operator)
    ensures at < |entries| == |Replay(cr, logId(operator), entries).value.leafs|
    ensures var leafs := Replay(cr, logId(operator), entries).value.leafs;
      var clash := M.AuditInclusion(wcr.node, cr.id(e), at, leafs, 0, |leafs|, path);
      if clash.Some? then M.IsClash(wcr.node, clash.value)
      else cr.id(e) == cr.id(entries[at]) && path == M.ProvePath(wcr.node, at, leafs, 0, |leafs|)
  {
    InRange(cr, wcr, logId, e, at, path, cp, operator);
    hide Replay, M.RootFromPath, M.ProvePath, M.AuditInclusion, M.Mth;
    ReplayCoherent(cr, logId(operator), entries);
    var leafs := Replay(cr, logId(operator), entries).value.leafs;
    M.InclusionSound(wcr.node, cr.id(e), at, leafs, 0, |leafs|, path);
  }

  lemma InRange(cr: Crypto, wcr: W.Crypto, logId: Key -> Hash, e: Entry, at: nat, path: seq<Hash>, cp: W.Checkpoint,
                operator: Key)
    requires VerifyInclusion(cr, wcr, logId, e, at, path, cp, operator)
    ensures at < cp.size
  {
  }
}
