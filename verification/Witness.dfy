/** Checkpoints, their verification, and the witness of internal/record: verify.go, checkpoint.go
    and witness.go. Signature verification is an abstract predicate; the node hash is a parameter. */
module Witness {
  import opened Common
  import opened Merkle

  /** An operator's signed commitment to its log head. */
  datatype Checkpoint = Checkpoint(log: Hash, size: nat, head: Hash, issuedAt: int, signature: Signature)

  datatype Countersignature = Countersignature(cosigner: Key, signature: Signature)

  /** ed25519 over the canonical payloads, and the interior-node hash. */
  datatype Crypto = Crypto(
    node: NodeHash,
    checkpointSigned: (Key, Checkpoint) -> bool,
    cosigned: (Key, Checkpoint, Signature) -> bool)

  predicate VerifyAs(cr: Crypto, cp: Checkpoint, signer: Key, wantLog: Hash) {
    && |signer| == KEY_SIZE
    && |cp.signature| == SIGNATURE_SIZE
    && cp.log == wantLog
    && cr.checkpointSigned(signer, cp)
  }

  /** VerifyConsistencyAs: does `newer` extend `older` without rewrite? */
  predicate VerifyConsistencyAs(cr: Crypto, older: Checkpoint, newer: Checkpoint, proof: seq<Hash>,
                                signer: Key, wantLog: Hash)
  {
    if !VerifyAs(cr, older, signer, wantLog) || !VerifyAs(cr, newer, signer, wantLog) then false
    else if older.log != newer.log then false
    else if older.size > newer.size then false
    else if older.size == 0 then proof == []
    else if older.size == newer.size then proof == [] && older.head == newer.head
    else
      match ConsRoots(cr.node, older.size, newer.size, true, proof, older.head)
      case None => false
      case Some(roots) => roots.rest == [] && roots.older == older.head && roots.newer == newer.head
  }

  /** The comparison reaches a split that the 64-bit loop never finds. */
  predicate Spins(cr: Crypto, older: Checkpoint, newer: Checkpoint, proof: seq<Hash>, signer: Key, wantLog: Hash) {
    && VerifyAs(cr, older, signer, wantLog) && VerifyAs(cr, newer, signer, wantLog) && older.log == newer.log
    && 0 < older.size < newer.size && newer.size > TWO_63 && proof != []
  }

  /** VerifyConsistencyAs comes back: every gate before the proof does, and then consRoots must. */
  ghost predicate ConsistencyReturns(cr: Crypto, older: Checkpoint, newer: Checkpoint, proof: seq<Hash>,
                                     signer: Key, wantLog: Hash)
  {
    if !VerifyAs(cr, older, signer, wantLog) || !VerifyAs(cr, newer, signer, wantLog) then true
    else if older.log != newer.log || older.size > newer.size || older.size == 0 || older.size == newer.size then true
    else ConsRootsReturns(older.size, newer.size, proof)
  }

  /** Exactly when: for sizes a checkpoint can carry, the verifier answers unless both checkpoints verify,
      the sizes really differ, the newer is above 2^63, and there is a proof to consume. */
  lemma ConsistencyReturnsExactly(cr: Crypto, older: Checkpoint, newer: Checkpoint, proof: seq<Hash>,
                                  signer: Key, wantLog: Hash)
    requires newer.size < TWO_64
    ensures ConsistencyReturns(cr, older, newer, proof, signer, wantLog) <==> !Spins(cr, older, newer, proof, signer, wantLog)
  {
    hide ConsRootsReturns;
    if 0 < older.size { ConsRootsReturnsExactly(older.size, newer.size, proof); }
  }

  /** These leaves are what the checkpoint commits to. The empty log commits to no leaf. */
  predicate Opens(cr: Crypto, cp: Checkpoint, leaves: seq<Hash>) {
    |leaves| == cp.size && (leaves != [] ==> Head(cr.node, leaves) == cp.head)
  }

  /** The proof an honest operator holding `leaves` sends for an older checkpoint of m leaves. */
  function HonestProof(cr: Crypto, m: nat, leaves: seq<Hash>): seq<Hash>
    requires m <= |leaves|
  {
    if m == 0 || m == |leaves| then [] else ProveConsistency(cr.node, m, leaves)
  }

  /** Completeness: a checkpoint of any prefix is accepted as extended, on the honest proof. */
  lemma HonestExtensionAccepted(cr: Crypto, older: Checkpoint, newer: Checkpoint, leaves: seq<Hash>,
                                signer: Key, wantLog: Hash)
    requires VerifyAs(cr, older, signer, wantLog) && VerifyAs(cr, newer, signer, wantLog)
    requires Opens(cr, newer, leaves)
    requires older.size <= newer.size && Opens(cr, older, leaves[..older.size])
    ensures VerifyConsistencyAs(cr, older, newer, HonestProof(cr, older.size, leaves), signer, wantLog)
  {
    var m := older.size;
    if 0 < m {
      HeadOfPrefix(cr.node, leaves, m);
      if m == newer.size {
        assert leaves[..m] == leaves;
      } else {
        ConsistencyComplete(cr.node, m, leaves, 0, |leaves|, true, [], older.head);
        assert [] + ProveConsistency(cr.node, m, leaves) == ProveConsistency(cr.node, m, leaves);
      }
    }
  }

  /** The collision behind an accepted extension whose older checkpoint is not the prefix. */
  function AuditExtension(cr: Crypto, older: Checkpoint, proof: seq<Hash>, leaves: seq<Hash>): Option<Clash>
    requires older.size <= |leaves|
  {
    if older.size == 0 || older.size == |leaves| then None
    else AuditConsistency(cr.node, older.size, leaves, 0, |leaves|, true, proof, older.head)
  }

  /** Soundness: when an extension is accepted and the newer checkpoint opens to some leaves, the
      older one opens to their prefix and the proof was the honest one, or a collision is returned. */
  lemma AcceptedExtensionSound(cr: Crypto, older: Checkpoint, newer: Checkpoint, proof: seq<Hash>,
                               signer: Key, wantLog: Hash, leaves: seq<Hash>)
    requires VerifyConsistencyAs(cr, older, newer, proof, signer, wantLog)
    requires Opens(cr, newer, leaves)
    ensures older.size <= |leaves|
    ensures match AuditExtension(cr, older, proof, leaves)
      case None => Opens(cr, older, leaves[..older.size]) && proof == HonestProof(cr, older.size, leaves)
      case Some(c) => IsClash(cr.node, c)
  {
    var m := older.size;
    if 0 < m == newer.size {
      assert leaves[..m] == leaves;
    } else if 0 < m {
      var roots := ConsRoots(cr.node, m, |leaves|, true, proof, older.head).value;
      ConsistencySound(cr.node, m, leaves, 0, |leaves|, true, proof, older.head, roots);
      HeadOfPrefix(cr.node, leaves, m);
      assert [] + ProveConsistency(cr.node, m, leaves) == ProveConsistency(cr.node, m, leaves);
    }
  }

  // ------------------------------------------------------------------ the witness over whole runs

  datatype Request = Request(cp: Checkpoint, operator: Key, wantLog: Hash, proof: seq<Hash>)

  /** Why there is no countersignature. NeverReturns stands for the call that does not come back; it holds
      no lock, so other calls go on. */
  datatype Refusal = MalformedKey | OwnOperator | BadCheckpoint | NeverReturns | RollbackOrFork

  /** Who the witness is: its public key, and whether its private key has the right length. */
  datatype Identity = Identity(pub: Key, keyWellFormed: bool)

  /** The refusal CountersignAs gives this request against the remembered checkpoints, if any. */
  function Refuses(cr: Crypto, who: Identity, last: map<Hash, Checkpoint>, r: Request): Option<Refusal> {
    if !who.keyWellFormed then Some(MalformedKey)
    else if r.operator == who.pub then Some(OwnOperator)
    else if !VerifyAs(cr, r.cp, r.operator, r.wantLog) then Some(BadCheckpoint)
    else if r.cp.log in last && Spins(cr, last[r.cp.log], r.cp, r.proof, r.operator, r.wantLog) then Some(NeverReturns)
    else if r.cp.log in last
         && !VerifyConsistencyAs(cr, last[r.cp.log], r.cp, r.proof, r.operator, r.wantLog) then Some(RollbackOrFork)
    else None
  }

  /** The witness's memory after a run of requests, from the empty memory of a fresh witness. */
  function Memory(cr: Crypto, who: Identity, run: seq<Request>): map<Hash, Checkpoint> {
    if run == [] then map[]
    else
      var r := run[|run| - 1];
      var before := Memory(cr, who, run[..|run| - 1]);
      if Refuses(cr, who, before, r).None? then before[r.cp.log := r.cp] else before
  }

  /** Request i of the run was countersigned. */
  predicate Cosigned(cr: Crypto, who: Identity, run: seq<Request>, i: nat)
    requires i < |run|
  {
    Refuses(cr, who, Memory(cr, who, run[..i]), run[i]).None?
  }

  class LiveWitness {
    const who: Identity
    const cr: Crypto
    const sign: Checkpoint -> Signature
    var last: map<Hash, Checkpoint>
    ghost var served: seq<Request>

    /** The map is what the whole run of requests so far left behind. */
    ghost predicate Valid() reads this {
      last == Memory(cr, who, served)
    }

    constructor (who: Identity, cr: Crypto, sign: Checkpoint -> Signature)
      ensures Valid() && served == [] && last == map[]
      ensures this.who == who && this.cr == cr && this.sign == sign
    {
      this.who, this.cr, this.sign := who, cr, sign;
      last, served := map[], [];
    }

    method CountersignAs(cp: Checkpoint, operator: Key, wantLog: Hash, proof: seq<Hash>)
      returns (r: Result<Countersignature, Refusal>)
      requires Valid()
      modifies this
      ensures Valid()
      ensures served == old(served) + [Request(cp, operator, wantLog, proof)]
      ensures r.Ok? <==> Cosigned(cr, who, served, |old(served)|)
      ensures r.Err? ==> Refuses(cr, who, old(last), Request(cp, operator, wantLog, proof)) == Some(r.error)
      ensures r.Ok? ==> r.value == Countersignature(who.pub, sign(cp))
      ensures r.Ok? ==> cr.checkpointSigned(operator, cp) && cp.log == wantLog && operator != who.pub
      ensures last == if r.Ok? then old(last)[cp.log := cp] else old(last)
    {
      ghost var before := served;
      served := served + [Request(cp, operator, wantLog, proof)];
      assert served[..|before|] == before;
      if !who.keyWellFormed {
        return Err(MalformedKey);
      }
      if operator == who.pub {
        return Err(OwnOperator);
      }
      if !VerifyAs(cr, cp, operator, wantLog) {
        return Err(BadCheckpoint);
      }
      if cp.log in last {
        var prev := last[cp.log];
        if Spins(cr, prev, cp, proof, operator, wantLog) {
          return Err(NeverReturns);
        }
        if !VerifyConsistencyAs(cr, prev, cp, proof, operator, wantLog) {
          return Err(RollbackOrFork);
        }
      }
      r := Ok(Countersignature(who.pub, sign(cp)));
      last := last[cp.log := cp];
    }
  }

  /** The latest request before position j that was countersigned for this log. */
  function LatestFor(cr: Crypto, who: Identity, run: seq<Request>, log: Hash, j: nat): Option<nat>
    requires j <= |run|
  {
    if j == 0 then None
    else if run[j - 1].cp.log == log && Cosigned(cr, who, run, j - 1) then Some(j - 1)
    else LatestFor(cr, who, run, log, j - 1)
  }

  /** The memory of a log is the latest checkpoint countersigned for it. */
  lemma {:induction false} MemoryIsLatest(cr: Crypto, who: Identity, run: seq<Request>, log: Hash, j: nat)
    requires j <= |run|
    ensures match LatestFor(cr, who, run, log, j)
      case None => log !in Memory(cr, who, run[..j])
      case Some(p) =>
        && p < j && run[p].cp.log == log && Cosigned(cr, who, run, p)
        && log in Memory(cr, who, run[..j]) && Memory(cr, who, run[..j])[log] == run[p].cp
    ensures forall i :: 0 <= i < j && run[i].cp.log == log && Cosigned(cr, who, run, i) ==>
              LatestFor(cr, who, run, log, j).Some? && i <= LatestFor(cr, who, run, log, j).value
  {
    if j > 0 {
      MemoryIsLatest(cr, who, run, log, j - 1);
      assert run[..j][..j - 1] == run[..j - 1];
    }
  }

  /** A countersigned request extends the checkpoint countersigned just before it for its log. */
  lemma CosignedExtendsLatest(cr: Crypto, who: Identity, run: seq<Request>, i: nat, j: nat)
    requires i < j < |run| && run[i].cp.log == run[j].cp.log
    requires Cosigned(cr, who, run, i) && Cosigned(cr, who, run, j)
    ensures var p := LatestFor(cr, who, run, run[j].cp.log, j);
      && p.Some? && i <= p.value < j && run[p.value].cp.log == run[j].cp.log && Cosigned(cr, who, run, p.value)
      && VerifyConsistencyAs(cr, run[p.value].cp, run[j].cp, run[j].proof, run[j].operator, run[j].wantLog)
  {
    MemoryIsLatest(cr, who, run, run[j].cp.log, j);
  }

  /** Sizes never go back: of two checkpoints countersigned for a log, the later is no smaller. */
  lemma {:induction false} CosignedSizesNeverShrink(cr: Crypto, who: Identity, run: seq<Request>, i: nat, j: nat)
    requires i <= j < |run| && run[i].cp.log == run[j].cp.log
    requires Cosigned(cr, who, run, i) && Cosigned(cr, who, run, j)
    ensures run[i].cp.size <= run[j].cp.size
    decreases j
  {
    if i < j {
      CosignedExtendsLatest(cr, who, run, i, j);
      CosignedSizesNeverShrink(cr, who, run, i, LatestFor(cr, who, run, run[j].cp.log, j).value);
    }
  }

  /** The newer checkpoint extends the older one on this proof, by sizes and recomputed heads alone. */
  predicate Extends(node: NodeHash, older: Checkpoint, newer: Checkpoint, proof: seq<Hash>) {
    && older.size <= newer.size
    && if older.size == 0 then proof == []
       else if older.size == newer.size then proof == [] && older.head == newer.head
       else newer.size <= TWO_63 && ConsRoots(node, older.size, newer.size, true, proof, older.head) == Some(Roots(older.head, newer.head, []))
  }

  /** Exactly when a request of a run is countersigned: the witness can sign and is not the operator, the
      operator signed this checkpoint of the log asked for, and, if the run already had a checkpoint of that
      log countersigned, the operator signed the latest one too and this one extends it. */
  lemma CosignedExactly(cr: Crypto, who: Identity, run: seq<Request>, i: nat)
    requires i < |run|
    ensures var r, p := run[i], LatestFor(cr, who, run, run[i].cp.log, i);
      Cosigned(cr, who, run, i) <==>
        && who.keyWellFormed && r.operator != who.pub
        && |r.operator| == KEY_SIZE && |r.cp.signature| == SIGNATURE_SIZE && r.cp.log == r.wantLog
        && cr.checkpointSigned(r.operator, r.cp)
        && (p.Some? && p.value < i ==>
              && |run[p.value].cp.signature| == SIGNATURE_SIZE && cr.checkpointSigned(r.operator, run[p.value].cp)
              && Extends(cr.node, run[p.value].cp, r.cp, r.proof))
  {
    hide ConsRoots, Memory, LatestFor, Cosigned, Extends, VerifyConsistencyAs, Spins;
    MemoryIsLatest(cr, who, run, run[i].cp.log, i);
    CosignedMeans(cr, who, run, i);
    var p := LatestFor(cr, who, run, run[i].cp.log, i);
    if p.Some? && VerifyAs(cr, run[i].cp, run[i].operator, run[i].wantLog) {
      ExtendsMeans(cr, run[p.value].cp, run[i].cp, run[i].proof, run[i].operator, run[i].wantLog);
    }
  }

  lemma ExtendsMeans(cr: Crypto, older: Checkpoint, newer: Checkpoint, proof: seq<Hash>, signer: Key, wantLog: Hash)
    requires VerifyAs(cr, newer, signer, wantLog) && older.log == newer.log
    ensures VerifyConsistencyAs(cr, older, newer, proof, signer, wantLog) && !Spins(cr, older, newer, proof, signer, wantLog) <==>
      |older.signature| == SIGNATURE_SIZE && cr.checkpointSigned(signer, older) && Extends(cr.node, older, newer, proof)
  {
    if 0 < older.size < newer.size { ConsRootsNeedsProof(cr.node, older.size, newer.size, true, older.head); }
    hide ConsRoots;
  }

  lemma CosignedMeans(cr: Crypto, who: Identity, run: seq<Request>, i: nat)
    requires i < |run|
    ensures Cosigned(cr, who, run, i) <==> Refuses(cr, who, Memory(cr, who, run[..i]), run[i]).None?
  {
  }

  /** The safety side alone: whatever a witness countersigns, its operator signed, for the log asked for. */
  lemma CosignedWasSigned(cr: Crypto, who: Identity, run: seq<Request>, i: nat)
    requires i < |run| && Cosigned(cr, who, run, i)
    ensures cr.checkpointSigned(run[i].operator, run[i].cp) && run[i].cp.log == run[i].wantLog && run[i].operator != who.pub
  {
    hide Cosigned;
    CosignedExactly(cr, who, run, i);
  }

  /** Walks back from a later countersigned checkpoint, opened by b, to an earlier one, opened by a,
      and returns the collision met on the way, if there is one. */
  function AuditRun(cr: Crypto, who: Identity, run: seq<Request>, i: nat, j: nat, a: seq<Hash>, b: seq<Hash>)
    : Option<Clash>
    requires i <= j < |run|
    decreases j
  {
    if i == j then
      if a == [] || |a| != |b| then None else AuditHeads(cr.node, a, b, 0, |a|)
    else
      match LatestFor(cr, who, run, run[j].cp.log, j)
      case None => None
      case Some(p) =>
        if p < i || p >= j || run[p].cp.size > |b| then None
        else
          var here := AuditExtension(cr, run[p].cp, run[j].proof, b);
          if here.Some? then here else AuditRun(cr, who, run, i, p, a, b[..run[p].cp.size])
  }

  /** Witness safety: whatever one long-lived witness is fed, any leaf sequences that open two
      checkpoints it countersigned for a log are prefix-related, or the transcript yields a genuine
      collision of the node hash. */
  lemma {:induction false} WitnessSafety(cr: Crypto, who: Identity, run: seq<Request>, i: nat, j: nat,
                                         a: seq<Hash>, b: seq<Hash>)
    requires i <= j < |run| && run[i].cp.log == run[j].cp.log
    requires Cosigned(cr, who, run, i) && Cosigned(cr, who, run, j)
    requires Opens(cr, run[i].cp, a) && Opens(cr, run[j].cp, b)
    ensures match AuditRun(cr, who, run, i, j, a, b)
      case None => a <= b
      case Some(c) => IsClash(cr.node, c)
    decreases j
  {
    if i == j {
      if a != [] { HeadsSound(cr.node, a, b, 0, |a|); }
    } else {
      CosignedExtendsLatest(cr, who, run, i, j);
      var p := LatestFor(cr, who, run, run[j].cp.log, j).value;
      var prev := run[p].cp;
      AcceptedExtensionSound(cr, prev, run[j].cp, run[j].proof, run[j].operator, run[j].wantLog, b);
      if AuditExtension(cr, prev, run[j].proof, b).None? {
        WitnessSafety(cr, who, run, i, p, a, b[..prev.size]);
      }
    }
  }

  /** An honest operator is served: after any run, a checkpoint of leaves extending those of the
      remembered checkpoint is countersigned on the honest proof, exactly unless the log has outgrown
      2^63 leaves and there is a proof to consume. */
  lemma HonestOperatorServed(cr: Crypto, who: Identity, run: seq<Request>, cp: Checkpoint, operator: Key,
                             wantLog: Hash, leaves: seq<Hash>)
    requires who.keyWellFormed && operator != who.pub
    requires VerifyAs(cr, cp, operator, wantLog) && Opens(cr, cp, leaves)
    requires wantLog in Memory(cr, who, run) ==>
      var prev := Memory(cr, who, run)[wantLog];
      && VerifyAs(cr, prev, operator, wantLog)
      && prev.size <= |leaves| && Opens(cr, prev, leaves[..prev.size])
    ensures var m := if wantLog in Memory(cr, who, run) then Memory(cr, who, run)[wantLog].size else 0;
      Cosigned(cr, who, run + [Request(cp, operator, wantLog, HonestProof(cr, m, leaves))], |run|) <==>
        m == 0 || m == |leaves| || |leaves| <= TWO_63
  {
    var m := if wantLog in Memory(cr, who, run) then Memory(cr, who, run)[wantLog].size else 0;
    assert (run + [Request(cp, operator, wantLog, HonestProof(cr, m, leaves))])[..|run|] == run;
    if wantLog in Memory(cr, who, run) {
      HonestExtensionAccepted(cr, Memory(cr, who, run)[wantLog], cp, leaves, operator, wantLog);
      if 0 < m < |leaves| { ProofNotEmpty(cr, m, leaves); }
    }
  }

  lemma ProofNotEmpty(cr: Crypto, m: nat, leaves: seq<Hash>)
    requires 0 < m < |leaves|
    ensures HonestProof(cr, m, leaves) != []
  {
  }

  // ------------------------------------------------------------------ witnessed bundles

  datatype WitnessedCheckpoint = WitnessedCheckpoint(cp: Checkpoint, cosigs: seq<Countersignature>)

  predicate CosigVerifies(cr: Crypto, cs: Countersignature, cp: Checkpoint) {
    |cs.cosigner| == KEY_SIZE && |cs.signature| == SIGNATURE_SIZE && cr.cosigned(cs.cosigner, cp, cs.signature)
  }

  /** The cosignature verifies and is not the operator's own. */
  predicate Counts(cr: Crypto, cp: Checkpoint, operator: Key, cs: Countersignature) {
    CosigVerifies(cr, cs, cp) && cs.cosigner != operator
  }

  /** The distinct keys other than the operator's that have a verifying cosignature among these. */
  function Independent(cr: Crypto, cp: Checkpoint, operator: Key, cosigs: seq<Countersignature>): set<Key> {
    set cs | cs in cosigs && Counts(cr, cp, operator, cs) :: cs.cosigner
  }

  /** Who the independent cosigners are: keys other than the operator's, of the pinned length, with a
      countersignature of the pinned length that verifies over this checkpoint. */
  lemma IndependentExactly(cr: Crypto, cp: Checkpoint, operator: Key, cosigs: seq<Countersignature>, k: Key)
    ensures k in Independent(cr, cp, operator, cosigs) <==>
      && k != operator && |k| == KEY_SIZE
      && exists sig :: Countersignature(k, sig) in cosigs && |sig| == SIGNATURE_SIZE && cr.cosigned(k, cp, sig)
  {
    if k in Independent(cr, cp, operator, cosigs) {
      var cs :| cs in cosigs && Counts(cr, cp, operator, cs) && cs.cosigner == k;
      assert Countersignature(k, cs.signature) in cosigs;
    }
    if sig :| Countersignature(k, sig) in cosigs && |sig| == SIGNATURE_SIZE && cr.cosigned(k, cp, sig) && k != operator && |k| == KEY_SIZE {
      assert Counts(cr, cp, operator, Countersignature(k, sig));
    }
  }

  lemma IndependentStep(cr: Crypto, cp: Checkpoint, operator: Key, cosigs: seq<Countersignature>, i: nat)
    requires i < |cosigs|
    ensures Independent(cr, cp, operator, cosigs[..i + 1])
         == Independent(cr, cp, operator, cosigs[..i])
          + (if Counts(cr, cp, operator, cosigs[i]) then {cosigs[i].cosigner} else {})
  {
    assert cosigs[..i + 1] == cosigs[..i] + [cosigs[i]];
  }

  /** Each further cosignature adds at most one independent witness. */
  lemma {:induction false} IndependentAtMost(cr: Crypto, cp: Checkpoint, operator: Key, cosigs: seq<Countersignature>, i: nat)
    requires i <= |cosigs|
    ensures |Independent(cr, cp, operator, cosigs)| <= |Independent(cr, cp, operator, cosigs[..i])| + |cosigs| - i
    decreases |cosigs| - i
  {
    hide Independent;
    if i == |cosigs| {
      assert cosigs[..i] == cosigs;
    } else {
      IndependentAtMost(cr, cp, operator, cosigs, i + 1);
      IndependentStep(cr, cp, operator, cosigs, i);
    }
  }

  /** Verify: every cosignature verifies, none is the operator's, and no witness appears twice: there
      are as many independent witnesses as cosignatures. */
  method VerifyBundle(cr: Crypto, w: WitnessedCheckpoint, operator: Key, logId: Hash) returns (ok: bool)
    ensures ok <==> VerifyAs(cr, w.cp, operator, logId) && |Independent(cr, w.cp, operator, w.cosigs)| == |w.cosigs|
  {
    hide Independent;
    if !VerifyAs(cr, w.cp, operator, logId) {
      return false;
    }
    var seen: set<Key> := {};
    assert seen == Independent(cr, w.cp, operator, w.cosigs[..0]) by { NoneIndependent(cr, w.cp, operator, w.cosigs[..0]); }
    for i := 0 to |w.cosigs|
      invariant seen == Independent(cr, w.cp, operator, w.cosigs[..i])
      invariant |seen| == i
    {
      var cs := w.cosigs[i];
      IndependentStep(cr, w.cp, operator, w.cosigs, i);
      if !CosigVerifies(cr, cs, w.cp) || cs.cosigner == operator || cs.cosigner in seen {
        assert |Independent(cr, w.cp, operator, w.cosigs[..i + 1])| == i by {
          assert Independent(cr, w.cp, operator, w.cosigs[..i + 1]) == seen;
        }
        IndependentAtMost(cr, w.cp, operator, w.cosigs, i + 1);
        return false;
      }
      seen := seen + {cs.cosigner};
    }
    assert w.cosigs[..|w.cosigs|] == w.cosigs;
    ok := true;
  }

  lemma NoneIndependent(cr: Crypto, cp: Checkpoint, operator: Key, cosigs: seq<Countersignature>)
    requires cosigs == []
    ensures Independent(cr, cp, operator, cosigs) == {}
  {
  }

  /** StandIn: fewer than two independent witnesses verified, whatever else pads the bundle. */
  method StandIn(cr: Crypto, w: WitnessedCheckpoint, operator: Key) returns (standIn: bool)
    ensures standIn <==> |Independent(cr, w.cp, operator, w.cosigs)| < 2
  {
    var distinct: set<Key> := {};
    for i := 0 to |w.cosigs|
      invariant distinct == Independent(cr, w.cp, operator, w.cosigs[..i])
    {
      var cs := w.cosigs[i];
      IndependentStep(cr, w.cp, operator, w.cosigs, i);
      if !CosigVerifies(cr, cs, w.cp) || cs.cosigner == operator {
        continue;
      }
      distinct := distinct + {cs.cosigner};
    }
    assert w.cosigs[..|w.cosigs|] == w.cosigs;
    standIn := |distinct| < 2;
  }
}
