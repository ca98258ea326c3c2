/** The dispute registry and its store: internal/dispute/registry.go, memstore.go, case.go, and the
    artifacts of opening.go, ruling.go and withdrawal.go. Calls are serialised, as the server makes
    them under one lock. */
module Dispute {
  import opened Common
  import Q = Quorum

  const MODE_ESCROW: nat := 1
  const MODE_CREDIT: nat := 2

  datatype Opening = Opening(
    platform: Bytes, complainant: Key, respondent: Key, exchange: Hash, reasonHash: Hash, nonce: Hash,
    openedAt: int, signature: Signature)

  datatype Escalation = Escalation(action: nat, units: nat)
  datatype Remedy = Remedy(escalation: Option<Escalation>, harm: nat, refund: Option<nat>)

  datatype Ruling = Ruling(
    platform: Bytes, dispute: Hash, exchange: Hash, mode: nat, finding: nat, remedy: Remedy,
    rationaleHash: Hash, ruledAt: int, sigs: seq<Signature>)

  datatype Withdrawal = Withdrawal(platform: Bytes, dispute: Hash, withdrawnAt: int, signature: Signature)

  datatype Charter = Charter(platform: Bytes, adjudicators: seq<Key>, threshold: int)

  /** ed25519 over canonical bytes, and the leaf hashes of the three artifacts. */
  datatype Crypto = Crypto(
    openingSigned: Opening -> bool,
    rulingSigned: (Key, Ruling, Signature) -> bool,
    withdrawalSigned: (Key, Withdrawal) -> bool,
    openingId: Opening -> Hash,
    rulingId: Ruling -> Hash,
    withdrawalId: Withdrawal -> Hash)

  datatype DisputeError = Invalid | Duplicate | Closed | Unauthorized | Adjudicated

  /** Opening.Verify */
  predicate OpeningVerifies(cr: Crypto, o: Opening) {
    && |o.complainant| == KEY_SIZE && |o.respondent| == KEY_SIZE
    && o.complainant != o.respondent
    && o.exchange != ZERO_HASH
    && |o.signature| == SIGNATURE_SIZE
    && cr.openingSigned(o)
  }

  /** Remedy.validate: the remedy has the one shape its mode allows. */
  predicate RemedyCoherent(r: Remedy, mode: nat) {
    if mode == MODE_ESCROW then
      r.escalation.Some? && 1 <= r.escalation.value.action <= 3 && r.harm == 0 && r.refund.None?
    else if mode == MODE_CREDIT then
      r.escalation.None? && 1 <= r.harm <= 2
    else false
  }

  datatype Artifact = Opened(opening: Opening) | Ruled(ruling: Ruling) | Withdrew(withdrawal: Withdrawal)

  datatype Admitted = Admitted(dispute: Hash, id: Hash, artifact: Artifact)

  /** The joined tuple key of opensCase. */
  function TupleKey(o: Opening): Bytes {
    o.exchange.bytes + [0] + o.complainant + [0] + o.respondent
  }

  /** With keys of the pinned length the joined key is injective on (exchange, complainant,
      respondent), although the separator may also occur inside the parts. */
  lemma TupleKeyInjective(a: Opening, b: Opening)
    requires |a.complainant| == |b.complainant| == KEY_SIZE && |a.respondent| == |b.respondent| == KEY_SIZE
    ensures TupleKey(a) == TupleKey(b) <==>
      a.exchange == b.exchange && a.complainant == b.complainant && a.respondent == b.respondent
  {
    var x, y := TupleKey(a), TupleKey(b);
    if x == y {
      assert x[..32] == a.exchange.bytes && y[..32] == b.exchange.bytes;
      assert x[33..65] == a.complainant && y[33..65] == b.complainant;
      assert x[66..98] == a.respondent && y[66..98] == b.respondent;
    }
  }

  // ------------------------------------------------------------------ the store

  datatype StoreState = StoreState(
    ids: set<Hash>,
    byDispute: map<Hash, seq<Admitted>>,
    openTuple: map<Bytes, Hash>,
    disputeTuple: map<Hash, Bytes>,
    adjudicated: set<Bytes>)

  const EMPTY := StoreState({}, map[], map[], map[], {})

  function Artifacts(st: StoreState, d: Hash): seq<Admitted> {
    if d in st.byDispute then st.byDispute[d] else []
  }

  /** The first rule of Append the artifact breaks, if any. */
  function AppendError(st: StoreState, a: Admitted): Option<DisputeError> {
    if a.dispute == ZERO_HASH then Some(Invalid)
    else if a.id in st.ids then Some(Duplicate)
    else if a.artifact.Opened? && TupleKey(a.artifact.opening) in st.adjudicated then Some(Adjudicated)
    else if a.artifact.Opened? && TupleKey(a.artifact.opening) in st.openTuple then Some(Duplicate)
    else None
  }

  /** The five maps after an artifact is appended. */
  function Appended(st: StoreState, a: Admitted): StoreState {
    var listed := st.(ids := st.ids + {a.id}, byDispute := st.byDispute[a.dispute := Artifacts(st, a.dispute) + [a]]);
    if a.artifact.Opened? then
      var key := TupleKey(a.artifact.opening);
      listed.(openTuple := st.openTuple[key := a.dispute], disputeTuple := st.disputeTuple[a.dispute := key])
    else if a.dispute in st.disputeTuple then
      var key := st.disputeTuple[a.dispute];
      listed.(openTuple := st.openTuple - {key},
              adjudicated := if a.artifact.Ruled? then st.adjudicated + {key} else st.adjudicated)
    else listed
  }

  function Append(st: StoreState, a: Admitted): Result<StoreState, DisputeError> {
    if AppendError(st, a).Some? then Err(AppendError(st, a).value) else Ok(Appended(st, a))
  }

  // ------------------------------------------------------------------ cases

  datatype CaseState = StateOpen | StateResolved | StateWithdrawn

  datatype Case = Case(
    id: Hash, exchange: Hash, complainant: Key, respondent: Key, state: CaseState, finding: nat, remedy: Remedy)

  const NO_REMEDY := Remedy(None, 0, None)

  /** The fold of Case over the artifacts of one case. Before the opening there is nothing. */
  function FoldCase(id: Hash, ads: seq<Admitted>): Result<Option<Case>, DisputeError> {
    if ads == [] then Ok(None)
    else
      var before := FoldCase(id, ads[..|ads| - 1]);
      if before.Err? then before
      else
        match ads[|ads| - 1].artifact
        case Opened(o) =>
          if |ads| != 1 then Err(Invalid)
          else Ok(Some(Case(id, o.exchange, o.complainant, o.respondent, StateOpen, 0, NO_REMEDY)))
        case Ruled(r) =>
          if before.value.None? then Err(Invalid)
          else Ok(Some(before.value.value.(state := StateResolved, finding := r.finding, remedy := r.remedy)))
        case Withdrew(_) =>
          if before.value.None? then Err(Invalid)
          else Ok(Some(before.value.value.(state := StateWithdrawn)))
  }

  /** Registry.Case */
  function CaseOf(st: StoreState, id: Hash): Result<Case, DisputeError> {
    var folded := FoldCase(id, Artifacts(st, id));
    if folded.Err? then Err(folded.error)
    else if folded.value.None? then Err(Invalid)
    else Ok(folded.value.value)
  }

  // ------------------------------------------------------------------ the registry

  /** Registry.Open; `sealed` is the anchor predicate's answer for this opening. */
  function Open(cr: Crypto, ch: Charter, st: StoreState, o: Opening, sealed: bool): Result<StoreState, DisputeError> {
    if !OpeningVerifies(cr, o) then Err(Invalid)
    else if o.platform != ch.platform then Err(Invalid)
    else if !sealed then Err(Invalid)
    else Append(st, Admitted(cr.openingId(o), cr.openingId(o), Opened(o)))
  }

  /** Which adjudicator signatures count for this ruling. */
  function RulingSigned(cr: Crypto, r: Ruling): Q.SignedBy {
    (k, s) => cr.rulingSigned(k, r, s)
  }

  predicate RulingVerifies(cr: Crypto, ch: Charter, r: Ruling) {
    Q.Reached(RulingSigned(cr, r), ch.adjudicators, ch.threshold, r.sigs)
  }

  /** Registry.Rule */
  function Rule(cr: Crypto, ch: Charter, st: StoreState, r: Ruling): Result<StoreState, DisputeError> {
    if r.platform != ch.platform then Err(Invalid)
    else if r.mode != MODE_ESCROW && r.mode != MODE_CREDIT then Err(Invalid)
    else if !(1 <= r.finding <= 4) then Err(Invalid)
    else if !RemedyCoherent(r.remedy, r.mode) then Err(Invalid)
    else if !RulingVerifies(cr, ch, r) then Err(Unauthorized)
    else if CaseOf(st, r.dispute).Err? then Err(CaseOf(st, r.dispute).error)
    else
      var c := CaseOf(st, r.dispute).value;
      if !c.state.StateOpen? then Err(Closed)
      else if r.exchange != c.exchange then Err(Invalid)
      else Append(st, Admitted(r.dispute, cr.rulingId(r), Ruled(r)))
  }

  /** Registry.Withdraw */
  function Withdraw(cr: Crypto, ch: Charter, st: StoreState, wd: Withdrawal): Result<StoreState, DisputeError> {
    if wd.platform != ch.platform then Err(Invalid)
    else if CaseOf(st, wd.dispute).Err? then Err(CaseOf(st, wd.dispute).error)
    else
      var c := CaseOf(st, wd.dispute).value;
      if !c.state.StateOpen? then Err(Closed)
      else if |c.complainant| != KEY_SIZE || |wd.signature| != SIGNATURE_SIZE
           || !cr.withdrawalSigned(c.complainant, wd) then Err(Unauthorized)
      else Append(st, Admitted(wd.dispute, cr.withdrawalId(wd), Withdrew(wd)))
  }

  // ------------------------------------------------------------------ what every run keeps

  /** A case's artifacts: its opening, and then at most one ruling or withdrawal. */
  ghost predicate CaseShape(d: Hash, l: seq<Admitted>) {
    && 1 <= |l| <= 2
    && l[0].artifact.Opened? && l[0].id == d
    && |l[0].artifact.opening.complainant| == KEY_SIZE && |l[0].artifact.opening.respondent| == KEY_SIZE
    && l[0].artifact.opening.exchange != ZERO_HASH
    && (|l| == 2 ==> !l[1].artifact.Opened?)
  }

  ghost predicate IsOpen(st: StoreState, d: Hash) {
    d in st.byDispute && |st.byDispute[d]| == 1
  }

  ghost predicate IsRuled(st: StoreState, d: Hash) {
    d in st.byDispute && |st.byDispute[d]| == 2 && st.byDispute[d][1].artifact.Ruled?
  }

  /** Every case has an opening and its tuple is recorded. */
  ghost predicate CasesKept(st: StoreState) {
    && (forall d :: d in st.byDispute ==> d != ZERO_HASH && d in st.ids && CaseShape(d, st.byDispute[d]))
    && (forall d :: d in st.disputeTuple <==> d in st.byDispute)
    && (forall d :: d in st.byDispute ==> st.disputeTuple[d] == TupleKey(st.byDispute[d][0].artifact.opening))
  }

  /** The live-tuple index is exactly the tuples of open cases. */
  ghost predicate LiveExact(st: StoreState)
    requires CasesKept(st)
  {
    && (forall k :: k in st.openTuple ==> IsOpen(st, st.openTuple[k]) && st.disputeTuple[st.openTuple[k]] == k)
    && (forall d :: IsOpen(st, d) ==> st.disputeTuple[d] in st.openTuple && st.openTuple[st.disputeTuple[d]] == d)
  }

  /** The settled tuples are exactly those of ruled cases, one ruling each, and none of them is live. */
  ghost predicate SettledExact(st: StoreState)
    requires CasesKept(st)
  {
    && (forall d :: IsRuled(st, d) ==> st.disputeTuple[d] in st.adjudicated)
    && (forall k :: k in st.adjudicated ==> exists d :: IsRuled(st, d) && st.disputeTuple[d] == k)
    && (forall d, e :: IsRuled(st, d) && IsRuled(st, e) && st.disputeTuple[d] == st.disputeTuple[e] ==> d == e)
    && (forall k :: k in st.adjudicated ==> k !in st.openTuple)
  }

  ghost predicate Inv(st: StoreState) {
    CasesKept(st) && LiveExact(st) && SettledExact(st)
  }

  /** What folding a well-shaped case gives. */
  lemma FoldOfShape(d: Hash, l: seq<Admitted>)
    requires CaseShape(d, l)
    ensures FoldCase(d, l).Ok? && FoldCase(d, l).value.Some?
    ensures var c, o := FoldCase(d, l).value.value, l[0].artifact.opening;
      && c.exchange == o.exchange && c.complainant == o.complainant && c.respondent == o.respondent
      && (c.state.StateOpen? <==> |l| == 1)
      && (c.state.StateResolved? <==> |l| == 2 && l[1].artifact.Ruled?)
      && c.id == d
      && (if |l| == 2 && l[1].artifact.Ruled? then c.finding == l[1].artifact.ruling.finding && c.remedy == l[1].artifact.ruling.remedy
          else c.finding == 0 && c.remedy == NO_REMEDY)
  {
    assert [l[0]][..0] == [];
    assert FoldCase(d, [l[0]]).Ok?;
    if |l| == 1 {
      assert l == [l[0]];
    } else {
      assert l[..1] == [l[0]];
    }
  }

  /** The state a case replays to is what its artifacts say: open with the opening alone, resolved
      with a ruling, withdrawn with a withdrawal. */
  lemma CaseStateExact(st: StoreState, d: Hash)
    requires CasesKept(st)
    ensures d in st.byDispute <==> CaseOf(st, d).Ok?
    ensures d in st.byDispute ==>
      var c, o := CaseOf(st, d).value, st.byDispute[d][0].artifact.opening;
      && c.exchange == o.exchange && c.complainant == o.complainant && c.respondent == o.respondent
      && (c.state.StateOpen? <==> IsOpen(st, d))
      && (c.state.StateResolved? <==> IsRuled(st, d))
      && c.id == d
      && (if IsRuled(st, d) then c.finding == st.byDispute[d][1].artifact.ruling.finding && c.remedy == st.byDispute[d][1].artifact.ruling.remedy
          else c.finding == 0 && c.remedy == NO_REMEDY)
  {
    hide FoldCase;
    if d in st.byDispute {
      FoldOfShape(d, st.byDispute[d]);
    } else {
      FoldOfNothing(d);
    }
  }

  lemma FoldOfNothing(d: Hash)
    ensures FoldCase(d, []) == Ok(None)
  {
  }

  /** How the maps differ after a case d of tuple `key` was opened. */
  ghost predicate OpenedCase(st: StoreState, next: StoreState, d: Hash, key: Bytes, a: Admitted) {
    && d !in st.byDispute && d != ZERO_HASH && key !in st.openTuple && key !in st.adjudicated
    && CaseShape(d, [a]) && key == TupleKey(a.artifact.opening)
    && next == StoreState(st.ids + {d}, st.byDispute[d := [a]], st.openTuple[key := d],
                          st.disputeTuple[d := key], st.adjudicated)
  }

  /** How the maps differ after the open case d of tuple `key` was closed by a. */
  ghost predicate ClosedCase(st: StoreState, next: StoreState, d: Hash, key: Bytes, a: Admitted) {
    && IsOpen(st, d) && d in st.disputeTuple && st.disputeTuple[d] == key && !a.artifact.Opened?
    && next == StoreState(st.ids + {a.id}, st.byDispute[d := st.byDispute[d] + [a]], st.openTuple - {key},
                          st.disputeTuple, if a.artifact.Ruled? then st.adjudicated + {key} else st.adjudicated)
  }

  /** One case before and after an opening. */
  lemma OpenedAt(st: StoreState, next: StoreState, d: Hash, key: Bytes, a: Admitted, e: Hash)
    requires CasesKept(st) && OpenedCase(st, next, d, key, a)
    ensures e in next.byDispute ==> e != ZERO_HASH && e in next.ids && CaseShape(e, next.byDispute[e])
    ensures e in next.disputeTuple <==> e in next.byDispute
    ensures e in next.byDispute ==> next.disputeTuple[e] == TupleKey(next.byDispute[e][0].artifact.opening)
    ensures IsOpen(next, e) <==> IsOpen(st, e) || e == d
    ensures IsRuled(next, e) <==> IsRuled(st, e)
  {
    hide TupleKey;
    if e != d {
      assert e in next.byDispute <==> e in st.byDispute;
    }
  }

  lemma OpenedKeepsCases(st: StoreState, next: StoreState, d: Hash, key: Bytes, a: Admitted)
    requires CasesKept(st) && OpenedCase(st, next, d, key, a)
    ensures CasesKept(next)
    ensures forall e :: IsOpen(next, e) <==> IsOpen(st, e) || e == d
    ensures forall e :: IsRuled(next, e) <==> IsRuled(st, e)
  {
    hide TupleKey, OpenedCase, IsOpen, IsRuled;
    forall e: Hash
      ensures e in next.byDispute ==> e != ZERO_HASH && e in next.ids && CaseShape(e, next.byDispute[e])
      ensures e in next.disputeTuple <==> e in next.byDispute
      ensures e in next.byDispute ==> next.disputeTuple[e] == TupleKey(next.byDispute[e][0].artifact.opening)
      ensures IsOpen(next, e) <==> IsOpen(st, e) || e == d
      ensures IsRuled(next, e) <==> IsRuled(st, e)
    {
      hide CasesKept;
      OpenedAt(st, next, d, key, a, e);
    }
  }

  lemma OpenedKeepsLive(st: StoreState, next: StoreState, d: Hash, key: Bytes, a: Admitted)
    requires CasesKept(st) && LiveExact(st) && OpenedCase(st, next, d, key, a) && CasesKept(next)
    ensures LiveExact(next)
  {
    hide TupleKey, CaseShape, CasesKept, IsOpen, IsRuled;
    OpenedKeepsCases(st, next, d, key, a);
    KeysOfCases(st);
    forall e | IsOpen(next, e)
      ensures next.disputeTuple[e] in next.openTuple && next.openTuple[next.disputeTuple[e]] == e
    {
      if e != d { assert IsOpen(st, e) && st.disputeTuple[e] != key; }
    }
    forall k | k in next.openTuple ensures IsOpen(next, next.openTuple[k]) && next.disputeTuple[next.openTuple[k]] == k {
      if k != key { assert next.openTuple[k] == st.openTuple[k] != d; }
    }
  }

  lemma OpenedKeepsSettled(st: StoreState, next: StoreState, d: Hash, key: Bytes, a: Admitted)
    requires CasesKept(st) && SettledExact(st) && OpenedCase(st, next, d, key, a) && CasesKept(next)
    ensures SettledExact(next)
  {
    hide TupleKey, CaseShape, CasesKept, IsOpen, IsRuled;
    OpenedKeepsCases(st, next, d, key, a);
    KeysOfCases(st);
    forall e | IsRuled(next, e)
      ensures IsRuled(st, e) && next.disputeTuple[e] == st.disputeTuple[e] && next.disputeTuple[e] in next.adjudicated
    {
      assert e in st.byDispute && e != d;
    }
    forall k | k in next.adjudicated ensures exists e :: IsRuled(next, e) && next.disputeTuple[e] == k {
      var e :| IsRuled(st, e) && st.disputeTuple[e] == k;
      assert IsRuled(next, e) && next.disputeTuple[e] == k;
    }
    forall e, f | IsRuled(next, e) && IsRuled(next, f) && next.disputeTuple[e] == next.disputeTuple[f] ensures e == f {
      assert IsRuled(st, e) && IsRuled(st, f) && st.disputeTuple[e] == st.disputeTuple[f];
    }
    forall k | k in next.adjudicated ensures k !in next.openTuple {
      assert k != key;
    }
  }

  lemma OpenedKeepsIndexes(st: StoreState, next: StoreState, d: Hash, key: Bytes, a: Admitted)
    requires Inv(st) && OpenedCase(st, next, d, key, a)
    ensures Inv(next)
  {
    hide TupleKey, CaseShape, CasesKept, LiveExact, SettledExact, OpenedCase;
    OpenedKeepsCases(st, next, d, key, a);
    OpenedKeepsLive(st, next, d, key, a);
    OpenedKeepsSettled(st, next, d, key, a);
  }

  /** Only cases are open or ruled, and every case has a tuple. */
  lemma KeysOfCases(st: StoreState)
    requires CasesKept(st)
    ensures forall e :: e in st.disputeTuple <==> e in st.byDispute
    ensures forall e :: IsOpen(st, e) ==> e in st.disputeTuple && !IsRuled(st, e)
    ensures forall e :: IsRuled(st, e) ==> e in st.disputeTuple
  {
  }

  /** One case before and after a closing. */
  lemma ClosedAt(st: StoreState, next: StoreState, d: Hash, key: Bytes, a: Admitted, e: Hash)
    requires CasesKept(st) && ClosedCase(st, next, d, key, a)
    ensures e in next.byDispute ==> e != ZERO_HASH && e in next.ids && CaseShape(e, next.byDispute[e])
    ensures e in next.disputeTuple <==> e in next.byDispute
    ensures e in next.byDispute ==> next.disputeTuple[e] == TupleKey(next.byDispute[e][0].artifact.opening)
    ensures IsOpen(next, e) <==> IsOpen(st, e) && e != d
    ensures IsRuled(next, e) <==> IsRuled(st, e) || (e == d && a.artifact.Ruled?)
  {
    hide TupleKey;
    if e == d {
      assert next.byDispute[d] == st.byDispute[d] + [a] && CaseShape(d, st.byDispute[d]);
    } else {
      assert e in next.byDispute <==> e in st.byDispute;
    }
  }

  lemma ClosedKeepsCases(st: StoreState, next: StoreState, d: Hash, key: Bytes, a: Admitted)
    requires CasesKept(st) && ClosedCase(st, next, d, key, a)
    ensures CasesKept(next)
    ensures forall e :: IsOpen(next, e) <==> IsOpen(st, e) && e != d
    ensures forall e :: IsRuled(next, e) <==> IsRuled(st, e) || (e == d && a.artifact.Ruled?)
  {
    hide TupleKey, ClosedCase, IsOpen, IsRuled;
    forall e: Hash
      ensures e in next.byDispute ==> e != ZERO_HASH && e in next.ids && CaseShape(e, next.byDispute[e])
      ensures e in next.disputeTuple <==> e in next.byDispute
      ensures e in next.byDispute ==> next.disputeTuple[e] == TupleKey(next.byDispute[e][0].artifact.opening)
      ensures IsOpen(next, e) <==> IsOpen(st, e) && e != d
      ensures IsRuled(next, e) <==> IsRuled(st, e) || (e == d && a.artifact.Ruled?)
    {
      hide CasesKept;
      ClosedAt(st, next, d, key, a, e);
    }
  }

  lemma ClosedKeepsIndexes(st: StoreState, next: StoreState, d: Hash, key: Bytes, a: Admitted)
    requires Inv(st) && ClosedCase(st, next, d, key, a)
    ensures Inv(next)
  {
    hide TupleKey, CaseShape, CasesKept, IsOpen, IsRuled;
    ClosedKeepsCases(st, next, d, key, a);
    KeysOfCases(st);
    assert key in st.openTuple && key !in st.adjudicated;
    assert LiveExact(next);
    assert SettledExact(next) by {
      forall k | k in next.adjudicated ensures exists e :: IsRuled(next, e) && next.disputeTuple[e] == k {
        if k in st.adjudicated {
          var e :| IsRuled(st, e) && st.disputeTuple[e] == k;
          assert IsRuled(next, e) && next.disputeTuple[e] == k;
        } else {
          assert IsRuled(next, d) && next.disputeTuple[d] == k;
        }
      }
    }
  }

  /** An admitted opening opens a new case. */
  lemma OpenOpensCase(cr: Crypto, ch: Charter, st: StoreState, o: Opening, sealed: bool)
    requires Inv(st) && Open(cr, ch, st, o, sealed).Ok?
    ensures var d := cr.openingId(o);
      OpenedCase(st, Open(cr, ch, st, o, sealed).value, d, TupleKey(o), Admitted(d, d, Opened(o)))
  {
    hide TupleKey, LiveExact, SettledExact;
    var d := cr.openingId(o);
    assert d !in st.byDispute;
    assert [] + [Admitted(d, d, Opened(o))] == [Admitted(d, d, Opened(o))];
  }

  lemma OpenKeepsInv(cr: Crypto, ch: Charter, st: StoreState, o: Opening, sealed: bool)
    requires Inv(st) && Open(cr, ch, st, o, sealed).Ok?
    ensures Inv(Open(cr, ch, st, o, sealed).value)
  {
    hide Inv, OpenedCase, Open;
    var d := cr.openingId(o);
    OpenOpensCase(cr, ch, st, o, sealed);
    OpenedKeepsIndexes(st, Open(cr, ch, st, o, sealed).value, d, TupleKey(o), Admitted(d, d, Opened(o)));
  }

  /** Closing an open case with a ruling or a withdrawal keeps the invariant. */
  lemma CloseKeepsInv(st: StoreState, a: Admitted)
    requires Inv(st) && IsOpen(st, a.dispute) && !a.artifact.Opened?
    ensures a.dispute in st.disputeTuple
    ensures ClosedCase(st, Appended(st, a), a.dispute, st.disputeTuple[a.dispute], a)
    ensures Inv(Appended(st, a))
  {
    hide TupleKey, LiveExact, SettledExact;
    ClosedKeepsIndexes(st, Appended(st, a), a.dispute, st.disputeTuple[a.dispute], a);
  }

  // ------------------------------------------------------------------ runs

  datatype Op = OpenOp(o: Opening, sealed: bool) | RuleOp(r: Ruling) | WithdrawOp(wd: Withdrawal)

  function Do(cr: Crypto, ch: Charter, st: StoreState, op: Op): Result<StoreState, DisputeError> {
    match op
    case OpenOp(o, sealed) => Open(cr, ch, st, o, sealed)
    case RuleOp(r) => Rule(cr, ch, st, r)
    case WithdrawOp(wd) => Withdraw(cr, ch, st, wd)
  }

  lemma RuleKeepsInv(cr: Crypto, ch: Charter, st: StoreState, r: Ruling)
    requires Inv(st) && Rule(cr, ch, st, r).Ok?
    ensures Inv(Rule(cr, ch, st, r).value)
  {
    hide FoldCase, CasesKept, LiveExact, SettledExact, RulingVerifies, RemedyCoherent, AppendError, Appended;
    CaseStateExact(st, r.dispute);
    CloseKeepsInv(st, Admitted(r.dispute, cr.rulingId(r), Ruled(r)));
  }

  lemma WithdrawKeepsInv(cr: Crypto, ch: Charter, st: StoreState, wd: Withdrawal)
    requires Inv(st) && Withdraw(cr, ch, st, wd).Ok?
    ensures Inv(Withdraw(cr, ch, st, wd).value)
    ensures IsOpen(st, wd.dispute) && wd.dispute in st.disputeTuple
    ensures ClosedCase(st, Withdraw(cr, ch, st, wd).value, wd.dispute, st.disputeTuple[wd.dispute],
                       Admitted(wd.dispute, cr.withdrawalId(wd), Withdrew(wd)))
  {
    hide FoldCase, CasesKept, LiveExact, SettledExact, AppendError, Appended;
    CaseStateExact(st, wd.dispute);
    CloseKeepsInv(st, Admitted(wd.dispute, cr.withdrawalId(wd), Withdrew(wd)));
  }

  lemma DoKeepsInv(cr: Crypto, ch: Charter, st: StoreState, op: Op)
    requires Inv(st) && Do(cr, ch, st, op).Ok?
    ensures Inv(Do(cr, ch, st, op).value)
  {
    hide Inv, Open, Rule, Withdraw;
    match op
    case OpenOp(o, sealed) => OpenKeepsInv(cr, ch, st, o, sealed);
    case RuleOp(r) => RuleKeepsInv(cr, ch, st, r);
    case WithdrawOp(wd) => WithdrawKeepsInv(cr, ch, st, wd);
  }

  /** The store after a run of serialised calls, from empty; refused calls change nothing. */
  function Run(cr: Crypto, ch: Charter, ops: seq<Op>): StoreState {
    if ops == [] then EMPTY
    else
      var st := Run(cr, ch, ops[..|ops| - 1]);
      match Do(cr, ch, st, ops[|ops| - 1])
      case Ok(next) => next
      case Err(_) => st
  }

  /** Over every run: the live-tuple index holds exactly the tuples whose replayed case is open, and
      the settled tuples are exactly those with a ruling. */
  lemma {:induction false} EveryRunKeepsInv(cr: Crypto, ch: Charter, ops: seq<Op>)
    ensures Inv(Run(cr, ch, ops))
  {
    hide Inv, Do;
    if ops == [] {
      EmptyInv();
    } else {
      var front := ops[..|ops| - 1];
      EveryRunKeepsInv(cr, ch, front);
      if Do(cr, ch, Run(cr, ch, front), ops[|ops| - 1]).Ok? {
        DoKeepsInv(cr, ch, Run(cr, ch, front), ops[|ops| - 1]);
      }
    }
  }

  lemma EmptyInv()
    ensures Inv(EMPTY)
  {
  }

  /** Same exchange, same complainant, same respondent. */
  predicate SameTuple(a: Case, b: Case) {
    a.exchange == b.exchange && a.complainant == b.complainant && a.respondent == b.respondent
  }

  /** At most one ruling ever per (exchange, complainant, respondent): two resolved cases of one
      tuple are the same case. And no tuple has an open case beside another open or resolved one. */
  lemma OneRulingPerTuple(cr: Crypto, ch: Charter, ops: seq<Op>, d: Hash, e: Hash)
    ensures var st := Run(cr, ch, ops);
      CaseOf(st, d).Ok? && CaseOf(st, e).Ok? && SameTuple(CaseOf(st, d).value, CaseOf(st, e).value)
      && !CaseOf(st, d).value.state.StateWithdrawn? && !CaseOf(st, e).value.state.StateWithdrawn?
      ==> d == e
  {
    hide FoldCase, TupleKey;
    var st := Run(cr, ch, ops);
    EveryRunKeepsInv(cr, ch, ops);
    CaseStateExact(st, d);
    CaseStateExact(st, e);
    if d in st.byDispute && e in st.byDispute && SameTuple(CaseOf(st, d).value, CaseOf(st, e).value) {
      assert CaseShape(d, st.byDispute[d]) && CaseShape(e, st.byDispute[e]);
      TupleKeyInjective(st.byDispute[d][0].artifact.opening, st.byDispute[e][0].artifact.opening);
    }
  }

  /** Exactly when an opening is admitted, after any run: its two parties are distinct, the complainant signed
      it, it names an exchange, is for this platform and anchored, its ID is fresh and not zero, and no case of its tuple is open or resolved. So a ruled
      tuple is never reopened, and a tuple whose cases were all withdrawn can be. */
  lemma OpenAdmittedExactly(cr: Crypto, ch: Charter, ops: seq<Op>, o: Opening, sealed: bool)
    ensures var st := Run(cr, ch, ops);
      Open(cr, ch, st, o, sealed).Ok? <==>
        && |o.complainant| == KEY_SIZE && |o.respondent| == KEY_SIZE && o.complainant != o.respondent
        && o.exchange != ZERO_HASH && |o.signature| == SIGNATURE_SIZE && cr.openingSigned(o)
        && o.platform == ch.platform && sealed
        && cr.openingId(o) != ZERO_HASH && cr.openingId(o) !in st.ids
        && forall d :: CaseOf(st, d).Ok? && CaseOf(st, d).value.exchange == o.exchange
             && CaseOf(st, d).value.complainant == o.complainant && CaseOf(st, d).value.respondent == o.respondent
             ==> CaseOf(st, d).value.state.StateWithdrawn?
  {
    hide FoldCase, CaseOf, TupleKey;
    var st := Run(cr, ch, ops);
    EveryRunKeepsInv(cr, ch, ops);
    if OpeningVerifies(cr, o) {
      var key := TupleKey(o);
      forall d | CaseOf(st, d).Ok?
        ensures d in st.disputeTuple
        ensures st.disputeTuple[d] == key <==>
          && CaseOf(st, d).value.exchange == o.exchange
          && CaseOf(st, d).value.complainant == o.complainant && CaseOf(st, d).value.respondent == o.respondent
      {
        CaseStateExact(st, d);
        assert CaseShape(d, st.byDispute[d]);
        TupleKeyInjective(st.byDispute[d][0].artifact.opening, o);
      }
      if key in st.openTuple { CaseStateExact(st, st.openTuple[key]); }
      if key in st.adjudicated {
        var d :| IsRuled(st, d) && st.disputeTuple[d] == key;
        CaseStateExact(st, d);
      }
      forall d | CaseOf(st, d).Ok? && d in st.disputeTuple && st.disputeTuple[d] == key && !CaseOf(st, d).value.state.StateWithdrawn?
        ensures key in st.openTuple || key in st.adjudicated
      {
        CaseStateExact(st, d);
      }
    }
  }

  /** The one artifact of an open case is its opening. */
  ghost predicate OpenedBy(st: StoreState, d: Hash, o: Opening) {
    d in st.byDispute && |st.byDispute[d]| == 1 && st.byDispute[d][0].artifact == Opened(o)
  }

  lemma OpenCaseIs(cr: Crypto, ch: Charter, ops: seq<Op>, d: Hash)
    ensures var st := Run(cr, ch, ops);
      && (CaseOf(st, d).Ok? && CaseOf(st, d).value.state.StateOpen? <==> exists o :: OpenedBy(st, d, o))
      && forall o :: OpenedBy(st, d, o) ==>
           d != ZERO_HASH && |o.complainant| == KEY_SIZE && CaseOf(st, d).value.complainant == o.complainant && CaseOf(st, d).value.exchange == o.exchange
  {
    hide FoldCase, CaseOf, TupleKey, LiveExact, SettledExact, Run;
    var st := Run(cr, ch, ops);
    EveryRunKeepsInv(cr, ch, ops);
    CaseStateExact(st, d);
    if IsOpen(st, d) {
      assert CaseShape(d, st.byDispute[d]);
      assert OpenedBy(st, d, st.byDispute[d][0].artifact.opening);
    }
  }

  lemma OpenedOf(st: StoreState, d: Hash)
    requires Inv(st) && CaseOf(st, d).Ok? && CaseOf(st, d).value.state.StateOpen?
    ensures exists o :: OpenedBy(st, d, o) && CaseOf(st, d).value.complainant == o.complainant && CaseOf(st, d).value.exchange == o.exchange
  {
    hide FoldCase, CaseOf, TupleKey, LiveExact, SettledExact;
    CaseStateExact(st, d);
    assert CaseShape(d, st.byDispute[d]);
    assert OpenedBy(st, d, st.byDispute[d][0].artifact.opening);
  }

  /** Exactly when a withdrawal is admitted, after any run: it is for this platform, its case is open, the
      complainant who opened the case signed it, and its ID is fresh. */
  lemma WithdrawAdmittedExactly(cr: Crypto, ch: Charter, ops: seq<Op>, wd: Withdrawal)
    ensures var st := Run(cr, ch, ops);
      Withdraw(cr, ch, st, wd).Ok? <==>
        && wd.platform == ch.platform && |wd.signature| == SIGNATURE_SIZE && cr.withdrawalId(wd) !in st.ids
        && exists o :: OpenedBy(st, wd.dispute, o) && cr.withdrawalSigned(o.complainant, wd)
  {
    hide FoldCase, CaseOf, TupleKey, Run;
    OpenCaseIs(cr, ch, ops, wd.dispute);
  }

  /** Exactly when a ruling is admitted, after any run: it is for this platform, has a known mode and finding and
      the remedy its mode calls for, a quorum of adjudicator signatures, an open case on the same exchange, and a
      fresh ID. */
  lemma RuleAdmittedExactly(cr: Crypto, ch: Charter, ops: seq<Op>, r: Ruling)
    ensures forall k, s :: RulingSigned(cr, r)(k, s) == cr.rulingSigned(k, r, s)
    ensures var st := Run(cr, ch, ops);
      Rule(cr, ch, st, r).Ok? <==>
        && r.platform == ch.platform && 1 <= r.finding <= 4 && cr.rulingId(r) !in st.ids
        && (|| (r.mode == 1 && r.remedy.escalation.Some? && 1 <= r.remedy.escalation.value.action <= 3 && r.remedy.harm == 0 && r.remedy.refund.None?)
            || (r.mode == 2 && r.remedy.escalation.None? && 1 <= r.remedy.harm <= 2))
        && ch.threshold >= 1 && |Q.Tally(RulingSigned(cr, r), ch.adjudicators, r.sigs)| >= ch.threshold
        && exists o :: OpenedBy(st, r.dispute, o) && o.exchange == r.exchange
  {
    hide FoldCase, CaseOf, TupleKey, Run, Q.Tally;
    OpenCaseIs(cr, ch, ops, r.dispute);
  }

  /** An adjudicator of the charter, under a key of the pinned length, signed the ruling. */
  ghost predicate AdjudicatorBacks(cr: Crypto, ch: Charter, r: Ruling, k: Key) {
    k in ch.adjudicators && |k| == KEY_SIZE && exists s :: s in r.sigs && |s| == SIGNATURE_SIZE && cr.rulingSigned(k, r, s)
  }

  /** What stands behind each artifact of a case: the complainant's signature behind the opening and a withdrawal,
      a quorum of adjudicators behind a ruling; and each artifact is about this case, under its own ID. */
  ghost predicate Authorised(cr: Crypto, ch: Charter, d: Hash, l: seq<Admitted>) {
    && |l| >= 1 && l[0].artifact.Opened?
    && var o := l[0].artifact.opening;
    && cr.openingSigned(o) && o.platform == ch.platform && cr.openingId(o) == l[0].id == d
    && (|l| >= 2 && l[1].artifact.Withdrew? ==>
          var wd := l[1].artifact.withdrawal;
          cr.withdrawalSigned(o.complainant, wd) && wd.dispute == d && wd.platform == ch.platform && l[1].id == cr.withdrawalId(wd))
    && (|l| >= 2 && l[1].artifact.Ruled? ==>
          var r := l[1].artifact.ruling;
          && r.dispute == d && r.exchange == o.exchange && r.platform == ch.platform && l[1].id == cr.rulingId(r)
          && exists keys: set<Key> :: |keys| >= ch.threshold >= 1 && forall k :: k in keys ==> AdjudicatorBacks(cr, ch, r, k))
  }

  lemma QuorumBacks(cr: Crypto, ch: Charter, r: Ruling)
    requires Q.Reached(RulingSigned(cr, r), ch.adjudicators, ch.threshold, r.sigs)
    ensures exists keys: set<Key> :: |keys| >= ch.threshold >= 1 && forall k :: k in keys ==> AdjudicatorBacks(cr, ch, r, k)
  {
    Q.ReachedMeans(RulingSigned(cr, r), ch.adjudicators, ch.threshold, r.sigs);
    var keys: set<Key> :| |keys| >= ch.threshold && Q.AllSigned(RulingSigned(cr, r), ch.adjudicators, r.sigs, keys);
    forall k | k in keys ensures AdjudicatorBacks(cr, ch, r, k) {
      var s :| s in r.sigs && |s| == SIGNATURE_SIZE && RulingSigned(cr, r)(k, s);
      assert cr.rulingSigned(k, r, s);
    }
  }

  lemma DoKeepsAuthorised(cr: Crypto, ch: Charter, ops: seq<Op>, op: Op, d: Hash)
    requires var st := Run(cr, ch, ops);
      Do(cr, ch, st, op).Ok? && (d in st.byDispute ==> Authorised(cr, ch, d, st.byDispute[d]))
    ensures var next := Do(cr, ch, Run(cr, ch, ops), op).value;
      d in next.byDispute ==> Authorised(cr, ch, d, next.byDispute[d])
  {
    hide FoldCase, CaseOf, TupleKey, Run, Authorised, AppendError, RemedyCoherent, RulingVerifies, Q.Tally;
    var st := Run(cr, ch, ops);
    match op
    case OpenOp(o, sealed) =>
      EveryRunKeepsInv(cr, ch, ops);
      OpenOpensCase(cr, ch, st, o, sealed);
      NewCaseAuthorised(cr, ch, o);
    case RuleOp(r) =>
      OpenCaseIs(cr, ch, ops, r.dispute);
      RuleAdmittedExactly(cr, ch, ops, r);
      if d == r.dispute { RulingAuthorised(cr, ch, st.byDispute[d], r); }
    case WithdrawOp(wd) =>
      OpenCaseIs(cr, ch, ops, wd.dispute);
      WithdrawAdmittedExactly(cr, ch, ops, wd);
      if d == wd.dispute { WithdrawalAuthorised(cr, ch, st.byDispute[d], wd); }
  }

  lemma NewCaseAuthorised(cr: Crypto, ch: Charter, o: Opening)
    requires cr.openingSigned(o) && o.platform == ch.platform
    ensures Authorised(cr, ch, cr.openingId(o), [Admitted(cr.openingId(o), cr.openingId(o), Opened(o))])
  {
  }

  lemma RulingAuthorised(cr: Crypto, ch: Charter, l: seq<Admitted>, r: Ruling)
    requires |l| == 1 && Authorised(cr, ch, r.dispute, l) && r.exchange == l[0].artifact.opening.exchange
    requires r.platform == ch.platform && Q.Reached(RulingSigned(cr, r), ch.adjudicators, ch.threshold, r.sigs)
    ensures Authorised(cr, ch, r.dispute, l + [Admitted(r.dispute, cr.rulingId(r), Ruled(r))])
  {
    QuorumBacks(cr, ch, r);
  }

  lemma WithdrawalAuthorised(cr: Crypto, ch: Charter, l: seq<Admitted>, wd: Withdrawal)
    requires |l| == 1 && Authorised(cr, ch, wd.dispute, l) && wd.platform == ch.platform
    requires cr.withdrawalSigned(l[0].artifact.opening.complainant, wd)
    ensures Authorised(cr, ch, wd.dispute, l + [Admitted(wd.dispute, cr.withdrawalId(wd), Withdrew(wd))])
  {
  }

  /** Over every run, every case is authorised: only its complainant opened it, only its complainant withdrew it,
      and only a quorum of adjudicators ruled on it. */
  lemma {:induction false} EveryCaseAuthorised(cr: Crypto, ch: Charter, ops: seq<Op>, d: Hash)
    requires d in Run(cr, ch, ops).byDispute
    ensures Authorised(cr, ch, d, Run(cr, ch, ops).byDispute[d])
  {
    hide Do, Authorised;
    if ops != [] {
      var front, op := ops[..|ops| - 1], ops[|ops| - 1];
      if d in Run(cr, ch, front).byDispute { EveryCaseAuthorised(cr, ch, front, d); }
      if Do(cr, ch, Run(cr, ch, front), op).Ok? { DoKeepsAuthorised(cr, ch, front, op, d); }
    }
  }

  /** Some case has an artifact with this ID. */
  ghost predicate Filed(st: StoreState, id: Hash) {
    exists d, i :: d in st.byDispute && 0 <= i < |st.byDispute[d]| && st.byDispute[d][i].id == id
  }

  lemma AppendedFiles(st: StoreState, a: Admitted, id: Hash)
    ensures Filed(Appended(st, a), id) <==> Filed(st, id) || id == a.id
    ensures id in Appended(st, a).ids <==> id in st.ids || id == a.id
  {
    hide TupleKey;
    var next := Appended(st, a);
    var l := Artifacts(st, a.dispute);
    assert next.byDispute[a.dispute] == l + [a];
    if d, i :| d in st.byDispute && 0 <= i < |st.byDispute[d]| && st.byDispute[d][i].id == id {
      assert next.byDispute[d][i].id == id;
    }
    if id == a.id { assert next.byDispute[a.dispute][|l|].id == id; }
    if d, i :| d in next.byDispute && 0 <= i < |next.byDispute[d]| && next.byDispute[d][i].id == id {
      if d != a.dispute || i < |l| { assert d in st.byDispute && st.byDispute[d][i].id == id; }
    }
  }

  /** The IDs taken are exactly those of the artifacts in the cases, over every run. */
  lemma {:induction false} IdsExactly(cr: Crypto, ch: Charter, ops: seq<Op>, id: Hash)
    ensures id in Run(cr, ch, ops).ids <==> Filed(Run(cr, ch, ops), id)
  {
    if ops != [] {
      hide Filed, Appended, CaseOf, OpeningVerifies, RulingVerifies, RemedyCoherent, AppendError;
      var front, op := ops[..|ops| - 1], ops[|ops| - 1];
      IdsExactly(cr, ch, front, id);
      var st := Run(cr, ch, front);
      if Do(cr, ch, st, op).Ok? {
        match op
        case OpenOp(o, sealed) => AppendedFiles(st, Admitted(cr.openingId(o), cr.openingId(o), Opened(o)), id);
        case RuleOp(r) => AppendedFiles(st, Admitted(r.dispute, cr.rulingId(r), Ruled(r)), id);
        case WithdrawOp(wd) => AppendedFiles(st, Admitted(wd.dispute, cr.withdrawalId(wd), Withdrew(wd)), id);
      }
    }
  }

  lemma DoKeepsSettled(cr: Crypto, ch: Charter, st: StoreState, op: Op)
    ensures Do(cr, ch, st, op).Ok? ==> st.adjudicated <= Do(cr, ch, st, op).value.adjudicated
  {
    hide CaseOf, RulingVerifies, AppendError, TupleKey;
  }

  /** Settled for good: once a tuple has a ruling, no continuation of the run admits an opening for
      it. */
  lemma {:induction false} RuledStaysRuled(cr: Crypto, ch: Charter, ops: seq<Op>, more: seq<Op>)
    ensures Run(cr, ch, ops).adjudicated <= Run(cr, ch, ops + more).adjudicated
    decreases |more|
  {
    hide Do;
    if more == [] {
      assert ops + more == ops;
    } else {
      var front := more[..|more| - 1];
      RuledStaysRuled(cr, ch, ops, front);
      assert (ops + more)[..|ops + more| - 1] == ops + front;
      DoKeepsSettled(cr, ch, Run(cr, ch, ops + front), more[|more| - 1]);
    }
  }

  // ------------------------------------------------------------------ the objects

  class MemStore {
    var ids: set<Hash>
    var byDispute: map<Hash, seq<Admitted>>
    var openTuple: map<Bytes, Hash>
    var disputeTuple: map<Hash, Bytes>
    var adjudicated: set<Bytes>

    function State(): StoreState reads this {
      StoreState(ids, byDispute, openTuple, disputeTuple, adjudicated)
    }

    constructor ()
      ensures State() == EMPTY
    {
      ids, byDispute, openTuple, disputeTuple, adjudicated := {}, map[], map[], map[], {};
    }

    /** All five maps move together, or none does. */
    method Append(a: Admitted) returns (r: Option<DisputeError>)
      modifies this
      ensures r == AppendError(old(State()), a)
      ensures State() == if r.None? then Appended(old(State()), a) else old(State())
    {
      if a.dispute == ZERO_HASH {
        return Some(Invalid);
      }
      if a.id in ids {
        return Some(Duplicate);
      }
      if a.artifact.Opened? {
        var key := TupleKey(a.artifact.opening);
        if key in adjudicated {
          return Some(Adjudicated);
        }
        if key in openTuple {
          return Some(Duplicate);
        }
        openTuple := openTuple[key := a.dispute];
        disputeTuple := disputeTuple[a.dispute := key];
      } else if a.dispute in disputeTuple {
        var key := disputeTuple[a.dispute];
        openTuple := openTuple - {key};
        if a.artifact.Ruled? {
          adjudicated := adjudicated + {key};
        }
      }
      ids := ids + {a.id};
      byDispute := byDispute[a.dispute := (if a.dispute in byDispute then byDispute[a.dispute] else []) + [a]];
      return None;
    }
  }

  class Registry {
    const cr: Crypto
    const ch: Charter
    const store: MemStore

    /** The store keeps its indexes exact. */
    ghost predicate Valid() reads this, store {
      Inv(store.State())
    }

    constructor (cr: Crypto, ch: Charter)
      ensures Valid() && fresh(store) && store.State() == EMPTY
      ensures this.cr == cr && this.ch == ch
    {
      this.cr, this.ch := cr, ch;
      store := new MemStore();
      new;
      EmptyInv();
    }

    /** Case replays the artifacts of one case; no state is stored. */
    method GetCase(id: Hash) returns (r: Result<Case, DisputeError>)
      ensures r == CaseOf(store.State(), id)
    {
      var ads := if id in store.byDispute then store.byDispute[id] else [];
      if |ads| == 0 {
        return Err(Invalid);
      }
      var c: Option<Case> := None;
      for i := 0 to |ads|
        invariant FoldCase(id, ads[..i]) == Ok(c)
      {
        var ad := ads[i];
        assert ads[..i + 1][..i] == ads[..i];
        match ad.artifact {
          case Opened(o) =>
            if i != 0 {
              FoldStops(id, ads, i + 1);
              return Err(Invalid);
            }
            c := Some(Case(id, o.exchange, o.complainant, o.respondent, StateOpen, 0, NO_REMEDY));
          case Ruled(ru) =>
            if c.None? {
              FoldStops(id, ads, i + 1);
              return Err(Invalid);
            }
            c := Some(c.value.(state := StateResolved, finding := ru.finding, remedy := ru.remedy));
          case Withdrew(_) =>
            if c.None? {
              FoldStops(id, ads, i + 1);
              return Err(Invalid);
            }
            c := Some(c.value.(state := StateWithdrawn));
        }
      }
      assert ads[..|ads|] == ads;
      return if c.None? then Err(Invalid) else Ok(c.value);
    }

    method OpenCase(o: Opening, sealed: bool) returns (r: Result<Hash, DisputeError>)
      requires Valid()
      modifies store
      ensures Valid()
      ensures r.Ok? ==> r.value == cr.openingId(o) && Open(cr, ch, old(store.State()), o, sealed) == Ok(store.State())
      ensures r.Err? ==> Open(cr, ch, old(store.State()), o, sealed) == Err(r.error) && store.State() == old(store.State())
    {
      hide Inv;
      if !OpeningVerifies(cr, o) || o.platform != ch.platform || !sealed {
        return Err(Invalid);
      }
      var id := cr.openingId(o);
      var refused := store.Append(Admitted(id, id, Opened(o)));
      if refused.Some? {
        return Err(refused.value);
      }
      OpenKeepsInv(cr, ch, old(store.State()), o, sealed);
      return Ok(id);
    }

    method RuleCase(ru: Ruling) returns (r: Option<DisputeError>)
      requires Valid()
      modifies store
      ensures Valid()
      ensures r.None? ==> Rule(cr, ch, old(store.State()), ru) == Ok(store.State())
      ensures r.None? ==> exists o :: OpenedBy(old(store.State()), ru.dispute, o) && o.exchange == ru.exchange
      ensures r.None? ==> |Q.Tally(RulingSigned(cr, ru), ch.adjudicators, ru.sigs)| >= ch.threshold >= 1
      ensures r.Some? ==> Rule(cr, ch, old(store.State()), ru) == Err(r.value) && store.State() == old(store.State())
    {
      hide Inv;
      if ru.platform != ch.platform || (ru.mode != MODE_ESCROW && ru.mode != MODE_CREDIT) || !(1 <= ru.finding <= 4)
         || !RemedyCoherent(ru.remedy, ru.mode) {
        return Some(Invalid);
      }
      if !RulingVerifies(cr, ch, ru) {
        return Some(Unauthorized);
      }
      var c := GetCase(ru.dispute);
      if c.Err? {
        return Some(c.error);
      }
      if !c.value.state.StateOpen? {
        return Some(Closed);
      }
      if ru.exchange != c.value.exchange {
        return Some(Invalid);
      }
      OpenedOf(store.State(), ru.dispute);
      r := store.Append(Admitted(ru.dispute, cr.rulingId(ru), Ruled(ru)));
      if r.None? { RuleKeepsInv(cr, ch, old(store.State()), ru); }
    }

    method WithdrawCase(wd: Withdrawal) returns (r: Option<DisputeError>)
      requires Valid()
      modifies store
      ensures Valid()
      ensures r.None? ==> Withdraw(cr, ch, old(store.State()), wd) == Ok(store.State())
      ensures r.None? ==> exists o :: OpenedBy(old(store.State()), wd.dispute, o) && cr.withdrawalSigned(o.complainant, wd)
      ensures r.Some? ==> Withdraw(cr, ch, old(store.State()), wd) == Err(r.value) && store.State() == old(store.State())
    {
      hide Inv;
      if wd.platform != ch.platform {
        return Some(Invalid);
      }
      var c := GetCase(wd.dispute);
      if c.Err? {
        return Some(c.error);
      }
      if !c.value.state.StateOpen? {
        return Some(Closed);
      }
      if |c.value.complainant| != KEY_SIZE || |wd.signature| != SIGNATURE_SIZE
         || !cr.withdrawalSigned(c.value.complainant, wd) {
        return Some(Unauthorized);
      }
      OpenedOf(store.State(), wd.dispute);
      r := store.Append(Admitted(wd.dispute, cr.withdrawalId(wd), Withdrew(wd)));
      if r.None? { WithdrawKeepsInv(cr, ch, old(store.State()), wd); }
    }
  }

  /** A prefix that does not fold fails the whole case. */
  lemma {:induction false} FoldStops(id: Hash, ads: seq<Admitted>, i: nat)
    requires i <= |ads| && FoldCase(id, ads[..i]) == Err(Invalid)
    ensures FoldCase(id, ads) == Err(Invalid)
  {
    if i == |ads| {
      assert ads[..i] == ads;
    } else {
      assert ads[..|ads| - 1][..i] == ads[..i];
      FoldStops(id, ads[..|ads| - 1], i);
    }
  }
}
