/** The composition of internal/consumerapi: one dialog log with the server's own ID index, the
    dispute registry, and the lifecycle log, moved together by the locked sections of the handlers
    in server.go and disputes.go. */
module ConsumerApi {
  import opened Common
  import DL = DialogLog
  import D = Dispute
  import L = Lifecycle

  /** The fixed surroundings: cryptography, identities, and the digests of dispute artifacts. */
  datatype Env = Env(
    log: DL.Crypto, logId: Hash,
    dispute: D.Crypto, charter: D.Charter,
    leafId: L.Transition -> Hash, lifeId: Hash,
    openingDigest: D.Opening -> Hash, withdrawalDigest: D.Withdrawal -> Hash)

  datatype ServerState = ServerState(
    entries: seq<DL.Entry>, tree: DL.TreeState,
    index: map<Hash, nat>,
    disputes: D.StoreState,
    byExchange: map<Hash, seq<Hash>>,
    transitions: seq<L.Transition>, life: L.LifeState)

  const FRESH := ServerState([], DL.EMPTY, map[], D.EMPTY, map[], [], L.EMPTY)

  // ------------------------------------------------------------------ the anchor join

  predicate Parties(e: DL.Entry, a: Key, b: Key) {
    (e.proposer == a && e.acceptor == b) || (e.proposer == b && e.acceptor == a)
  }

  /** dispAnchors.Sealed: the exchange is an entry of this log, sealed by exactly these two. */
  predicate Anchored(env: Env, st: ServerState, exchange: Hash, a: Key, b: Key) {
    && exchange in st.index
    && st.index[exchange] < |st.entries|
    && var e := st.entries[st.index[exchange]];
       env.log.id(e) == exchange && e.log == env.logId && DL.Sealed(env.log, e) && Parties(e, a, b)
  }

  // ------------------------------------------------------------------ the locked sections

  /** appendEntry */
  function AppendEntry(env: Env, st: ServerState, e: DL.Entry): ServerState {
    var checked := DL.Check(env.log, env.logId, st.tree, e);
    if checked.Err? then st
    else st.(entries := st.entries + [e],
             tree := DL.Admit(st.tree, checked.value),
             index := st.index[env.log.id(e) := |st.tree.leafs|])
  }

  function Listed(m: map<Hash, seq<Hash>>, x: Hash): seq<Hash> {
    if x in m then m[x] else []
  }

  /** The lifecycle append a handler makes after the registry admitted the artifact. */
  function Record(env: Env, st: ServerState, t: L.Transition): ServerState {
    if L.Check(env.leafId, env.lifeId, st.life, t).Some? then st
    else st.(transitions := st.transitions + [t], life := L.Admit(env.leafId, st.life, t))
  }

  function FiledBy(env: Env, o: D.Opening, now: int): L.Transition {
    L.Transition(env.lifeId, env.dispute.openingId(o), L.FILED, env.openingDigest(o), o.exchange, now)
  }

  /** The locked section of handleOpenDispute. */
  function OpenDispute(env: Env, st: ServerState, o: D.Opening, now: int): ServerState {
    var admitted := D.Open(env.dispute, env.charter, st.disputes, o, Anchored(env, st, o.exchange, o.complainant, o.respondent));
    if admitted.Err? then st
    else
      var id := env.dispute.openingId(o);
      var next := st.(disputes := admitted.value,
                      byExchange := st.byExchange[o.exchange := Listed(st.byExchange, o.exchange) + [id]]);
      Record(env, next, FiledBy(env, o, now))
  }

  function ResolvedBy(env: Env, wd: D.Withdrawal, exchange: Hash, now: int): L.Transition {
    L.Transition(env.lifeId, wd.dispute, L.RESOLVED, env.withdrawalDigest(wd), exchange, now)
  }

  /** The locked section of handleWithdrawDispute. */
  function WithdrawDispute(env: Env, st: ServerState, wd: D.Withdrawal, now: int): ServerState {
    var admitted := D.Withdraw(env.dispute, env.charter, st.disputes, wd);
    if admitted.Err? then st
    else
      var next := st.(disputes := admitted.value);
      var c := D.CaseOf(admitted.value, wd.dispute);
      if c.Err? then next else Record(env, next, ResolvedBy(env, wd, c.value.exchange, now))
  }

  // ------------------------------------------------------------------ agreement

  /** The dialog log in memory is its store's replay, and the server's index is the log's own. */
  ghost predicate LogAgrees(env: Env, st: ServerState) {
    DL.Replay(env.log, env.logId, st.entries) == Ok(st.tree) && st.index == st.tree.index
  }

  /** One claim seen from both layers: open cases are exactly Filed, withdrawn ones exactly Resolved,
      and neither layer knows a claim the other does not. */
  ghost predicate ClaimAgrees(st: ServerState, d: Hash) {
    var k := L.Furthest(st.life, d);
    if d !in st.disputes.byDispute then k == None
    else if D.IsOpen(st.disputes, d) then k == Some(L.FILED)
    else !D.IsRuled(st.disputes, d) && k == Some(L.RESOLVED)
  }

  /** The exchange index lists exactly the cases that dispute the exchange. */
  ghost predicate ExchangeAgrees(st: ServerState, x: Hash, d: Hash) {
    d in Listed(st.byExchange, x) <==>
      && d in st.disputes.byDispute && |st.disputes.byDispute[d]| >= 1
      && st.disputes.byDispute[d][0].artifact.Opened? && st.disputes.byDispute[d][0].artifact.opening.exchange == x
  }

  ghost predicate Agrees(env: Env, st: ServerState) {
    && LogAgrees(env, st)
    && D.Inv(st.disputes)
    && L.Replay(env.leafId, env.lifeId, st.transitions) == Ok(st.life)
    && (forall d :: ClaimAgrees(st, d))
    && (forall x, d :: ExchangeAgrees(st, x, d))
  }

  /** Two different transitions with one leaf hash. */
  predicate LeafClash(env: Env, a: L.Transition, b: L.Transition) {
    a != b && env.leafId(a) == env.leafId(b)
  }

  /** The lifecycle log accepts the transition, or an earlier one collides with it. */
  ghost predicate Accepted(env: Env, st: ServerState, t: L.Transition) {
    L.Check(env.leafId, env.lifeId, st.life, t).None? || exists u :: u in st.transitions && LeafClash(env, u, t)
  }

  /** A transition of a new kind for its claim that passes the order gate is refused only when its
      leaf collides with that of a different transition already in the log. */
  lemma RefusedOnlyOnClash(env: Env, st: ServerState, t: L.Transition)
    requires L.Replay(env.leafId, env.lifeId, st.transitions) == Ok(st.life)
    requires t.log == env.lifeId && L.FILED <= t.kind <= L.SEALED && t.claim != ZERO_HASH && t.exchange != ZERO_HASH
    requires L.OrderError(L.Furthest(st.life, t.claim), t.kind).None?
    requires t.kind !in L.History(st.transitions, t.claim)
    ensures Accepted(env, st, t)
  {
    if env.leafId(t) in st.life.index {
      L.TransitionOfLeaf(env.leafId, env.lifeId, st.transitions, env.leafId(t));
      var i := st.life.index[env.leafId(t)];
      var u := st.transitions[i];
      L.ClaimSeen(env.leafId, env.lifeId, st.transitions, i);
      assert u in st.transitions && LeafClash(env, u, t);
    }
  }

  /** Recording an accepted transition moves only its own claim, to its kind. */
  lemma RecordedLife(env: Env, st: ServerState, t: L.Transition, d: Hash)
    requires L.Check(env.leafId, env.lifeId, st.life, t).None?
    requires L.Furthest(st.life, t.claim).Some? ==> t.kind > L.Furthest(st.life, t.claim).value
    ensures L.Furthest(Record(env, st, t).life, d) == if d == t.claim then Some(t.kind) else L.Furthest(st.life, d)
  {
    if d != t.claim { L.OtherClaimUntouched(env.leafId, st.life, t, d); }
  }

  lemma AppendEntryAgrees(env: Env, st: ServerState, e: DL.Entry)
    requires Agrees(env, st)
    ensures Agrees(env, AppendEntry(env, st, e))
  {
    hide D.Inv, L.Replay, L.Furthest, DL.Replay, DL.Check;
    DL.ReplayStep(env.log, env.logId, st.entries, e);
    DL.CheckedId(env.log, env.logId, st.tree, e);
    var next := AppendEntry(env, st, e);
    forall d: Hash ensures ClaimAgrees(next, d) {
      assert ClaimAgrees(st, d);
    }
    forall x: Hash, d: Hash ensures ExchangeAgrees(next, x, d) {
      assert ExchangeAgrees(st, x, d);
    }
  }

  /** The registry admits this opening in this state. */
  predicate Opens(env: Env, st: ServerState, o: D.Opening) {
    D.Open(env.dispute, env.charter, st.disputes, o, Anchored(env, st, o.exchange, o.complainant, o.respondent)).Ok?
  }

  lemma InvGivesCases(st: D.StoreState)
    requires D.Inv(st)
    ensures D.CasesKept(st)
  {
  }

  /** The two layers agree about a claim after a case opened and its filing was recorded. */
  lemma OpenAgreesOnClaim(env: Env, st: ServerState, o: D.Opening, now: int, d: Hash)
    requires Agrees(env, st) && Opens(env, st, o)
    requires var t := FiledBy(env, o, now);
      L.Furthest(st.life, t.claim).None? && L.Check(env.leafId, env.lifeId, st.life, t).None?
    ensures ClaimAgrees(OpenDispute(env, st, o, now), d)
  {
    hide D.Inv, D.Open, D.TupleKey, D.CaseShape, L.Replay, L.Furthest, L.Check, L.Admit, DL.Replay, Anchored, LogAgrees;
    var sealed := Anchored(env, st, o.exchange, o.complainant, o.respondent);
    var id := env.dispute.openingId(o);
    D.OpenOpensCase(env.dispute, env.charter, st.disputes, o, sealed);
    InvGivesCases(st.disputes);
    D.OpenedAt(st.disputes, OpenDispute(env, st, o, now).disputes, id, D.TupleKey(o), D.Admitted(id, id, D.Opened(o)), d);
    RecordedLife(env, OpenedOnly(env, st, o), FiledBy(env, o, now), d);
    assert ClaimAgrees(st, d) && ClaimAgrees(st, id);
  }

  /** The state between the registry's admission and the lifecycle append. */
  function OpenedOnly(env: Env, st: ServerState, o: D.Opening): ServerState
    requires Opens(env, st, o)
  {
    var admitted := D.Open(env.dispute, env.charter, st.disputes, o, Anchored(env, st, o.exchange, o.complainant, o.respondent));
    st.(disputes := admitted.value,
        byExchange := st.byExchange[o.exchange := Listed(st.byExchange, o.exchange) + [env.dispute.openingId(o)]])
  }

  lemma OpenAgreesOnExchange(env: Env, st: ServerState, o: D.Opening, x: Hash, d: Hash)
    requires Agrees(env, st) && Opens(env, st, o)
    ensures ExchangeAgrees(OpenedOnly(env, st, o), x, d)
  {
    hide D.Inv, D.Open, D.TupleKey, L.Replay, DL.Replay, Anchored, LogAgrees, ClaimAgrees;
    var sealed := Anchored(env, st, o.exchange, o.complainant, o.respondent);
    var id := env.dispute.openingId(o);
    D.OpenOpensCase(env.dispute, env.charter, st.disputes, o, sealed);
    assert ExchangeAgrees(st, x, d);
    var mid := OpenedOnly(env, st, o);
    assert x == o.exchange ==> Listed(mid.byExchange, x) == Listed(st.byExchange, x) + [id];
    assert d in Listed(mid.byExchange, x) <==> d in Listed(st.byExchange, x) || (d == id && x == o.exchange);
  }

  /** A new claim's filing is refused by the lifecycle log only on a leaf collision. */
  lemma FilingAccepted(env: Env, st: ServerState, o: D.Opening, now: int)
    requires Agrees(env, st) && Opens(env, st, o)
    ensures L.Furthest(st.life, env.dispute.openingId(o)).None?
    ensures Accepted(env, st, FiledBy(env, o, now))
  {
    hide D.Inv, D.TupleKey, L.Replay, L.History, DL.Replay, Anchored, LogAgrees;
    var id := env.dispute.openingId(o);
    D.OpenOpensCase(env.dispute, env.charter, st.disputes, o, Anchored(env, st, o.exchange, o.complainant, o.respondent));
    assert ClaimAgrees(st, id);
    L.HistoryOfFurthest(env.leafId, env.lifeId, st.transitions, id);
    RefusedOnlyOnClash(env, st, FiledBy(env, o, now));
  }

  /** Opening keeps agreement, or a lifecycle leaf collides. */
  lemma OpenDisputeAgrees(env: Env, st: ServerState, o: D.Opening, now: int)
    requires Agrees(env, st)
    ensures Agrees(env, OpenDispute(env, st, o, now))
         || (Opens(env, st, o) && exists u :: u in st.transitions && LeafClash(env, u, FiledBy(env, o, now)))
  {
    hide D.Inv, D.Open, D.TupleKey, L.Replay, L.Check, L.Admit, DL.Replay, Anchored, ClaimAgrees, ExchangeAgrees;
    if Opens(env, st, o) {
      FilingAccepted(env, st, o, now);
      var t := FiledBy(env, o, now);
      if L.Check(env.leafId, env.lifeId, st.life, t).None? {
        var next := OpenDispute(env, st, o, now);
        D.OpenKeepsInv(env.dispute, env.charter, st.disputes, o, Anchored(env, st, o.exchange, o.complainant, o.respondent));
        L.ReplayStep(env.leafId, env.lifeId, st.transitions, t);
        forall d: Hash ensures ClaimAgrees(next, d) {
          OpenAgreesOnClaim(env, st, o, now, d);
        }
        forall x: Hash, d: Hash ensures ExchangeAgrees(next, x, d) {
          OpenAgreesOnExchange(env, st, o, x, d);
          SameIndexes(OpenedOnly(env, st, o), next, x, d);
        }
      }
    }
  }

  lemma SameIndexes(a: ServerState, b: ServerState, x: Hash, d: Hash)
    requires a.disputes == b.disputes && a.byExchange == b.byExchange && ExchangeAgrees(a, x, d)
    ensures ExchangeAgrees(b, x, d)
  {
  }

  // ------------------------------------------------------------------ withdrawal

  predicate Withdraws(env: Env, st: ServerState, wd: D.Withdrawal) {
    D.Withdraw(env.dispute, env.charter, st.disputes, wd).Ok?
  }

  /** The transition a withdrawal records, for the exchange of its case. */
  function Resolution(env: Env, st: ServerState, wd: D.Withdrawal, now: int): L.Transition
    requires Withdraws(env, st, wd)
  {
    var c := D.CaseOf(D.Withdraw(env.dispute, env.charter, st.disputes, wd).value, wd.dispute);
    ResolvedBy(env, wd, if c.Ok? then c.value.exchange else ZERO_HASH, now)
  }

  /** After an admitted withdrawal the case can be read, and names a nonzero exchange. */
  lemma WithdrawnCaseReadable(env: Env, st: ServerState, wd: D.Withdrawal)
    requires D.Inv(st.disputes) && Withdraws(env, st, wd)
    ensures var after := D.Withdraw(env.dispute, env.charter, st.disputes, wd).value;
      D.CaseOf(after, wd.dispute).Ok? && D.CaseOf(after, wd.dispute).value.exchange != ZERO_HASH && wd.dispute != ZERO_HASH
  {
    hide D.Withdraw, D.FoldCase, D.CaseOf, D.LiveExact, D.SettledExact;
    var after := D.Withdraw(env.dispute, env.charter, st.disputes, wd).value;
    D.WithdrawKeepsInv(env.dispute, env.charter, st.disputes, wd);
    InvGivesCases(after);
    D.CaseStateExact(after, wd.dispute);
    assert D.CaseShape(wd.dispute, after.byDispute[wd.dispute]);
  }

  lemma ResolutionAccepted(env: Env, st: ServerState, wd: D.Withdrawal, now: int)
    requires Agrees(env, st) && Withdraws(env, st, wd)
    ensures L.Furthest(st.life, wd.dispute) == Some(L.FILED)
    ensures Accepted(env, st, Resolution(env, st, wd, now))
  {
    hide D.Inv, D.Withdraw, D.CaseOf, L.Replay, L.History, DL.Replay, LogAgrees;
    WithdrawnCaseReadable(env, st, wd);
    D.WithdrawKeepsInv(env.dispute, env.charter, st.disputes, wd);
    assert ClaimAgrees(st, wd.dispute);
    L.HistoryOfFurthest(env.leafId, env.lifeId, st.transitions, wd.dispute);
    RefusedOnlyOnClash(env, st, Resolution(env, st, wd, now));
  }

  lemma WithdrawAgreesAt(env: Env, st: ServerState, wd: D.Withdrawal, now: int, x: Hash, d: Hash)
    requires Agrees(env, st) && Withdraws(env, st, wd)
    requires L.Furthest(st.life, wd.dispute) == Some(L.FILED)
    requires L.Check(env.leafId, env.lifeId, st.life, Resolution(env, st, wd, now)).None?
    ensures ClaimAgrees(WithdrawDispute(env, st, wd, now), d) && ExchangeAgrees(WithdrawDispute(env, st, wd, now), x, d)
  {
    hide D.Inv, D.Withdraw, D.CaseOf, D.TupleKey, L.Replay, L.Furthest, L.Check, L.Admit, DL.Replay, LogAgrees;
    WithdrawnCaseReadable(env, st, wd);
    D.WithdrawKeepsInv(env.dispute, env.charter, st.disputes, wd);
    InvGivesCases(st.disputes);
    var after := D.Withdraw(env.dispute, env.charter, st.disputes, wd).value;
    var a := D.Admitted(wd.dispute, env.dispute.withdrawalId(wd), D.Withdrew(wd));
    D.ClosedAt(st.disputes, after, wd.dispute, st.disputes.disputeTuple[wd.dispute], a, d);
    RecordedLife(env, st.(disputes := after), Resolution(env, st, wd, now), d);
    assert ClaimAgrees(st, d) && ExchangeAgrees(st, x, d);
  }

  /** Withdrawing keeps agreement, or a lifecycle leaf collides. */
  lemma WithdrawDisputeAgrees(env: Env, st: ServerState, wd: D.Withdrawal, now: int)
    requires Agrees(env, st)
    ensures Agrees(env, WithdrawDispute(env, st, wd, now))
         || (Withdraws(env, st, wd) && exists u :: u in st.transitions && LeafClash(env, u, Resolution(env, st, wd, now)))
  {
    hide D.Inv, D.Withdraw, D.CaseOf, L.Replay, L.Furthest, L.Check, L.Admit, DL.Replay, ClaimAgrees, ExchangeAgrees;
    if Withdraws(env, st, wd) {
      ResolutionAccepted(env, st, wd, now);
      WithdrawnCaseReadable(env, st, wd);
      var t := Resolution(env, st, wd, now);
      if L.Check(env.leafId, env.lifeId, st.life, t).None? {
        D.WithdrawKeepsInv(env.dispute, env.charter, st.disputes, wd);
        L.ReplayStep(env.leafId, env.lifeId, st.transitions, t);
        var after := D.Withdraw(env.dispute, env.charter, st.disputes, wd).value;
        var next := WithdrawDispute(env, st, wd, now);
        assert next == Record(env, st.(disputes := after), t);
        forall d: Hash ensures ClaimAgrees(next, d) {
          WithdrawAgreesAt(env, st, wd, now, ZERO_HASH, d);
        }
        forall x: Hash, d: Hash ensures ExchangeAgrees(next, x, d) {
          WithdrawAgreesAt(env, st, wd, now, x, d);
        }
      }
    }
  }

  // ------------------------------------------------------------------ runs of the handlers

  datatype Call = AppendCall(e: DL.Entry) | OpenCall(o: D.Opening, at: int) | WithdrawCall(wd: D.Withdrawal, at: int)

  function Handle(env: Env, st: ServerState, c: Call): ServerState {
    match c
    case AppendCall(e) => AppendEntry(env, st, e)
    case OpenCall(o, at) => OpenDispute(env, st, o, at)
    case WithdrawCall(wd, at) => WithdrawDispute(env, st, wd, at)
  }

  function Run(env: Env, calls: seq<Call>): ServerState {
    if calls == [] then FRESH else Handle(env, Run(env, calls[..|calls| - 1]), calls[|calls| - 1])
  }

  /** The transition the call would record collides with one already recorded. */
  ghost predicate Collides(env: Env, st: ServerState, c: Call) {
    match c
    case AppendCall(_) => false
    case OpenCall(o, at) => Opens(env, st, o) && exists u :: u in st.transitions && LeafClash(env, u, FiledBy(env, o, at))
    case WithdrawCall(wd, at) =>
      Withdraws(env, st, wd) && exists u :: u in st.transitions && LeafClash(env, u, Resolution(env, st, wd, at))
  }

  lemma HandleAgrees(env: Env, st: ServerState, c: Call)
    requires Agrees(env, st)
    ensures Agrees(env, Handle(env, st, c)) || Collides(env, st, c)
  {
    hide Agrees, AppendEntry, OpenDispute, WithdrawDispute;
    match c
    case AppendCall(e) => AppendEntryAgrees(env, st, e);
    case OpenCall(o, at) => OpenDisputeAgrees(env, st, o, at);
    case WithdrawCall(wd, at) => WithdrawDisputeAgrees(env, st, wd, at);
  }

  lemma FreshAgrees(env: Env)
    ensures Agrees(env, FRESH)
  {
    D.EmptyInv();
  }

  /** Cross-layer agreement over every run of the handlers: registry, lifecycle log and exchange index
      agree on every claim, and the server's ID index is the log's own; or some call of the run meets a
      collision of two different lifecycle leaves. */
  lemma {:induction false} EveryRunAgrees(env: Env, calls: seq<Call>)
    ensures Agrees(env, Run(env, calls))
         || exists i :: 0 <= i < |calls| && Collides(env, Run(env, calls[..i]), calls[i])
  {
    hide Agrees, Handle, Collides;
    if calls == [] {
      FreshAgrees(env);
    } else {
      var front := calls[..|calls| - 1];
      EveryRunAgrees(env, front);
      if Agrees(env, Run(env, front)) {
        HandleAgrees(env, Run(env, front), calls[|calls| - 1]);
      } else {
        var i :| 0 <= i < |front| && Collides(env, Run(env, front[..i]), front[i]);
        assert front[..i] == calls[..i];
        assert Collides(env, Run(env, calls[..i]), calls[i]);
      }
    }
  }

  // ------------------------------------------------------------------ what the handlers record

  /** The calls on the registry that the handlers of a run make. */
  function RegistryOps(env: Env, calls: seq<Call>): seq<D.Op> {
    if calls == [] then []
    else
      var front, c := calls[..|calls| - 1], calls[|calls| - 1];
      RegistryOps(env, front) +
        match c
        case AppendCall(_) => []
        case OpenCall(o, _) => [D.OpenOp(o, Anchored(env, Run(env, front), o.exchange, o.complainant, o.respondent))]
        case WithdrawCall(wd, _) => [D.WithdrawOp(wd)]
  }

  /** The server's registry is where those calls lead, so all that is proved of every registry run holds of it. */
  lemma {:induction false} ServerRunsRegistry(env: Env, calls: seq<Call>)
    ensures Run(env, calls).disputes == D.Run(env.dispute, env.charter, RegistryOps(env, calls))
  {
    if calls != [] {
      hide D.Open, D.Withdraw, D.CaseOf, L.Check, L.Admit, DL.Check, Anchored;
      var front, c := calls[..|calls| - 1], calls[|calls| - 1];
      ServerRunsRegistry(env, front);
      var ops := RegistryOps(env, front);
      if c.AppendCall? {
        assert ops + [] == ops;
      } else {
        var op := if c.OpenCall? then D.OpenOp(c.o, Anchored(env, Run(env, front), c.o.exchange, c.o.complainant, c.o.respondent)) else D.WithdrawOp(c.wd);
        assert (ops + [op])[..|ops|] == ops;
      }
    }
  }

  /** What this call, admitted in this state, puts into the lifecycle log: the filing of the opening it carries,
      or the resolution of the case its withdrawal names on the exchange of that case's opening; in each case under
      the digest of the artifact itself and at the time of the call. */
  ghost predicate Records(env: Env, st: ServerState, c: Call, t: L.Transition) {
    match c
    case AppendCall(_) => false
    case OpenCall(o, at) =>
      Opens(env, st, o) && t == L.Transition(env.lifeId, env.dispute.openingId(o), 1, env.openingDigest(o), o.exchange, at)
    case WithdrawCall(wd, at) =>
      && Withdraws(env, st, wd)
      && exists o :: D.OpenedBy(st.disputes, wd.dispute, o) &&
           t == L.Transition(env.lifeId, wd.dispute, 3, env.withdrawalDigest(wd), o.exchange, at)
  }

  lemma WithdrawnExchange(env: Env, calls: seq<Call>, wd: D.Withdrawal)
    requires Withdraws(env, Run(env, calls), wd)
    ensures var st := Run(env, calls).disputes;
      var c := D.CaseOf(D.Withdraw(env.dispute, env.charter, st, wd).value, wd.dispute);
      c.Ok? && exists o :: D.OpenedBy(st, wd.dispute, o) && c.value.exchange == o.exchange
  {
    hide Run, RegistryOps, D.Run, D.CaseOf, D.Withdraw, D.Inv, D.FoldCase, D.LiveExact, D.SettledExact, D.TupleKey;
    var ops := RegistryOps(env, calls);
    ServerRunsRegistry(env, calls);
    var st := Run(env, calls).disputes;
    D.EveryRunKeepsInv(env.dispute, env.charter, ops);
    D.WithdrawAdmittedExactly(env.dispute, env.charter, ops, wd);
    D.WithdrawKeepsInv(env.dispute, env.charter, st, wd);
    var o :| D.OpenedBy(st, wd.dispute, o);
    var after := D.Withdraw(env.dispute, env.charter, st, wd).value;
    InvGivesCases(after);
    D.CaseStateExact(after, wd.dispute);
    assert after.byDispute[wd.dispute][0] == st.byDispute[wd.dispute][0];
  }

  /** One call of a run adds nothing to the lifecycle log, or exactly the transition it records; and it adds that
      one unless the log refuses it. */
  lemma CallRecords(env: Env, calls: seq<Call>, c: Call)
    ensures var st := Run(env, calls);
      var next := Handle(env, st, c);
      || (next.transitions == st.transitions && forall t :: Records(env, st, c, t) ==> L.Check(env.leafId, env.lifeId, st.life, t).Some?)
      || exists t :: Records(env, st, c, t) && next.transitions == st.transitions + [t]
  {
    hide Run, D.Open, D.Withdraw, D.CaseOf, L.Check, L.Admit, DL.Check, Anchored;
    var st := Run(env, calls);
    match c
    case AppendCall(e) =>
    case OpenCall(o, at) =>
      if Opens(env, st, o) {
        var t := L.Transition(env.lifeId, env.dispute.openingId(o), 1, env.openingDigest(o), o.exchange, at);
        assert Records(env, st, c, t);
      }
    case WithdrawCall(wd, at) =>
      if Withdraws(env, st, wd) {
        WithdrawnExchange(env, calls, wd);
        WithdrawRecords(env, st, wd, at);
      }
  }

  lemma WithdrawRecords(env: Env, st: ServerState, wd: D.Withdrawal, at: int)
    requires Withdraws(env, st, wd)
    requires var c := D.CaseOf(D.Withdraw(env.dispute, env.charter, st.disputes, wd).value, wd.dispute);
      c.Ok? && exists o :: D.OpenedBy(st.disputes, wd.dispute, o) && c.value.exchange == o.exchange
    ensures var next := WithdrawDispute(env, st, wd, at);
      || (next.transitions == st.transitions && forall t :: Records(env, st, WithdrawCall(wd, at), t) ==> L.Check(env.leafId, env.lifeId, st.life, t).Some?)
      || exists t :: Records(env, st, WithdrawCall(wd, at), t) && next.transitions == st.transitions + [t]
  {
    hide D.Withdraw, D.CaseOf, L.Check, L.Admit;
    var c := D.CaseOf(D.Withdraw(env.dispute, env.charter, st.disputes, wd).value, wd.dispute);
    var o :| D.OpenedBy(st.disputes, wd.dispute, o) && c.value.exchange == o.exchange;
    var t := L.Transition(env.lifeId, wd.dispute, 3, env.withdrawalDigest(wd), o.exchange, at);
    assert Records(env, st, WithdrawCall(wd, at), t);
  }

  /** Over every run, every transition in the lifecycle log was recorded by a call of the run: a filing by the
      opening it is the digest of, a resolution by the withdrawal it is the digest of. */
  lemma {:induction false} EveryTransitionRecorded(env: Env, calls: seq<Call>, i: nat)
    requires i < |Run(env, calls).transitions|
    ensures exists k :: 0 <= k < |calls| && Records(env, Run(env, calls[..k]), calls[k], Run(env, calls).transitions[i])
  {
    hide Handle, Records;
    if calls != [] {
      var n := |calls| - 1;
      var front, c := calls[..n], calls[n];
      CallRecords(env, front, c);
      var st, now := Run(env, front).transitions, Run(env, calls).transitions;
      if i < |st| {
        EveryTransitionRecorded(env, front, i);
        var k :| 0 <= k < |front| && Records(env, Run(env, front[..k]), front[k], st[i]);
        assert front[..k] == calls[..k] && front[k] == calls[k];
      } else {
        assert Records(env, Run(env, calls[..n]), calls[n], now[i]);
      }
    }
  }

  // ------------------------------------------------------------------ anchoring

  /** In a state whose index is the log's own, an exchange is anchored between two members exactly
      when the log holds an entry with that ID sealed by them. */
  lemma AnchoredExactly(env: Env, st: ServerState, exchange: Hash, a: Key, b: Key)
    requires LogAgrees(env, st)
    ensures Anchored(env, st, exchange, a, b) <==>
      exists e :: e in st.entries && env.log.id(e) == exchange && Parties(e, a, b)
  {
    DL.ReplayCoherent(env.log, env.logId, st.entries);
    if e :| e in st.entries && env.log.id(e) == exchange && Parties(e, a, b) {
      var i :| 0 <= i < |st.entries| && st.entries[i] == e;
      assert st.tree.leafs[i] == exchange && st.tree.index[st.tree.leafs[i]] == i;
    }
  }

  /** No handler breaks the log's agreement or un-anchors an exchange. */
  lemma AnchoredForGood(env: Env, st: ServerState, c: Call, exchange: Hash, a: Key, b: Key)
    requires LogAgrees(env, st)
    ensures LogAgrees(env, Handle(env, st, c))
    ensures Anchored(env, st, exchange, a, b) ==> Anchored(env, Handle(env, st, c), exchange, a, b)
  {
    hide D.Open, D.Withdraw, D.CaseOf, L.Check, L.Admit, DL.Replay;
    match c
    case AppendCall(e) =>
      DL.ReplayStep(env.log, env.logId, st.entries, e);
      DL.CheckedId(env.log, env.logId, st.tree, e);
      var next := AppendEntry(env, st, e);
      if DL.Check(env.log, env.logId, st.tree, e).Ok? {
        assert env.log.id(e) !in st.index;
      }
    case OpenCall(o, at) =>
    case WithdrawCall(wd, at) =>
  }

  /** Whatever handlers run, the server's index stays the log's own, and an exchange anchored after the
      first i calls is anchored at the end. */
  lemma {:induction false} AnchoredThroughRun(env: Env, calls: seq<Call>, i: nat, exchange: Hash, a: Key, b: Key)
    requires i <= |calls|
    ensures LogAgrees(env, Run(env, calls))
    ensures Anchored(env, Run(env, calls[..i]), exchange, a, b) ==> Anchored(env, Run(env, calls), exchange, a, b)
  {
    hide LogAgrees, Anchored, Handle;
    if calls == [] {
      FreshAgrees(env);
    } else {
      var front := calls[..|calls| - 1];
      AnchoredThroughRun(env, front, if i < |calls| then i else |front|, exchange, a, b);
      AnchoredForGood(env, Run(env, front), calls[|calls| - 1], exchange, a, b);
      if i < |calls| { assert front[..i] == calls[..i]; } else { assert calls[..i] == calls; }
    }
  }

  // ------------------------------------------------------------------ the server itself

  /** recAnchors.Adjudicated: the subject is the operator's own member ID, the assessor is registered, and
      the assessor's key was a party to a case listed under the exchange. */
  method Adjudicated(st: ServerState, byMember: map<Bytes, Key>, operatorMember: Bytes,
                     exchange: Hash, assessor: Bytes, subject: Bytes) returns (party: bool)
    ensures party <==>
      && subject == operatorMember && assessor in byMember
      && exists d :: d in Listed(st.byExchange, exchange) && PartyTo(st, d, byMember[assessor])
  {
    if subject != operatorMember {
      return false;
    }
    if assessor !in byMember {
      return false;
    }
    var key := byMember[assessor];
    var ids := Listed(st.byExchange, exchange);
    for i := 0 to |ids|
      invariant forall j :: 0 <= j < i ==> !PartyTo(st, ids[j], key)
    {
      var c := D.CaseOf(st.disputes, ids[i]);
      if c.Ok? && (c.value.complainant == key || c.value.respondent == key) {
        assert PartyTo(st, ids[i], key);
        return true;
      }
    }
    return false;
  }

  predicate PartyTo(st: ServerState, d: Hash, key: Key) {
    var c := D.CaseOf(st.disputes, d);
    c.Ok? && (c.value.complainant == key || c.value.respondent == key)
  }

  /** The case d disputes the exchange x, and the key is one of its two parties. */
  predicate HasParty(st: ServerState, x: Hash, d: Hash, key: Key) {
    && d in st.disputes.byDispute && |st.disputes.byDispute[d]| >= 1
    && st.disputes.byDispute[d][0].artifact.Opened?
    && var o := st.disputes.byDispute[d][0].artifact.opening;
       o.exchange == x && (o.complainant == key || o.respondent == key)
  }

  /** The answer of the adjudication anchor is a fact about the admitted openings alone: some
      opening on this exchange names the key, whatever happened to the case since. */
  lemma AdjudicatedExactly(env: Env, st: ServerState, x: Hash, key: Key)
    requires Agrees(env, st)
    ensures (exists d :: d in Listed(st.byExchange, x) && PartyTo(st, d, key)) <==> (exists d :: HasParty(st, x, d, key))
  {
    hide D.Inv, D.CaseOf, L.Replay, DL.Replay, LogAgrees, ClaimAgrees;
    InvGivesCases(st.disputes);
    forall d: Hash ensures d in Listed(st.byExchange, x) && PartyTo(st, d, key) <==> HasParty(st, x, d, key) {
      assert ExchangeAgrees(st, x, d);
      if d in st.disputes.byDispute { D.CaseStateExact(st.disputes, d); }
    }
  }

  /** consumerapi.Server over the three components it serialises under one lock. */
  class Server {
    ghost const env: Env
    const opLog: DL.Log
    const registry: D.Registry
    const lifeLog: L.LifecycleLog
    const openingDigest: D.Opening -> Hash
    const withdrawalDigest: D.Withdrawal -> Hash
    var index: map<Hash, nat>
    var byExchange: map<Hash, seq<Hash>>

    ghost predicate Wired() reads this, opLog, opLog.store, registry, registry.store, lifeLog {
      && opLog.Valid() && registry.Valid() && lifeLog.Valid()
      && env == Env(opLog.cr, opLog.id, registry.cr, registry.ch, lifeLog.leafId, lifeLog.id, openingDigest, withdrawalDigest)
    }

    ghost function State(): ServerState reads this, opLog, opLog.store, registry, registry.store, lifeLog {
      ServerState(opLog.store.entries, opLog.State(), index, registry.store.State(), byExchange, lifeLog.store, lifeLog.st)
    }

    constructor (opLog: DL.Log, registry: D.Registry, lifeLog: L.LifecycleLog,
                 openingDigest: D.Opening -> Hash, withdrawalDigest: D.Withdrawal -> Hash)
      requires opLog.Valid() && registry.Valid() && lifeLog.Valid()
      requires opLog.store.entries == [] && registry.store.State() == D.EMPTY && lifeLog.store == []
      ensures Wired() && State() == FRESH
      ensures this.opLog == opLog && this.registry == registry && this.lifeLog == lifeLog
    {
      this.opLog, this.registry, this.lifeLog := opLog, registry, lifeLog;
      this.openingDigest, this.withdrawalDigest := openingDigest, withdrawalDigest;
      env := Env(opLog.cr, opLog.id, registry.cr, registry.ch, lifeLog.leafId, lifeLog.id, openingDigest, withdrawalDigest);
      index, byExchange := map[], map[];
    }

    method Append(e: DL.Entry) returns (r: Result<nat, DL.LogError>)
      requires Wired()
      modifies this, opLog, opLog.store
      ensures Wired() && State() == Handle(env, old(State()), AppendCall(e))
      ensures r.Ok? ==> r.value == |old(opLog.leafs)|
    {
      hide D.Inv, L.Replay, DL.Replay, DL.Check;
      DL.CheckedId(opLog.cr, opLog.id, opLog.State(), e);
      r := opLog.Append(e);
      if r.Ok? {
        index := index[opLog.cr.id(e) := r.value];
      }
    }

    /** dispAnchors.Sealed */
    method Sealed(exchange: Hash, a: Key, b: Key) returns (sealed: bool)
      requires Wired()
      ensures sealed == Anchored(env, State(), exchange, a, b)
    {
      hide D.Inv, L.Replay, DL.Replay;
      if exchange !in index {
        return false;
      }
      var e := opLog.store.At(index[exchange]);
      if e.Err? || opLog.cr.id(e.value) != exchange || e.value.log != opLog.id || !DL.Sealed(opLog.cr, e.value) {
        return false;
      }
      return Parties(e.value, a, b);
    }

    /** recAnchors.Sealed: the same join for two registered members. */
    method MembersSealed(byMember: map<Bytes, Key>, exchange: Hash, assessor: Bytes, subject: Bytes) returns (sealed: bool)
      requires Wired()
      ensures sealed <==>
        && assessor in byMember && subject in byMember
        && Anchored(env, State(), exchange, byMember[assessor], byMember[subject])
    {
      hide Anchored, D.Inv, L.Replay, DL.Replay;
      if assessor !in byMember || subject !in byMember {
        return false;
      }
      sealed := Sealed(exchange, byMember[assessor], byMember[subject]);
    }

    /** The locked section of handleOpenDispute: true when both layers took the opening. */
    method Open(o: D.Opening, now: int) returns (ok: bool)
      requires Wired()
      modifies this, registry.store, lifeLog
      ensures Wired() && State() == Handle(env, old(State()), OpenCall(o, now))
      ensures ok ==> Opens(env, old(State()), o) && lifeLog.store == old(lifeLog.store) + [FiledBy(env, o, now)]
    {
      hide D.Inv, D.Open, L.Replay, L.Check, L.Admit, DL.Replay, Anchored;
      var sealed := Sealed(o.exchange, o.complainant, o.respondent);
      var filed := registry.OpenCase(o, sealed);
      if filed.Err? {
        return false;
      }
      byExchange := byExchange[o.exchange := Listed(byExchange, o.exchange) + [filed.value]];
      var t := L.Transition(lifeLog.id, filed.value, L.FILED, openingDigest(o), o.exchange, now);
      var r := lifeLog.Append(t);
      return r.Ok?;
    }

    /** The locked section of handleWithdrawDispute: true when the handler answers success. */
    method Withdraw(wd: D.Withdrawal, now: int) returns (ok: bool)
      requires Wired()
      modifies registry.store, lifeLog
      ensures Wired() && State() == Handle(env, old(State()), WithdrawCall(wd, now))
      ensures ok ==> Withdraws(env, old(State()), wd)
    {
      hide D.Inv, D.Withdraw, D.CaseOf, L.Replay, L.Check, L.Admit, DL.Replay, Anchored;
      var refused := registry.WithdrawCase(wd);
      if refused.Some? {
        return false;
      }
      var c := registry.GetCase(wd.dispute);
      if c.Err? {
        return true;
      }
      var t := L.Transition(lifeLog.id, wd.dispute, L.RESOLVED, withdrawalDigest(wd), c.value.exchange, now);
      var r := lifeLog.Append(t);
      return r.Ok?;
    }
  }
}
