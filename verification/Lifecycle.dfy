/** The claim-lifecycle log of internal/record/lifecycle.go. */
module Lifecycle {
  import opened Common

  const FILED: nat := 1
  const ADJUDICATED: nat := 2
  const RESOLVED: nat := 3
  const SEALED: nat := 4

  datatype Transition = Transition(log: Hash, claim: Hash, kind: nat, artifact: Hash, exchange: Hash, at: int)

  datatype LifeError =
    OtherLog | BadKind | NoClaim | NoExchange | DuplicateLeaf | FirstMustFile | FilesOnce |
    AdjudicatedTooLate | NotMonotonic | SealsTooEarly | BadKey

  /** The in-memory state: leaves, their index, and per claim the furthest kind, the sequence
      numbers, and how often each kind occurred. */
  datatype LifeState = LifeState(
    leafs: seq<Hash>,
    index: map<Hash, nat>,
    state: map<Hash, nat>,
    claim: map<Hash, seq<nat>>,
    kinds: map<Hash, map<nat, nat>>)

  const EMPTY := LifeState([], map[], map[], map[], map[])

  /** The order gate, given the furthest kind admitted for the claim, if any. */
  function OrderError(last: Option<nat>, kind: nat): Option<LifeError> {
    if last.None? then
      if kind != FILED then Some(FirstMustFile) else None
    else if kind == FILED then Some(FilesOnce)
    else if kind == ADJUDICATED then
      if last.value >= RESOLVED then Some(AdjudicatedTooLate) else None
    else if kind <= last.value then Some(NotMonotonic)
    else if kind == SEALED && last.value < RESOLVED then Some(SealsTooEarly)
    else None
  }

  function Furthest(st: LifeState, claim: Hash): Option<nat> {
    if claim in st.state then Some(st.state[claim]) else None
  }

  /** check: the first gate that refuses, if any. */
  function Check(leafId: Transition -> Hash, id: Hash, st: LifeState, t: Transition): Option<LifeError> {
    if t.log != id then Some(OtherLog)
    else if t.kind < FILED || t.kind > SEALED then Some(BadKind)
    else if t.claim == ZERO_HASH then Some(NoClaim)
    else if t.exchange == ZERO_HASH then Some(NoExchange)
    else if leafId(t) in st.index then Some(DuplicateLeaf)
    else OrderError(Furthest(st, t.claim), t.kind)
  }

  function Lookup<K, V>(m: map<K, V>, k: K, default: V): V {
    if k in m then m[k] else default
  }

  function Admit(leafId: Transition -> Hash, st: LifeState, t: Transition): LifeState {
    var kc := Lookup(st.kinds, t.claim, map[]);
    LifeState(
      st.leafs + [leafId(t)],
      st.index[leafId(t) := |st.leafs|],
      if t.kind > Lookup(st.state, t.claim, 0) then st.state[t.claim := t.kind] else st.state,
      st.claim[t.claim := Lookup(st.claim, t.claim, []) + [|st.leafs|]],
      st.kinds[t.claim := kc[t.kind := Lookup(kc, t.kind, 0) + 1]])
  }

  /** What opening a store that holds these transitions yields. */
  function Replay(leafId: Transition -> Hash, id: Hash, ts: seq<Transition>): Result<LifeState, LifeError> {
    if ts == [] then Ok(EMPTY)
    else
      var before := Replay(leafId, id, ts[..|ts| - 1]);
      var t := ts[|ts| - 1];
      if before.Err? then before
      else if Check(leafId, id, before.value, t).Some? then Err(Check(leafId, id, before.value, t).value)
      else Ok(Admit(leafId, before.value, t))
  }

  lemma ReplayStep(leafId: Transition -> Hash, id: Hash, ts: seq<Transition>, t: Transition)
    ensures Replay(leafId, id, ts + [t]) ==
      var before := Replay(leafId, id, ts);
      if before.Err? then before
      else if Check(leafId, id, before.value, t).Some? then Err(Check(leafId, id, before.value, t).value)
      else Ok(Admit(leafId, before.value, t))
  {
    var all := ts + [t];
    assert all[..|all| - 1] == ts;
  }

  class LifecycleLog {
    const leafId: Transition -> Hash
    const id: Hash
    var store: seq<Transition>
    var st: LifeState

    /** The log in memory is what its store replays to. */
    ghost predicate Valid() reads this {
      Replay(leafId, id, store) == Ok(st)
    }

    /** OpenLifecycleLog over an empty store. */
    constructor (leafId: Transition -> Hash, id: Hash)
      ensures Valid() && store == [] && this.leafId == leafId && this.id == id
    {
      this.leafId, this.id := leafId, id;
      store, st := [], EMPTY;
    }

    method Append(t: Transition) returns (r: Result<nat, LifeError>)
      requires Valid()
      modifies this
      ensures Valid()
      ensures r.Ok? <==> Check(leafId, id, old(st), t).None?
      ensures r.Ok? ==> r.value == |old(st).leafs| && store == old(store) + [t] && st == Admit(leafId, old(st), t)
      ensures r.Err? ==> Check(leafId, id, old(st), t) == Some(r.error) && store == old(store) && st == old(st)
    {
      var refused := Check(leafId, id, st, t);
      if refused.Some? {
        return Err(refused.value);
      }
      ReplayStep(leafId, id, store, t);
      store := store + [t];
      r := Ok(|st.leafs|);
      st := Admit(leafId, st, t);
    }
  }

  /** OpenLifecycleLog: replays the stored transitions through the gates Append uses; what it
      returns is exactly the replay, so a log that lived reopens to the state it had. */
  method OpenLifecycleLog(leafId: Transition -> Hash, operator: Key, id: Hash, store: seq<Transition>)
    returns (r: Result<LifeState, LifeError>)
    ensures r == if |operator| != KEY_SIZE then Err(BadKey) else Replay(leafId, id, store)
  {
    hide Check, Admit;
    if |operator| != KEY_SIZE {
      return Err(BadKey);
    }
    var st := EMPTY;
    for i := 0 to |store|
      invariant Replay(leafId, id, store[..i]) == Ok(st)
    {
      assert store[..i + 1] == store[..i] + [store[i]];
      ReplayStep(leafId, id, store[..i], store[i]);
      var refused := Check(leafId, id, st, store[i]);
      if refused.Some? {
        ReplayStops(leafId, id, store, i + 1);
        return Err(refused.value);
      }
      st := Admit(leafId, st, store[i]);
    }
    assert store[..|store|] == store;
    return Ok(st);
  }

  lemma {:induction false} ReplayStops(leafId: Transition -> Hash, id: Hash, ts: seq<Transition>, i: nat)
    requires i <= |ts| && Replay(leafId, id, ts[..i]).Err?
    ensures Replay(leafId, id, ts) == Replay(leafId, id, ts[..i])
  {
    if i == |ts| {
      assert ts[..i] == ts;
    } else {
      assert ts[..|ts| - 1][..i] == ts[..i];
      ReplayStops(leafId, id, ts[..|ts| - 1], i);
    }
  }

  // ------------------------------------------------------------------ a claim's history

  /** The kinds recorded for one claim, in log order. */
  function History(ts: seq<Transition>, claim: Hash): seq<nat> {
    if ts == [] then []
    else
      History(ts[..|ts| - 1], claim) + (if ts[|ts| - 1].claim == claim then [ts[|ts| - 1].kind] else [])
  }

  /** The positions in the log of one claim's transitions. */
  function Positions(ts: seq<Transition>, claim: Hash): seq<nat> {
    if ts == [] then []
    else
      Positions(ts[..|ts| - 1], claim) + (if ts[|ts| - 1].claim == claim then [|ts| - 1] else [])
  }

  function Repeat(n: nat, k: nat): (s: seq<nat>) {
    seq(n, _ => k)
  }

  /** The claim filed once, was then adjudicated n times, and then ended as `tail` says. */
  predicate Shape(h: seq<nat>, n: nat, tail: seq<nat>) {
    && tail in {[], [RESOLVED], [RESOLVED, SEALED]}
    && h == [FILED] + Repeat(n, ADJUDICATED) + tail
  }

  /** A prefix of: Filed, any number of Adjudicated, Resolved, Sealed. */
  ghost predicate Orderly(h: seq<nat>) {
    h == [] || exists n: nat, tail :: Shape(h, n, tail)
  }

  /** The furthest kind of an orderly history. */
  ghost predicate FurthestIs(h: seq<nat>, furthest: Option<nat>) {
    if h == [] then furthest == None
    else furthest == Some(h[|h| - 1])
  }

  /** How often each kind was counted for a claim. */
  function Counted(st: LifeState, claim: Hash, kind: nat): nat {
    Lookup(Lookup(st.kinds, claim, map[]), kind, 0)
  }

  /** The maps of the state describe the transitions: every claim's history is orderly, its furthest
      kind is the last one, its sequence list is its positions, and each kind is counted. */
  ghost predicate Coherent(ts: seq<Transition>, st: LifeState, claim: Hash) {
    var h := History(ts, claim);
    && Orderly(h)
    && FurthestIs(h, Furthest(st, claim))
    && Lookup(st.claim, claim, []) == Positions(ts, claim)
    && (forall k :: Counted(st, claim, k) == multiset(h)[k])
  }

  /** The order gate admits exactly the kinds that keep a history orderly, among valid kinds. */
  lemma OrderGateExact(h: seq<nat>, furthest: Option<nat>, kind: nat)
    requires Orderly(h) && FurthestIs(h, furthest) && FILED <= kind <= SEALED
    ensures OrderError(furthest, kind).None? <==> Orderly(h + [kind])
  {
    if OrderError(furthest, kind).None? {
      AdmittedStaysOrderly(h, furthest, kind);
    }
    if Orderly(h + [kind]) {
      var n': nat, tail' :| Shape(h + [kind], n', tail');
      if h == [] {
        ShapeEnds([] + [kind], n', tail');
      } else {
        var n: nat, tail :| Shape(h, n, tail);
        ShapeSteps(h, n, tail, kind, n', tail');
      }
    }
  }

  lemma AdmittedStaysOrderly(h: seq<nat>, furthest: Option<nat>, kind: nat)
    requires Orderly(h) && FurthestIs(h, furthest) && FILED <= kind <= SEALED
    requires OrderError(furthest, kind).None?
    ensures Orderly(h + [kind])
  {
    if h == [] {
      assert Shape([] + [kind], 0, []);
    } else {
      var n: nat, tail :| Shape(h, n, tail);
      ShapeEnds(h, n, tail);
      if kind == ADJUDICATED {
        assert h + [kind] == [FILED] + Repeat(n + 1, ADJUDICATED) + [];
        assert Shape(h + [kind], n + 1, []);
      } else if kind == RESOLVED {
        assert tail == [];
        assert h + [kind] == [FILED] + Repeat(n, ADJUDICATED) + [RESOLVED];
        assert Shape(h + [kind], n, [RESOLVED]);
      } else {
        assert kind == SEALED && tail == [RESOLVED];
        assert h + [kind] == [FILED] + Repeat(n, ADJUDICATED) + [RESOLVED, SEALED];
        assert Shape(h + [kind], n, [RESOLVED, SEALED]);
      }
    }
  }

  lemma ShapeEnds(h: seq<nat>, n: nat, tail: seq<nat>)
    requires Shape(h, n, tail)
    ensures h[0] == FILED && |h| == 1 + n + |tail|
    ensures forall i :: 1 <= i < 1 + n ==> h[i] == ADJUDICATED
    ensures forall i :: 0 <= i < |tail| ==> h[1 + n + i] == tail[i]
  {
  }

  lemma ShapeSteps(h: seq<nat>, n: nat, tail: seq<nat>, kind: nat, n': nat, tail': seq<nat>)
    requires Shape(h, n, tail) && Shape(h + [kind], n', tail')
    ensures OrderError(Some(h[|h| - 1]), kind).None?
  {
    var g := h + [kind];
    ShapeEnds(h, n, tail);
    ShapeEnds(g, n', tail');
    assert g[|h|] == kind && g[|h| - 1] == h[|h| - 1];
    if tail' == [] {
      assert g[|g| - 1] == ADJUDICATED;
      assert |h| == 1 || g[|g| - 2] == ADJUDICATED;
    } else if tail' == [RESOLVED] {
      assert g[1 + n'] == RESOLVED;
      assert h[|h| - 1] == if n' == 0 then FILED else ADJUDICATED;
    } else {
      assert g[1 + n' + 1] == SEALED && g[1 + n'] == RESOLVED;
    }
  }

  lemma HistoryStep(ts: seq<Transition>, t: Transition, claim: Hash)
    ensures History(ts + [t], claim) == History(ts, claim) + (if t.claim == claim then [t.kind] else [])
    ensures Positions(ts + [t], claim) == Positions(ts, claim) + (if t.claim == claim then [|ts|] else [])
  {
    var all := ts + [t];
    assert all[..|all| - 1] == ts;
  }

  lemma FurthestStep(leafId: Transition -> Hash, st: LifeState, t: Transition, h: seq<nat>)
    requires Orderly(h) && FurthestIs(h, Furthest(st, t.claim)) && FILED <= t.kind <= SEALED
    requires OrderError(Furthest(st, t.claim), t.kind).None?
    ensures FurthestIs(h + [t.kind], Furthest(Admit(leafId, st, t), t.claim))
  {
    hide Orderly;
    if h != [] { FurthestRises(h, t.kind); }
  }

  lemma CountStep(leafId: Transition -> Hash, st: LifeState, t: Transition, claim: Hash, k: nat)
    ensures Counted(Admit(leafId, st, t), claim, k)
         == Counted(st, claim, k) + (if claim == t.claim && k == t.kind then 1 else 0)
  {
  }

  lemma OtherClaimUntouched(leafId: Transition -> Hash, st: LifeState, t: Transition, claim: Hash)
    requires claim != t.claim
    ensures Furthest(Admit(leafId, st, t), claim) == Furthest(st, claim)
    ensures Lookup(Admit(leafId, st, t).claim, claim, []) == Lookup(st.claim, claim, [])
  {
  }

  lemma CoherentStep(leafId: Transition -> Hash, id: Hash, ts: seq<Transition>, st: LifeState, t: Transition, claim: Hash)
    requires Coherent(ts, st, claim) && |st.leafs| == |ts| && Check(leafId, id, st, t).None?
    ensures Coherent(ts + [t], Admit(leafId, st, t), claim)
  {
    hide Orderly, History, Positions, Counted, FurthestIs, OrderError;
    HistoryStep(ts, t, claim);
    var h := History(ts, claim);
    var next := Admit(leafId, st, t);
    forall k: nat ensures Counted(next, claim, k) == multiset(History(ts + [t], claim))[k] {
      CountStep(leafId, st, t, claim, k);
    }
    if t.claim == claim {
      OrderGateExact(h, Furthest(st, claim), t.kind);
      FurthestStep(leafId, st, t, h);
    } else {
      assert h + [] == h && Positions(ts, claim) + [] == Positions(ts, claim);
      OtherClaimUntouched(leafId, st, t, claim);
    }
  }

  /** An admitted kind is never below the last one, and equal only when adjudication recurs. */
  lemma FurthestRises(h: seq<nat>, kind: nat)
    requires h != [] && OrderError(Some(h[|h| - 1]), kind).None? && FILED <= kind <= SEALED && Orderly(h)
    ensures kind > h[|h| - 1] || kind == ADJUDICATED == h[|h| - 1]
  {
    var n: nat, tail :| Shape(h, n, tail);
    ShapeEnds(h, n, tail);
  }

  /** Lifecycle order over every reachable log: whatever was appended, each claim's history is a
      prefix of Filed, any number of Adjudicated, Resolved, Sealed, and the maps say so exactly. */
  lemma {:induction false} EveryHistoryOrderly(leafId: Transition -> Hash, id: Hash, ts: seq<Transition>, claim: Hash)
    requires Replay(leafId, id, ts).Ok?
    ensures Coherent(ts, Replay(leafId, id, ts).value, claim)
    ensures |Replay(leafId, id, ts).value.leafs| == |ts|
  {
    if ts != [] {
      var front, t := ts[..|ts| - 1], ts[|ts| - 1];
      assert ts == front + [t];
      EveryHistoryOrderly(leafId, id, front, claim);
      CoherentStep(leafId, id, front, Replay(leafId, id, front).value, t, claim);
    }
  }

  lemma {:induction false} LeafOfTransition(leafId: Transition -> Hash, id: Hash, ts: seq<Transition>, i: nat)
    requires Replay(leafId, id, ts).Ok? && i < |ts|
    ensures var st := Replay(leafId, id, ts).value;
      |st.leafs| == |ts| && st.leafs[i] == leafId(ts[i]) && leafId(ts[i]) in st.index && st.index[leafId(ts[i])] == i
  {
    hide OrderError;
    var front := ts[..|ts| - 1];
    if i < |front| {
      LeafOfTransition(leafId, id, front, i);
    } else if front != [] {
      LeafOfTransition(leafId, id, front, 0);
    }
  }

  lemma {:induction false} TransitionOfLeaf(leafId: Transition -> Hash, id: Hash, ts: seq<Transition>, h: Hash)
    requires Replay(leafId, id, ts).Ok?
    ensures |Replay(leafId, id, ts).value.leafs| == |ts|
    ensures var index := Replay(leafId, id, ts).value.index;
      h in index ==> index[h] < |ts| && leafId(ts[index[h]]) == h
  {
    if ts != [] {
      TransitionOfLeaf(leafId, id, ts[..|ts| - 1], h);
    }
  }

  /** Leaves and index describe the transitions exactly: leaf i is that of transition i, it is indexed
      at i, and nothing else is indexed. */
  lemma IndexExact(leafId: Transition -> Hash, id: Hash, ts: seq<Transition>, h: Hash)
    requires Replay(leafId, id, ts).Ok?
    ensures |Replay(leafId, id, ts).value.leafs| == |ts|
    ensures var index := Replay(leafId, id, ts).value.index;
      h in index <==> exists i :: 0 <= i < |ts| && leafId(ts[i]) == h
    ensures var st := Replay(leafId, id, ts).value;
      forall i :: 0 <= i < |ts| ==> st.leafs[i] == leafId(ts[i]) && leafId(ts[i]) in st.index && st.index[leafId(ts[i])] == i
  {
    hide Replay;
    TransitionOfLeaf(leafId, id, ts, h);
    forall i | 0 <= i < |ts|
      ensures var st := Replay(leafId, id, ts).value;
        st.leafs[i] == leafId(ts[i]) && leafId(ts[i]) in st.index && st.index[leafId(ts[i])] == i
    {
      LeafOfTransition(leafId, id, ts, i);
    }
  }

  /** Every transition's claim is one the log has seen, and contributes its kind to that claim's
      history. */
  lemma {:induction false} ClaimSeen(leafId: Transition -> Hash, id: Hash, ts: seq<Transition>, i: nat)
    requires i < |ts|
    ensures ts[i].kind in History(ts, ts[i].claim)
  {
    var front := ts[..|ts| - 1];
    if i < |front| {
      ClaimSeen(leafId, id, front, i);
    }
  }

  /** A claim the log has not seen has no history, and one whose furthest kind is Filed has only
      filed. */
  lemma HistoryOfFurthest(leafId: Transition -> Hash, id: Hash, ts: seq<Transition>, claim: Hash)
    requires Replay(leafId, id, ts).Ok?
    ensures var k := Furthest(Replay(leafId, id, ts).value, claim);
      && (k == None ==> History(ts, claim) == [])
      && (k == Some(FILED) ==> History(ts, claim) == [FILED])
  {
    hide Replay, History, Positions, Counted;
    EveryHistoryOrderly(leafId, id, ts, claim);
    var h := History(ts, claim);
    if h != [] {
      var n: nat, tail :| Shape(h, n, tail);
      ShapeEnds(h, n, tail);
    }
  }

  /** Exactly which transition a log takes next, told by the transitions it holds: one for this log, of a known
      kind, about a claim and an exchange, with a new leaf, that keeps the claim's history orderly. */
  lemma TransitionAdmittedExactly(leafId: Transition -> Hash, id: Hash, ts: seq<Transition>, t: Transition)
    requires Replay(leafId, id, ts).Ok?
    ensures Replay(leafId, id, ts + [t]).Ok? <==>
      && t.log == id && FILED <= t.kind <= SEALED && t.claim != ZERO_HASH && t.exchange != ZERO_HASH
      && (forall i :: 0 <= i < |ts| ==> leafId(ts[i]) != leafId(t))
      && Orderly(History(ts, t.claim) + [t.kind])
  {
    ReplayStep(leafId, id, ts, t);
    IndexExact(leafId, id, ts, leafId(t));
    EveryHistoryOrderly(leafId, id, ts, t.claim);
    hide Replay, OrderError, Orderly, History, Admit;
    if FILED <= t.kind <= SEALED {
      OrderGateExact(History(ts, t.claim), Furthest(Replay(leafId, id, ts).value, t.claim), t.kind);
    }
  }
}
