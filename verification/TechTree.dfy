/** The technology tree of internal/techtree/tree.go: claims, typed references, and the builds_on
    graph that must stay acyclic. */
module TechTree {
  import opened Common

  datatype ClaimKind = Fact | Technique | ProductSpec | OtherClaim(name: string)

  datatype RefKind = BuildsOn | Cites | Contests | Reproduces | Refutes | OtherRef(name: string)

  datatype Claim = Claim(
    platform: string, claimant: Key, kind: ClaimKind, inputs: Hash, how: Hash, result: Hash,
    nonce: Hash, assertedAt: int, signature: Signature)

  datatype Reference = Reference(
    platform: string, asserter: Key, kind: RefKind, from: Hash, to: Hash, nonce: Hash, assertedAt: int,
    signature: Signature)

  /** A log entry as the source represents it: two optional parts, of which exactly one is set. */
  datatype Item = Item(claim: Option<Claim>, reference: Option<Reference>)

  /** ed25519 over canonical bytes, the two leaf hashes, and the chain fold. */
  datatype Crypto = Crypto(
    claimSigned: Claim -> bool,
    refSigned: Reference -> bool,
    claimId: Claim -> Hash,
    refId: Reference -> Hash,
    chain: (Hash, Hash) -> Hash)

  datatype TreeError =
    EmptyPlatform | WrongPlatform | NotSigned | UnknownClaim | NotAsserter | Cycle | Duplicate | BadItem

  predicate ClaimVerifies(cr: Crypto, c: Claim) {
    && c.platform != "" && !c.kind.OtherClaim?
    && |c.claimant| == KEY_SIZE && |c.signature| == SIGNATURE_SIZE
    && cr.claimSigned(c)
  }

  predicate RefVerifies(cr: Crypto, r: Reference) {
    && r.platform != "" && !r.kind.OtherRef? && r.from != r.to
    && |r.asserter| == KEY_SIZE && |r.signature| == SIGNATURE_SIZE
    && cr.refSigned(r)
  }

  // ------------------------------------------------------------------ the builds_on graph

  predicate IsEdge(it: Item, a: Hash, b: Hash) {
    && it.reference.Some? && it.reference.value.kind.BuildsOn?
    && it.reference.value.from == a && it.reference.value.to == b
  }

  /** Some accepted reference says a builds on b. */
  ghost predicate Edge(log: seq<Item>, a: Hash, b: Hash) {
    exists it :: it in log && IsEdge(it, a, b)
  }

  /** Consecutive claims of p are joined by builds_on edges. */
  ghost predicate Path(log: seq<Item>, p: seq<Hash>)
    decreases |p|
  {
    |p| >= 1 && (|p| >= 2 ==> Edge(log, p[0], p[1]) && Path(log, p[1..]))
  }

  ghost predicate PathFrom(log: seq<Item>, p: seq<Hash>, a: Hash, b: Hash) {
    Path(log, p) && p[0] == a && p[|p| - 1] == b
  }

  /** b is reached from a by following builds_on edges, zero or more. */
  ghost predicate Reaches(log: seq<Item>, a: Hash, b: Hash) {
    exists p :: PathFrom(log, p, a, b)
  }

  /** No claim builds on itself through any chain of at least one edge. */
  ghost predicate Acyclic(log: seq<Item>) {
    forall a, b :: Edge(log, a, b) ==> !Reaches(log, b, a)
  }

  lemma ReachesItself(log: seq<Item>, a: Hash)
    ensures Reaches(log, a, a)
  {
    assert PathFrom(log, [a], a, a);
  }

  lemma ReachesPrepend(log: seq<Item>, a: Hash, b: Hash, c: Hash)
    requires Edge(log, a, b) && Reaches(log, b, c)
    ensures Reaches(log, a, c)
  {
    var p :| PathFrom(log, p, b, c);
    var q := [a] + p;
    assert q[1..] == p;
    assert PathFrom(log, q, a, c);
  }

  lemma {:induction false} ReachesExtend(log: seq<Item>, p: seq<Hash>, a: Hash, b: Hash, c: Hash)
    requires PathFrom(log, p, a, b) && Reaches(log, b, c)
    ensures Reaches(log, a, c)
    decreases |p|
  {
    if |p| >= 2 {
      ReachesExtend(log, p[1..], p[1], b, c);
      ReachesPrepend(log, a, p[1], c);
    }
  }

  lemma ReachesTransitive(log: seq<Item>, a: Hash, b: Hash, c: Hash)
    requires Reaches(log, a, b) && Reaches(log, b, c)
    ensures Reaches(log, a, c)
  {
    var p :| PathFrom(log, p, a, b);
    ReachesExtend(log, p, a, b, c);
  }

  /** A set holding a and closed under edges holds everything a reaches. */
  lemma {:induction false} ClosedSetContains(log: seq<Item>, closed: set<Hash>, p: seq<Hash>)
    requires Path(log, p) && p[0] in closed
    requires forall x, y :: x in closed && Edge(log, x, y) ==> y in closed
    ensures p[|p| - 1] in closed
    decreases |p|
  {
    if |p| >= 2 {
      ClosedSetContains(log, closed, p[1..]);
    }
  }

  // ------------------------------------------------------------------ what adding does

  datatype TreeState = TreeState(
    platform: string, claims: map<Hash, Claim>, refs: map<Hash, Reference>, log: seq<Item>, head: Hash)

  function AddClaimTo(cr: Crypto, st: TreeState, c: Claim): Result<TreeState, TreeError> {
    if c.platform != st.platform then Err(WrongPlatform)
    else if !ClaimVerifies(cr, c) then Err(NotSigned)
    else if cr.claimId(c) in st.claims then Err(Duplicate)
    else Ok(st.(claims := st.claims[cr.claimId(c) := c],
                log := st.log + [Item(Some(c), None)],
                head := cr.chain(st.head, cr.claimId(c))))
  }

  /** The gates of AddReference; only builds_on edges are tested for closing a loop. */
  ghost function ReferenceError(cr: Crypto, st: TreeState, r: Reference): Option<TreeError> {
    if r.platform != st.platform then Some(WrongPlatform)
    else if !RefVerifies(cr, r) then Some(NotSigned)
    else if r.from !in st.claims || r.to !in st.claims then Some(UnknownClaim)
    else if r.asserter != st.claims[r.from].claimant then Some(NotAsserter)
    else if r.kind.BuildsOn? && Reaches(st.log, r.to, r.from) then Some(Cycle)
    else if cr.refId(r) in st.refs then Some(Duplicate)
    else None
  }

  function WithReference(cr: Crypto, st: TreeState, r: Reference): TreeState {
    st.(refs := st.refs[cr.refId(r) := r],
        log := st.log + [Item(None, Some(r))],
        head := cr.chain(st.head, cr.refId(r)))
  }

  ghost function AddItem(cr: Crypto, st: TreeState, it: Item): Result<TreeState, TreeError> {
    if it.claim.Some? && it.reference.Some? then Err(BadItem)
    else if it.claim.Some? then AddClaimTo(cr, st, it.claim.value)
    else if it.reference.Some? then
      if ReferenceError(cr, st, it.reference.value).Some? then Err(ReferenceError(cr, st, it.reference.value).value)
      else Ok(WithReference(cr, st, it.reference.value))
    else Err(BadItem)
  }

  /** What OpenLog makes of a list of items. */
  ghost function Rebuild(cr: Crypto, platform: string, items: seq<Item>): Result<TreeState, TreeError> {
    if platform == "" then Err(EmptyPlatform)
    else if items == [] then Ok(TreeState(platform, map[], map[], [], ZERO_HASH))
    else
      var before := Rebuild(cr, platform, items[..|items| - 1]);
      if before.Err? then before else AddItem(cr, before.value, items[|items| - 1])
  }

  lemma RebuildStep(cr: Crypto, platform: string, items: seq<Item>, it: Item)
    ensures Rebuild(cr, platform, items + [it]) ==
      var before := Rebuild(cr, platform, items);
      if before.Err? then before else AddItem(cr, before.value, it)
  {
    var all := items + [it];
    assert all[..|all| - 1] == items;
  }

  lemma {:induction false} RebuildStops(cr: Crypto, platform: string, items: seq<Item>, i: nat)
    requires i <= |items| && Rebuild(cr, platform, items[..i]).Err?
    ensures Rebuild(cr, platform, items) == Rebuild(cr, platform, items[..i])
  {
    if i == |items| {
      assert items[..i] == items;
    } else {
      assert items[..|items| - 1][..i] == items[..i];
      RebuildStops(cr, platform, items[..|items| - 1], i);
    }
  }

  /** The endpoints of every edge are claims of the tree, and the log is what was added. */
  ghost predicate WellFormed(st: TreeState, items: seq<Item>) {
    && st.log == items
    && (forall it :: it in st.log && it.reference.Some? ==>
          it.reference.value.from in st.claims && it.reference.value.to in st.claims)
  }

  lemma AddKeepsWellFormed(cr: Crypto, st: TreeState, items: seq<Item>, it: Item)
    requires WellFormed(st, items) && AddItem(cr, st, it).Ok?
    ensures WellFormed(AddItem(cr, st, it).value, items + [it])
    ensures AddItem(cr, st, it).value.platform == st.platform
  {
    hide Reaches;
    var next := AddItem(cr, st, it).value;
    assert next.log == st.log + [it];
    assert st.claims.Keys <= next.claims.Keys;
  }

  lemma {:induction false} RebuiltWellFormed(cr: Crypto, platform: string, items: seq<Item>)
    requires Rebuild(cr, platform, items).Ok?
    ensures WellFormed(Rebuild(cr, platform, items).value, items)
    ensures Rebuild(cr, platform, items).value.platform == platform
  {
    hide AddItem;
    if items != [] {
      var front, it := items[..|items| - 1], items[|items| - 1];
      RebuiltWellFormed(cr, platform, front);
      assert items == front + [it];
      AddKeepsWellFormed(cr, Rebuild(cr, platform, front).value, front, it);
    }
  }

  predicate IsClaim(cr: Crypto, it: Item, id: Hash) {
    it.claim.Some? && it.reference.None? && cr.claimId(it.claim.value) == id
  }

  predicate IsReference(cr: Crypto, it: Item, id: Hash) {
    it.reference.Some? && it.claim.None? && cr.refId(it.reference.value) == id
  }

  /** The claim and reference maps of a tree are exactly the indexes of its log. */
  ghost predicate Indexed(cr: Crypto, st: TreeState, id: Hash) {
    && (id in st.claims <==> exists it :: it in st.log && IsClaim(cr, it, id))
    && (forall it :: it in st.log && IsClaim(cr, it, id) ==> id in st.claims && st.claims[id] == it.claim.value)
    && (id in st.refs <==> exists it :: it in st.log && IsReference(cr, it, id))
    && (forall it :: it in st.log && IsReference(cr, it, id) ==> id in st.refs && st.refs[id] == it.reference.value)
  }

  lemma AddKeepsIndexed(cr: Crypto, st: TreeState, it: Item, id: Hash)
    requires Indexed(cr, st, id) && AddItem(cr, st, it).Ok?
    ensures Indexed(cr, AddItem(cr, st, it).value, id)
  {
    hide Reaches, ClaimVerifies, RefVerifies;
    var next := AddItem(cr, st, it).value;
    assert next.log == st.log + [it];
    assert it in next.log && forall x :: x in st.log ==> x in next.log;
    assert forall x :: x in next.log ==> x in st.log || x == it;
  }

  /** In every tree that can be built, the maps hold exactly the logged claims and references under
      their IDs, and no ID was logged for two different ones. */
  lemma {:induction false} IndexesExact(cr: Crypto, platform: string, items: seq<Item>, id: Hash)
    requires Rebuild(cr, platform, items).Ok?
    ensures Indexed(cr, Rebuild(cr, platform, items).value, id)
  {
    if items != [] {
      hide Indexed, AddItem;
      IndexesExact(cr, platform, items[..|items| - 1], id);
      AddKeepsIndexed(cr, Rebuild(cr, platform, items[..|items| - 1]).value, items[|items| - 1], id);
    }
  }

  /** The leaf IDs of the logged items, in order. */
  function LeafIds(cr: Crypto, items: seq<Item>): (ids: seq<Hash>)
    ensures |ids| == |items|
  {
    if items == [] then []
    else
      var it := items[|items| - 1];
      LeafIds(cr, items[..|items| - 1]) +
        [if it.claim.Some? then cr.claimId(it.claim.value) else if it.reference.Some? then cr.refId(it.reference.value) else ZERO_HASH]
  }

  /** A chain of digests: each link folds the next leaf into the head so far. */
  ghost predicate IsChain(cr: Crypto, heads: seq<Hash>, ids: seq<Hash>) {
    |heads| == |ids| + 1 && heads[0] == ZERO_HASH && forall i :: 0 <= i < |ids| ==> heads[i + 1] == cr.chain(heads[i], ids[i])
  }

  /** The head of every tree is the last link of the chain over its log, starting from zero. */
  lemma {:induction false} HeadIsChain(cr: Crypto, platform: string, items: seq<Item>) returns (heads: seq<Hash>)
    requires Rebuild(cr, platform, items).Ok?
    ensures IsChain(cr, heads, LeafIds(cr, items)) && heads[|items|] == Rebuild(cr, platform, items).value.head
  {
    if items == [] {
      heads := [ZERO_HASH];
    } else {
      hide Reaches, ClaimVerifies, RefVerifies;
      var front := HeadIsChain(cr, platform, items[..|items| - 1]);
      heads := front + [Rebuild(cr, platform, items).value.head];
    }
  }

  // ------------------------------------------------------------------ who may add what

  lemma RebuildOfPrefix(cr: Crypto, platform: string, items: seq<Item>, i: nat)
    requires i <= |items| && Rebuild(cr, platform, items).Ok?
    ensures Rebuild(cr, platform, items[..i]).Ok?
  {
    if Rebuild(cr, platform, items[..i]).Err? { RebuildStops(cr, platform, items, i); }
  }

  /** Some logged claim has this ID. */
  ghost predicate Claimed(cr: Crypto, items: seq<Item>, id: Hash) {
    exists it :: it in items && IsClaim(cr, it, id)
  }

  /** Some logged claim has this ID and was made under this key. */
  ghost predicate ClaimedBy(cr: Crypto, items: seq<Item>, id: Hash, key: Key) {
    exists it :: it in items && IsClaim(cr, it, id) && it.claim.value.claimant == key
  }

  /** Exactly which claim a tree takes next, told by its log: one for this platform, of a known kind, signed
      under a claimant key of the pinned length, with a new ID. */
  lemma ClaimAdmittedExactly(cr: Crypto, platform: string, items: seq<Item>, c: Claim)
    requires Rebuild(cr, platform, items).Ok?
    ensures Rebuild(cr, platform, items + [Item(Some(c), None)]).Ok? <==>
      && c.platform == platform && !c.kind.OtherClaim?
      && |c.claimant| == KEY_SIZE && |c.signature| == SIGNATURE_SIZE && cr.claimSigned(c)
      && !Claimed(cr, items, cr.claimId(c))
  {
    RebuildStep(cr, platform, items, Item(Some(c), None));
    RebuiltWellFormed(cr, platform, items);
    IndexesExact(cr, platform, items, cr.claimId(c));
    PlatformNamed(cr, platform, items);
    hide Rebuild, Reaches;
  }

  lemma PlatformNamed(cr: Crypto, platform: string, items: seq<Item>)
    requires Rebuild(cr, platform, items).Ok?
    ensures platform != ""
  {
  }

  /** Exactly which reference a tree takes next, told by its log: one for this platform, of a known kind, between
      two different logged claims, signed by the claimant of the claim it leaves from, with a new ID, and, if it
      builds on a claim, one that does not already lead back. */
  lemma ReferenceAdmittedExactly(cr: Crypto, platform: string, items: seq<Item>, r: Reference)
    requires Rebuild(cr, platform, items).Ok?
    ensures Rebuild(cr, platform, items + [Item(None, Some(r))]).Ok? <==>
      && r.platform == platform && !r.kind.OtherRef? && r.from != r.to
      && |r.asserter| == KEY_SIZE && |r.signature| == SIGNATURE_SIZE && cr.refSigned(r)
      && ClaimedBy(cr, items, r.from, r.asserter) && Claimed(cr, items, r.to)
      && (r.kind.BuildsOn? ==> !Reaches(items, r.to, r.from))
      && !exists it :: it in items && IsReference(cr, it, cr.refId(r))
  {
    RebuildStep(cr, platform, items, Item(None, Some(r)));
    RebuiltWellFormed(cr, platform, items);
    IndexesExact(cr, platform, items, r.from);
    IndexesExact(cr, platform, items, r.to);
    IndexesExact(cr, platform, items, cr.refId(r));
    PlatformNamed(cr, platform, items);
    var st := Rebuild(cr, platform, items).value;
    ReferencePasses(cr, st, r);
    ClaimantOf(cr, st, r.from, r.asserter);
    hide Rebuild, Reaches, ReferenceError, IsClaim, ClaimedBy;
  }

  lemma ReferencePasses(cr: Crypto, st: TreeState, r: Reference)
    ensures ReferenceError(cr, st, r).None? <==>
      && r.platform == st.platform && r.platform != "" && !r.kind.OtherRef? && r.from != r.to
      && |r.asserter| == KEY_SIZE && |r.signature| == SIGNATURE_SIZE && cr.refSigned(r)
      && r.from in st.claims && st.claims[r.from].claimant == r.asserter && r.to in st.claims
      && (r.kind.BuildsOn? ==> !Reaches(st.log, r.to, r.from)) && cr.refId(r) !in st.refs
  {
    hide Reaches;
  }

  lemma ClaimantOf(cr: Crypto, st: TreeState, id: Hash, key: Key)
    requires Indexed(cr, st, id)
    ensures id in st.claims && st.claims[id].claimant == key <==> ClaimedBy(cr, st.log, id, key)
  {
    if id in st.claims {
      var it :| it in st.log && IsClaim(cr, it, id);
      assert st.claims[id] == it.claim.value;
    }
  }

  /** In every tree, every reference was signed by the claimant of the claim it leaves from, and joins two claims
      that were there before it. */
  lemma ReferencesAuthored(cr: Crypto, platform: string, items: seq<Item>, i: nat)
    requires Rebuild(cr, platform, items).Ok? && i < |items| && items[i].reference.Some?
    ensures var r := items[i].reference.value;
      cr.refSigned(r) && r.platform == platform && ClaimedBy(cr, items[..i], r.from, r.asserter) && Claimed(cr, items[..i], r.to)
  {
    RebuildOfPrefix(cr, platform, items, i);
    RebuildOfPrefix(cr, platform, items, i + 1);
    assert items[..i + 1] == items[..i] + [items[i]];
    RebuildStep(cr, platform, items[..i], items[i]);
    OneOrOther(cr, Rebuild(cr, platform, items[..i]).value, items[i]);
    hide Rebuild;
    ReferenceAdmittedExactly(cr, platform, items[..i], items[i].reference.value);
  }

  lemma OneOrOther(cr: Crypto, st: TreeState, it: Item)
    requires AddItem(cr, st, it).Ok?
    ensures it.claim.Some? <==> it.reference.None?
  {
  }

  /** In every tree, every claim was signed under its claimant's key, for this platform. */
  lemma ClaimsSigned(cr: Crypto, platform: string, items: seq<Item>, i: nat)
    requires Rebuild(cr, platform, items).Ok? && i < |items| && items[i].claim.Some?
    ensures var c := items[i].claim.value;
      cr.claimSigned(c) && |c.claimant| == KEY_SIZE && c.platform == platform
  {
    RebuildOfPrefix(cr, platform, items, i);
    RebuildOfPrefix(cr, platform, items, i + 1);
    assert items[..i + 1] == items[..i] + [items[i]];
    RebuildStep(cr, platform, items[..i], items[i]);
    OneOrOther(cr, Rebuild(cr, platform, items[..i]).value, items[i]);
    hide Rebuild;
    ClaimAdmittedExactly(cr, platform, items[..i], items[i].claim.value);
  }

  // ------------------------------------------------------------------ acyclicity

  /** The only builds_on edge this item can be is the one from `from` to `to`. */
  ghost predicate AtMostEdge(it: Item, from: Hash, to: Hash) {
    forall a, b :: IsEdge(it, a, b) ==> a == from && b == to
  }

  /** A path over the log with one more item either avoids it, or the item is an edge and the path
      gets to its source and on from its target without it. */
  lemma {:induction false} PathSplits(log: seq<Item>, it: Item, from: Hash, to: Hash, p: seq<Hash>)
    requires AtMostEdge(it, from, to) && Path(log + [it], p)
    ensures Path(log, p)
         || (IsEdge(it, from, to) && Reaches(log, p[0], from) && Reaches(log, to, p[|p| - 1]))
    decreases |p|
  {
    if |p| >= 2 {
      PathSplits(log, it, from, to, p[1..]);
      if Edge(log, p[0], p[1]) {
        if !Path(log, p[1..]) { ReachesPrepend(log, p[0], p[1], from); }
      } else {
        var e :| e in log + [it] && IsEdge(e, p[0], p[1]);
        assert e == it;
        ReachesItself(log, from);
        if Path(log, p[1..]) { assert PathFrom(log, p[1..], to, p[|p| - 1]); }
      }
    }
  }

  /** Adding an edge whose target does not reach its source keeps the graph acyclic; adding anything
      that is not a builds_on edge always does. */
  lemma AddKeepsAcyclic(log: seq<Item>, it: Item, from: Hash, to: Hash)
    requires Acyclic(log) && AtMostEdge(it, from, to)
    requires IsEdge(it, from, to) ==> !Reaches(log, to, from)
    ensures Acyclic(log + [it])
  {
    forall a, b | Edge(log + [it], a, b) ensures !Reaches(log + [it], b, a) {
      if Reaches(log + [it], b, a) {
        var p :| PathFrom(log + [it], p, b, a);
        LoopWasThere(log, it, from, to, a, b, p);
      }
    }
  }

  /** A loop through the edge a, b in the extended log was already one in the log. */
  lemma LoopWasThere(log: seq<Item>, it: Item, from: Hash, to: Hash, a: Hash, b: Hash, p: seq<Hash>)
    requires AtMostEdge(it, from, to) && Edge(log + [it], a, b) && PathFrom(log + [it], p, b, a)
    ensures (IsEdge(it, from, to) && Reaches(log, to, from)) || (Edge(log, a, b) && Reaches(log, b, a))
  {
    PathSplits(log, it, from, to, p);
    if Path(log, p) {
      assert PathFrom(log, p, b, a);
      var e :| e in log + [it] && IsEdge(e, a, b);
    } else if Edge(log, a, b) {
      ReachesPrepend(log, a, b, from);
      ReachesTransitive(log, to, a, from);
    } else {
      var e :| e in log + [it] && IsEdge(e, a, b);
      assert e == it;
    }
  }

  lemma {:induction false} PathSurvives(log: seq<Item>, it: Item, p: seq<Hash>)
    requires Path(log, p)
    ensures Path(log + [it], p)
    decreases |p|
  {
    if |p| >= 2 {
      PathSurvives(log, it, p[1..]);
      var e :| e in log && IsEdge(e, p[0], p[1]);
      assert e in log + [it];
    }
  }

  /** The test is exact: over an acyclic log, the edges that keep the graph acyclic are just those
      whose target does not already reach their source. */
  lemma CycleTestExact(log: seq<Item>, r: Reference)
    requires Acyclic(log) && r.kind.BuildsOn?
    ensures Acyclic(log + [Item(None, Some(r))]) <==> !Reaches(log, r.to, r.from)
  {
    var it := Item(None, Some(r));
    if Reaches(log, r.to, r.from) {
      var p :| PathFrom(log, p, r.to, r.from);
      PathSurvives(log, it, p);
      assert PathFrom(log + [it], p, r.to, r.from);
      assert it in log + [it] && IsEdge(it, r.from, r.to);
      assert Edge(log + [it], r.from, r.to);
    } else {
      AddKeepsAcyclic(log, it, r.from, r.to);
    }
  }

  /** Every tree that can be built, through any sequence of additions, has an acyclic builds_on
      graph. */
  lemma {:induction false} EveryTreeAcyclic(cr: Crypto, platform: string, items: seq<Item>)
    requires Rebuild(cr, platform, items).Ok?
    ensures Acyclic(Rebuild(cr, platform, items).value.log)
  {
    if items != [] {
      var front, it := items[..|items| - 1], items[|items| - 1];
      EveryTreeAcyclic(cr, platform, front);
      RebuiltWellFormed(cr, platform, front);
      RebuiltWellFormed(cr, platform, items);
      assert items == front + [it];
      if it.reference.Some? {
        AddKeepsAcyclic(front, it, it.reference.value.from, it.reference.value.to);
      } else {
        AddKeepsAcyclic(front, it, ZERO_HASH, ZERO_HASH);
      }
    }
  }

  // ------------------------------------------------------------------ the tree

  /** The claims that could ever be on the search stack. */
  ghost function Universe(log: seq<Item>, start: Hash): set<Hash> {
    {start} + (set it | it in log && it.reference.Some? :: it.reference.value.to)
  }

  /** Everything the search has met is reached from the start, and what it has left is ahead of it. */
  ghost predicate Searching(log: seq<Item>, start: Hash, target: Hash, seen: set<Hash>, stack: seq<Hash>) {
    && (forall x :: x in seen || x in stack ==> x != target && x in Universe(log, start) && Reaches(log, start, x))
    && (start in seen || start in stack)
  }

  /** Each edge out of a finished claim leads to something met. */
  ghost predicate Expanded(log: seq<Item>, done: set<Hash>, seen: set<Hash>, stack: seq<Hash>) {
    forall x, y :: x in done && Edge(log, x, y) ==> y in seen || y in stack
  }

  lemma ReachesAppend(log: seq<Item>, a: Hash, b: Hash, c: Hash)
    requires Reaches(log, a, b) && Edge(log, b, c)
    ensures Reaches(log, a, c)
  {
    ReachesItself(log, c);
    ReachesPrepend(log, b, c, c);
    ReachesTransitive(log, a, b, c);
  }

  lemma SearchStarts(log: seq<Item>, start: Hash, target: Hash)
    requires start != target
    ensures Searching(log, start, target, {}, [start]) && Expanded(log, {}, {}, [start])
  {
    ReachesItself(log, start);
  }

  /** Taking the top claim off the stack and marking it seen keeps the search going. */
  lemma SearchPops(log: seq<Item>, start: Hash, target: Hash, seen: set<Hash>, stack: seq<Hash>, n: Hash)
    requires Searching(log, start, target, seen, stack + [n]) && Expanded(log, seen, seen, stack + [n])
    ensures n in Universe(log, start)
    ensures Searching(log, start, target, seen + {n}, stack) && Expanded(log, seen, seen + {n}, stack)
    ensures n in seen ==> Searching(log, start, target, seen, stack) && Expanded(log, seen, seen, stack)
  {
    assert forall x :: x in stack + [n] <==> x in stack || x == n;
    assert n in seen ==> seen + {n} == seen;
  }

  /** Pushing the target of an edge out of a seen claim keeps the search going. */
  lemma SearchPushes(log: seq<Item>, start: Hash, target: Hash, done: set<Hash>, seen: set<Hash>, stack: seq<Hash>,
                     it: Item, n: Hash, to: Hash)
    requires Searching(log, start, target, seen, stack) && Expanded(log, done, seen, stack)
    requires it in log && IsEdge(it, n, to) && n in seen
    ensures Reaches(log, start, to)
    ensures to != target ==> Searching(log, start, target, seen, stack + [to])
    ensures Expanded(log, done, seen, stack + [to])
  {
    assert Edge(log, n, to);
    ReachesAppend(log, start, n, to);
  }

  /** A claim all of whose edges have been pushed is expanded. */
  lemma SearchExpands(log: seq<Item>, done: set<Hash>, seen: set<Hash>, stack: seq<Hash>, n: Hash)
    requires Expanded(log, done, seen, stack) && seen == done + {n}
    requires forall y, it :: it in log && IsEdge(it, n, y) ==> y in stack
    ensures Expanded(log, seen, seen, stack)
  {
  }

  /** A search that has run dry without meeting the target proves there is no path to it. */
  lemma SearchExhausted(log: seq<Item>, start: Hash, target: Hash, seen: set<Hash>)
    requires Searching(log, start, target, seen, []) && Expanded(log, seen, seen, [])
    ensures !Reaches(log, start, target)
  {
    if Reaches(log, start, target) {
      var p :| PathFrom(log, p, start, target);
      ClosedSetContains(log, seen, p);
    }
  }

  class Tree {
    const cr: Crypto
    const platform: string
    var claims: map<Hash, Claim>
    var refs: map<Hash, Reference>
    var log: seq<Item>
    var head: Hash

    ghost function State(): TreeState reads this {
      TreeState(platform, claims, refs, log, head)
    }

    /** The tree is what its own log rebuilds to. */
    ghost predicate Valid() reads this {
      Rebuild(cr, platform, log) == Ok(State())
    }

    constructor (cr: Crypto, platform: string)
      requires platform != ""
      ensures Valid() && log == [] && this.cr == cr && this.platform == platform
    {
      this.cr, this.platform := cr, platform;
      claims, refs, log, head := map[], map[], [], ZERO_HASH;
    }

    method AddClaim(c: Claim) returns (r: Result<Hash, TreeError>)
      requires Valid()
      modifies this
      ensures Valid()
      ensures r.Ok? ==> AddClaimTo(cr, old(State()), c) == Ok(State()) && r.value == cr.claimId(c)
      ensures r.Err? ==> AddClaimTo(cr, old(State()), c) == Err(r.error) && State() == old(State())
    {
      if c.platform != platform {
        return Err(WrongPlatform);
      }
      if !ClaimVerifies(cr, c) {
        return Err(NotSigned);
      }
      var id := cr.claimId(c);
      if id in claims {
        return Err(Duplicate);
      }
      RebuildStep(cr, platform, log, Item(Some(c), None));
      claims := claims[id := c];
      log := log + [Item(Some(c), None)];
      head := cr.chain(head, id);
      return Ok(id);
    }

    /** The stack search answers true exactly when a path of builds_on edges exists. */
    method BuildsOnReaches(start: Hash, target: Hash) returns (found: bool)
      ensures found <==> Reaches(log, start, target)
    {
      ReachesItself(log, start);
      if start == target {
        return true;
      }
      var seen: set<Hash> := {};
      var stack := [start];
      hide Searching, Expanded, Reaches, Universe;
      assert Searching(log, start, target, seen, stack) && Expanded(log, seen, seen, stack) by {
        SearchStarts(log, start, target);
      }
      while |stack| > 0
        invariant Searching(log, start, target, seen, stack) && Expanded(log, seen, seen, stack)
        decreases Universe(log, start) - seen, |stack|
      {
        var n := stack[|stack| - 1];
        assert stack == stack[..|stack| - 1] + [n];
        stack := stack[..|stack| - 1];
        SearchPops(log, start, target, seen, stack, n);
        if n in seen {
          continue;
        }
        ghost var done := seen;
        seen := seen + {n};
        for i := 0 to |log|
          invariant Searching(log, start, target, seen, stack) && Expanded(log, done, seen, stack)
          invariant forall y, it :: it in log[..i] && IsEdge(it, n, y) ==> y in stack
        {
          var it := log[i];
          assert log[..i + 1] == log[..i] + [it];
          if it.reference.None? || !it.reference.value.kind.BuildsOn? || it.reference.value.from != n {
            continue;
          }
          var to := it.reference.value.to;
          SearchPushes(log, start, target, done, seen, stack, it, n, to);
          if to == target {
            return true;
          }
          stack := stack + [to];
        }
        assert log[..|log|] == log;
        SearchExpands(log, done, seen, stack, n);
      }
      SearchExhausted(log, start, target, seen);
      return false;
    }

    method AddReference(r: Reference) returns (res: Result<Hash, TreeError>)
      requires Valid()
      modifies this
      ensures Valid()
      ensures res.Ok? ==> ReferenceError(cr, old(State()), r) == None && State() == WithReference(cr, old(State()), r)
      ensures res.Ok? ==> res.value == cr.refId(r)
      ensures res.Ok? ==> cr.refSigned(r) && r.from in old(claims) && old(claims)[r.from].claimant == r.asserter && r.to in old(claims)
      ensures res.Err? ==> ReferenceError(cr, old(State()), r) == Some(res.error) && State() == old(State())
    {
      if r.platform != platform {
        return Err(WrongPlatform);
      }
      if !RefVerifies(cr, r) {
        return Err(NotSigned);
      }
      if r.from !in claims || r.to !in claims {
        return Err(UnknownClaim);
      }
      if r.asserter != claims[r.from].claimant {
        return Err(NotAsserter);
      }
      if r.kind.BuildsOn? {
        var loops := BuildsOnReaches(r.to, r.from);
        if loops {
          return Err(Cycle);
        }
      }
      var id := cr.refId(r);
      if id in refs {
        return Err(Duplicate);
      }
      RebuildStep(cr, platform, log, Item(None, Some(r)));
      refs := refs[id := r];
      log := log + [Item(None, Some(r))];
      head := cr.chain(head, id);
      return Ok(id);
    }
  }

  /** OpenLog: succeeds exactly when the items rebuild, and then the tree is what they rebuild to,
      head included. A tree that lived is what its own log rebuilds to, so it reopens unchanged. */
  method OpenLog(cr: Crypto, platform: string, items: seq<Item>) returns (r: Result<Tree, TreeError>)
    ensures r.Ok? <==> Rebuild(cr, platform, items).Ok?
    ensures r.Ok? ==> fresh(r.value) && r.value.Valid() && Rebuild(cr, platform, items) == Ok(r.value.State())
    ensures r.Err? ==> Rebuild(cr, platform, items) == Err(r.error)
  {
    if platform == "" {
      return Err(EmptyPlatform);
    }
    var t := new Tree(cr, platform);
    for i := 0 to |items|
      invariant fresh(t) && t.cr == cr && t.platform == platform && t.Valid()
      invariant Rebuild(cr, platform, items[..i]) == Ok(t.State())
    {
      var it := items[i];
      assert items[..i + 1] == items[..i] + [it];
      RebuildStep(cr, platform, items[..i], it);
      var refused: Option<TreeError> := None;
      if it.claim.Some? && it.reference.Some? {
        refused := Some(BadItem);
      } else if it.claim.Some? {
        var added := t.AddClaim(it.claim.value);
        if added.Err? { refused := Some(added.error); }
      } else if it.reference.Some? {
        var added := t.AddReference(it.reference.value);
        if added.Err? { refused := Some(added.error); }
      } else {
        refused := Some(BadItem);
      }
      if refused.Some? {
        RebuildStops(cr, platform, items, i + 1);
        return Err(refused.value);
      }
    }
    assert items[..|items|] == items;
    return Ok(t);
  }
}
