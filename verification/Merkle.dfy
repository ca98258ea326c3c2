/** The RFC 6962 tree of internal/record/tree.go.

    The interior-node hash is a parameter of everything here, so each theorem holds for every
    hash function. Soundness is stated in extraction form: whenever a verifier accepts a proof
    that is not the honest one, a function of the transcript returns two different child pairs
    with the same node hash. */
module Merkle {
  import opened Common

  type NodeHash = (Hash, Hash) -> Hash

  /** Two child pairs claimed to collide under the node hash. */
  datatype Clash = Clash(left: (Hash, Hash), right: (Hash, Hash))

  predicate IsClash(node: NodeHash, c: Clash) {
    c.left != c.right && node(c.left.0, c.left.1) == node(c.right.0, c.right.1)
  }

  // ------------------------------------------------------------------ tree shape

  function Pow2(e: nat): (p: nat)
    ensures p >= 1
  {
    if e == 0 then 1 else 2 * Pow2(e - 1)
  }

  /** k is a power of two with k < n <= 2k: the largest one strictly below n. */
  ghost predicate SplitsAt(k: nat, n: nat) {
    k < n <= 2 * k && exists e: nat :: k == Pow2(e)
  }

  function Climb(k: nat, n: nat): (r: nat)
    requires 1 <= k < n
    ensures k <= r < n <= 2 * r
    decreases n - k
  {
    if 2 * k < n then Climb(2 * k, n) else k
  }

  function Split(n: nat): (k: nat)
    requires n >= 2
    ensures 1 <= k < n <= 2 * k
  {
    Climb(1, n)
  }

  lemma {:induction false} ClimbCorrect(e: nat, n: nat)
    requires Pow2(e) < n
    ensures SplitsAt(Climb(Pow2(e), n), n)
    decreases n - Pow2(e)
  {
    if Pow2(e + 1) < n {
      ClimbCorrect(e + 1, n);
    }
  }

  lemma SplitCorrect(n: nat)
    requires n >= 2
    ensures SplitsAt(Split(n), n)
  {
    ClimbCorrect(0, n);
  }

  lemma {:induction false} Pow2Gap(e: nat, f: nat)
    requires e < f
    ensures 2 * Pow2(e) <= Pow2(f)
  {
    if e + 1 < f {
      Pow2Gap(e, f - 1);
    }
  }

  /** At most one power of two splits n. */
  lemma SplitUnique(k: nat, j: nat, n: nat)
    requires SplitsAt(k, n) && SplitsAt(j, n)
    ensures k == j
  {
    var e: nat :| k == Pow2(e);
    var f: nat :| j == Pow2(f);
    if e < f {
      Pow2Gap(e, f);
    } else if f < e {
      Pow2Gap(f, e);
    }
  }

  /** A tree and any prefix of it that reaches into the right subtree split at the same point. */
  lemma SplitOfPrefix(m: nat, n: nat)
    requires 2 <= n && Split(n) < m <= n
    ensures Split(m) == Split(n)
  {
    SplitCorrect(m);
    SplitCorrect(n);
    SplitUnique(Split(m), Split(n), m);
  }

  /** `k << 1` on uint64. */
  function Shl1(k: nat): nat {
    2 * k % TWO_64
  }

  /** The shifting loop, in its own 64-bit arithmetic, finds the split of every size up to 2^63. */
  method LargestPow2LT(n: nat) returns (k: nat)
    requires 2 <= n <= TWO_63
    ensures k == Split(n)
  {
    k := 1;
    ghost var e := 0;
    while Shl1(k) < n
      invariant k == Pow2(e) && k < n
      decreases n - k
    {
      k := Shl1(k);
      e := e + 1;
    }
    assert SplitsAt(k, n);
    SplitCorrect(n);
    SplitUnique(k, Split(n), n);
  }

  /** The loop variable after i laps. */
  function Shifted(i: nat): nat {
    if i == 0 then 1 else Shl1(Shifted(i - 1))
  }

  lemma {:induction false} ShiftedIsPow2(i: nat)
    ensures i < 64 ==> Shifted(i) == Pow2(i) < TWO_64
    ensures i >= 64 ==> Shifted(i) == 0
    decreases i
  {
    if i > 0 {
      ShiftedIsPow2(i - 1);
      if i < 64 {
        Pow2Of63();
        if i < 63 { Pow2Gap(i, 63); }
      } else if i == 64 {
        Pow2Of63();
      }
    }
  }

  lemma Pow2Of63()
    ensures Pow2(63) == TWO_63
  {
    assert Pow2(8) == 0x100;
    assert Pow2(16) == 0x1_0000;
    assert Pow2(24) == 0x100_0000;
    assert Pow2(32) == 0x1_0000_0000;
    assert Pow2(40) == 0x100_0000_0000;
    assert Pow2(48) == 0x1_0000_0000_0000;
    assert Pow2(56) == 0x100_0000_0000_0000;
  }

  /** The shifting loop leaves on some lap. */
  ghost predicate SplitReturns(n: nat) {
    exists i: nat :: Shl1(Shifted(i)) >= n
  }

  /** Exactly when the shifting loop ever leaves: some lap finds the guard false if and only if
      the size is at most 2^63. Above that the variable shifts out to zero and stays there. */
  lemma ShiftLoopLeavesExactly(n: nat)
    requires 2 <= n < TWO_64
    ensures SplitReturns(n) <==> n <= TWO_63
  {
    Pow2Of63();
    if n <= TWO_63 {
      ShiftedIsPow2(62);
      assert Shl1(Shifted(62)) >= n;
    } else {
      forall i: nat ensures Shl1(Shifted(i)) < n {
        ShiftedIsPow2(i + 1);
        if i + 1 < 63 { Pow2Gap(i + 1, 63); }
      }
    }
  }

  // ------------------------------------------------------------------ heads and proofs
  // A Go subslice of the leaves is a window [lo, lo + n) of the one leaf sequence.

  /** The Merkle tree head over the nonempty window [lo, lo + n). */
  function Mth(node: NodeHash, leaves: seq<Hash>, lo: nat, n: nat): Hash
    requires 0 < n && lo + n <= |leaves|
    decreases n
  {
    if n == 1 then leaves[lo]
    else
      var k := Split(n);
      node(Mth(node, leaves, lo, k), Mth(node, leaves, lo + k, n - k))
  }

  /** The head over a whole nonempty leaf sequence. */
  function Head(node: NodeHash, leaves: seq<Hash>): Hash
    requires leaves != []
  {
    Mth(node, leaves, 0, |leaves|)
  }

  /** The audit path of the m-th leaf of the window: sibling heads, leaf-adjacent first,
      root-adjacent last. */
  function ProvePath(node: NodeHash, m: nat, leaves: seq<Hash>, lo: nat, n: nat): seq<Hash>
    requires m < n && lo + n <= |leaves|
    decreases n
  {
    if n == 1 then []
    else
      var k := Split(n);
      if m < k then ProvePath(node, m, leaves, lo, k) + [Mth(node, leaves, lo + k, n - k)]
      else ProvePath(node, m - k, leaves, lo + k, n - k) + [Mth(node, leaves, lo, k)]
  }

  /** The head implied by putting `leaf` at index `i` of a `size`-leaf tree with this audit path. */
  function RootFromPath(node: NodeHash, leaf: Hash, i: nat, size: nat, path: seq<Hash>): Option<Hash>
    decreases |path|
  {
    if size == 0 || i >= size then None
    else if size == 1 then
      if path != [] then None else Some(leaf)
    else if path == [] then None
    else
      var k := Split(size);
      var sibling := path[|path| - 1];
      var rest := path[..|path| - 1];
      if i < k then
        match RootFromPath(node, leaf, i, k, rest)
        case None => None
        case Some(sub) => Some(node(sub, sibling))
      else
        match RootFromPath(node, leaf, i - k, size - k, rest)
        case None => None
        case Some(sub) => Some(node(sibling, sub))
  }

  function SubProof(node: NodeHash, m: nat, leaves: seq<Hash>, lo: nat, n: nat, complete: bool): seq<Hash>
    requires 0 < m <= n && lo + n <= |leaves|
    decreases n
  {
    if m == n then
      if complete then [] else [Mth(node, leaves, lo, n)]
    else
      var k := Split(n);
      if m <= k then SubProof(node, m, leaves, lo, k, complete) + [Mth(node, leaves, lo + k, n - k)]
      else SubProof(node, m - k, leaves, lo + k, n - k, false) + [Mth(node, leaves, lo, k)]
  }

  /** The honest consistency proof from the first m leaves to all of them. */
  function ProveConsistency(node: NodeHash, m: nat, leaves: seq<Hash>): seq<Hash>
    requires 0 < m <= |leaves|
  {
    SubProof(node, m, leaves, 0, |leaves|, true)
  }

  /** What a consistency proof recomputes: the two heads and the part of the proof not used. */
  datatype Roots = Roots(older: Hash, newer: Hash, rest: seq<Hash>)

  /** consRoots: the proof is consumed from its root-adjacent end. The source reaches n < 2 only
      with m == 0, which its one caller rules out before calling. */
  function ConsRoots(node: NodeHash, m: nat, n: nat, complete: bool, proof: seq<Hash>, seed: Hash)
    : Option<Roots>
    requires 0 < m
    decreases |proof|
  {
    if m == n then
      if complete then Some(Roots(seed, seed, proof))
      else if proof == [] then None
      else Some(Roots(proof[|proof| - 1], proof[|proof| - 1], proof[..|proof| - 1]))
    else if m > n || proof == [] then None
    else
      var k := Split(n);
      var last := proof[|proof| - 1];
      var rest := proof[..|proof| - 1];
      if m <= k then
        match ConsRoots(node, m, k, complete, rest, seed)
        case None => None
        case Some(sub) => Some(Roots(sub.older, node(sub.newer, last), sub.rest))
      else
        match ConsRoots(node, m - k, n - k, false, rest, seed)
        case None => None
        case Some(sub) => Some(Roots(node(last, sub.older), node(last, sub.newer), sub.rest))
  }

  // ------------------------------------------------------------------ heads

  /** A head depends only on the leaves inside its window. */
  lemma {:induction false} MthIsLocal(node: NodeHash, a: seq<Hash>, b: seq<Hash>, lo: nat, n: nat)
    requires 0 < n && lo + n <= |a| && lo + n <= |b|
    requires forall i :: lo <= i < lo + n ==> a[i] == b[i]
    ensures Mth(node, a, lo, n) == Mth(node, b, lo, n)
    decreases n
  {
    if n > 1 {
      var k := Split(n);
      MthIsLocal(node, a, b, lo, k);
      MthIsLocal(node, a, b, lo + k, n - k);
    }
  }

  lemma HeadOfPrefix(node: NodeHash, leaves: seq<Hash>, m: nat)
    requires 0 < m <= |leaves|
    ensures Head(node, leaves[..m]) == Mth(node, leaves, 0, m)
  {
    MthIsLocal(node, leaves[..m], leaves, 0, m);
  }

  /** Looks for the collision behind two leaf windows with one head. */
  function AuditHeads(node: NodeHash, a: seq<Hash>, b: seq<Hash>, lo: nat, n: nat): Option<Clash>
    requires 0 < n && lo + n <= |a| && lo + n <= |b|
    decreases n
  {
    if n == 1 then None
    else
      var k := Split(n);
      var x := (Mth(node, a, lo, k), Mth(node, a, lo + k, n - k));
      var y := (Mth(node, b, lo, k), Mth(node, b, lo + k, n - k));
      if x != y then Some(Clash(x, y))
      else
        var left := AuditHeads(node, a, b, lo, k);
        if left.Some? then left else AuditHeads(node, a, b, lo + k, n - k)
  }

  /** Two leaf windows with one head hold the same leaves, or the audit returns a genuine collision. */
  lemma {:induction false} HeadsSound(node: NodeHash, a: seq<Hash>, b: seq<Hash>, lo: nat, n: nat)
    requires 0 < n && lo + n <= |a| && lo + n <= |b|
    requires Mth(node, a, lo, n) == Mth(node, b, lo, n)
    ensures match AuditHeads(node, a, b, lo, n)
      case None => forall i :: lo <= i < lo + n ==> a[i] == b[i]
      case Some(c) => IsClash(node, c)
    decreases n
  {
    hide Split;
    if n > 1 {
      var k := Split(n);
      if Mth(node, a, lo, k) == Mth(node, b, lo, k) && Mth(node, a, lo + k, n - k) == Mth(node, b, lo + k, n - k) {
        HeadsSound(node, a, b, lo, k);
        HeadsSound(node, a, b, lo + k, n - k);
      }
    }
  }

  // ------------------------------------------------------------------ inclusion

  /** One step of RootFromPath. */
  lemma RootFromPathStep(node: NodeHash, leaf: Hash, m: nat, n: nat, rest: seq<Hash>, sibling: Hash, sub: Hash)
    requires 2 <= n && m < n
    requires if m < Split(n) then RootFromPath(node, leaf, m, Split(n), rest) == Some(sub)
             else RootFromPath(node, leaf, m - Split(n), n - Split(n), rest) == Some(sub)
    ensures RootFromPath(node, leaf, m, n, rest + [sibling])
         == Some(if m < Split(n) then node(sub, sibling) else node(sibling, sub))
  {
    hide Split;
    var path := rest + [sibling];
    assert path[..|path| - 1] == rest;
  }

  /** Every honest audit path recomputes the head. */
  lemma {:induction false} InclusionComplete(node: NodeHash, m: nat, leaves: seq<Hash>, lo: nat, n: nat)
    requires m < n && lo + n <= |leaves|
    ensures RootFromPath(node, leaves[lo + m], m, n, ProvePath(node, m, leaves, lo, n))
         == Some(Mth(node, leaves, lo, n))
    decreases n
  {
    hide Split, RootFromPath;
    if n > 1 {
      var k := Split(n);
      var left, right := Mth(node, leaves, lo, k), Mth(node, leaves, lo + k, n - k);
      if m < k {
        InclusionComplete(node, m, leaves, lo, k);
        RootFromPathStep(node, leaves[lo + m], m, n, ProvePath(node, m, leaves, lo, k), right, left);
      } else {
        InclusionComplete(node, m - k, leaves, lo + k, n - k);
        RootFromPathStep(node, leaves[lo + m], m, n, ProvePath(node, m - k, leaves, lo + k, n - k), left, right);
      }
    } else {
      SingleLeafRoot(node, leaves[lo + m]);
    }
  }

  lemma SingleLeafRoot(node: NodeHash, leaf: Hash)
    ensures RootFromPath(node, leaf, 0, 1, []) == Some(leaf)
  {
  }

  /** Audits an accepted inclusion proof against the leaves that make the head, looking for a
      collision of the node hash on the way down. */
  function AuditInclusion(node: NodeHash, leaf: Hash, m: nat, leaves: seq<Hash>, lo: nat, n: nat, path: seq<Hash>)
    : Option<Clash>
    requires 0 < n && lo + n <= |leaves|
    decreases n
  {
    if n == 1 || path == [] then None
    else
      var k := Split(n);
      var sibling := path[|path| - 1];
      var rest := path[..|path| - 1];
      var honest := (Mth(node, leaves, lo, k), Mth(node, leaves, lo + k, n - k));
      if m < k then
        match RootFromPath(node, leaf, m, k, rest)
        case None => None
        case Some(sub) =>
          if (sub, sibling) != honest then Some(Clash((sub, sibling), honest))
          else AuditInclusion(node, leaf, m, leaves, lo, k, rest)
      else
        match RootFromPath(node, leaf, m - k, n - k, rest)
        case None => None
        case Some(sub) =>
          if (sibling, sub) != honest then Some(Clash((sibling, sub), honest))
          else AuditInclusion(node, leaf, m - k, leaves, lo + k, n - k, rest)
  }

  /** The audit's finding: a genuine collision, or the honest leaf and path. */
  predicate InclusionAuditHolds(node: NodeHash, leaf: Hash, m: nat, leaves: seq<Hash>, lo: nat, n: nat, path: seq<Hash>)
    requires m < n && lo + n <= |leaves|
  {
    match AuditInclusion(node, leaf, m, leaves, lo, n, path)
    case None => leaf == leaves[lo + m] && path == ProvePath(node, m, leaves, lo, n)
    case Some(c) => IsClash(node, c)
  }

  lemma InclusionAuditLeft(node: NodeHash, leaf: Hash, m: nat, leaves: seq<Hash>, lo: nat, n: nat,
                           rest: seq<Hash>, sibling: Hash, sub: Hash)
    requires 2 <= n && lo + n <= |leaves| && m < Split(n)
    requires RootFromPath(node, leaf, m, Split(n), rest) == Some(sub)
    requires node(sub, sibling) == Mth(node, leaves, lo, n)
    requires sub == Mth(node, leaves, lo, Split(n)) ==>
               InclusionAuditHolds(node, leaf, m, leaves, lo, Split(n), rest)
    ensures InclusionAuditHolds(node, leaf, m, leaves, lo, n, rest + [sibling])
  {
    hide Split;
    var path := rest + [sibling];
    assert path[..|path| - 1] == rest;
  }

  lemma InclusionAuditRight(node: NodeHash, leaf: Hash, m: nat, leaves: seq<Hash>, lo: nat, n: nat,
                            rest: seq<Hash>, sibling: Hash, sub: Hash)
    requires 2 <= n && lo + n <= |leaves| && Split(n) <= m < n
    requires RootFromPath(node, leaf, m - Split(n), n - Split(n), rest) == Some(sub)
    requires node(sibling, sub) == Mth(node, leaves, lo, n)
    requires sub == Mth(node, leaves, lo + Split(n), n - Split(n)) ==>
               InclusionAuditHolds(node, leaf, m - Split(n), leaves, lo + Split(n), n - Split(n), rest)
    ensures InclusionAuditHolds(node, leaf, m, leaves, lo, n, rest + [sibling])
  {
    hide Split;
    var path := rest + [sibling];
    assert path[..|path| - 1] == rest;
  }

  /** Soundness: an accepted leaf is the one at that index and its path is the honest path, or the
      audit returns a genuine collision. */
  lemma {:induction false} InclusionSound(node: NodeHash, leaf: Hash, m: nat, leaves: seq<Hash>, lo: nat, n: nat,
                                          path: seq<Hash>)
    requires 0 < n && lo + n <= |leaves|
    requires RootFromPath(node, leaf, m, n, path) == Some(Mth(node, leaves, lo, n))
    ensures m < n
    ensures InclusionAuditHolds(node, leaf, m, leaves, lo, n, path)
    decreases n
  {
    hide Split;
    if n > 1 {
      var k := Split(n);
      var sibling := path[|path| - 1];
      var rest := path[..|path| - 1];
      assert path == rest + [sibling];
      if m < k {
        var sub := RootFromPath(node, leaf, m, k, rest).value;
        if sub == Mth(node, leaves, lo, k) {
          InclusionSound(node, leaf, m, leaves, lo, k, rest);
        }
        InclusionAuditLeft(node, leaf, m, leaves, lo, n, rest, sibling, sub);
      } else {
        var sub := RootFromPath(node, leaf, m - k, n - k, rest).value;
        if sub == Mth(node, leaves, lo + k, n - k) {
          InclusionSound(node, leaf, m - k, leaves, lo + k, n - k, rest);
        }
        InclusionAuditRight(node, leaf, m, leaves, lo, n, rest, sibling, sub);
      }
    }
  }

  /** An audit path is no longer than the ceiling of log2 of the tree size. */
  lemma {:induction false} PathIsLogarithmic(node: NodeHash, m: nat, leaves: seq<Hash>, lo: nat, n: nat, e: nat)
    requires m < n && lo + n <= |leaves| && n <= Pow2(e)
    ensures |ProvePath(node, m, leaves, lo, n)| <= e
    decreases n
  {
    hide Split, Mth;
    if n > 1 {
      var k := Split(n);
      assert k <= Pow2(e - 1) by {
        SplitCorrect(n);
        var f: nat :| k == Pow2(f);
        if e < f { Pow2Gap(e, f); }
        if f < e { Pow2Gap(f, e); }
      }
      if m < k {
        PathIsLogarithmic(node, m, leaves, lo, k, e - 1);
      } else {
        PathIsLogarithmic(node, m - k, leaves, lo + k, n - k, e - 1);
      }
    }
  }

  // ------------------------------------------------------------------ when the verifiers come back

  /** rootFromPath comes back: it looks for a split only with a path left to consume. */
  ghost predicate RootReturns(i: nat, size: nat, path: seq<Hash>)
    decreases |path|
  {
    size <= 1 || i >= size || path == [] ||
    (SplitReturns(size) &&
     var k, rest := Split(size), path[..|path| - 1];
     if i < k then RootReturns(i, k, rest) else RootReturns(i - k, size - k, rest))
  }

  lemma {:induction false} RootReturnsExactly(i: nat, size: nat, path: seq<Hash>)
    requires size < TWO_64
    ensures RootReturns(i, size, path) <==> i >= size || path == [] || size <= TWO_63
    decreases |path|
  {
    hide Split, SplitReturns;
    if 1 < size && i < size && path != [] {
      ShiftLoopLeavesExactly(size);
      if size <= TWO_63 {
        var k, rest := Split(size), path[..|path| - 1];
        if i < k { RootReturnsExactly(i, k, rest); } else { RootReturnsExactly(i - k, size - k, rest); }
      }
    }
  }

  /** consRoots comes back: it looks for a split only between different sizes, with a proof left. */
  ghost predicate ConsRootsReturns(m: nat, n: nat, proof: seq<Hash>)
    requires 0 < m
    decreases |proof|
  {
    m >= n || proof == [] ||
    (SplitReturns(n) &&
     var k, rest := Split(n), proof[..|proof| - 1];
     if m <= k then ConsRootsReturns(m, k, rest) else ConsRootsReturns(m - k, n - k, rest))
  }

  lemma {:induction false} ConsRootsReturnsExactly(m: nat, n: nat, proof: seq<Hash>)
    requires 0 < m && n < TWO_64
    ensures ConsRootsReturns(m, n, proof) <==> m >= n || proof == [] || n <= TWO_63
    decreases |proof|
  {
    hide Split, SplitReturns;
    if m < n && proof != [] {
      ShiftLoopLeavesExactly(n);
      if n <= TWO_63 {
        var k, rest := Split(n), proof[..|proof| - 1];
        if m <= k { ConsRootsReturnsExactly(m, k, rest); } else { ConsRootsReturnsExactly(m - k, n - k, rest); }
      }
    }
  }

  // ------------------------------------------------------------------ consistency

  /** A prefix that reaches into the right subtree shares the left subtree. */
  lemma MthOfPrefix(node: NodeHash, m: nat, leaves: seq<Hash>, lo: nat, n: nat)
    requires 2 <= n && lo + n <= |leaves| && Split(n) < m <= n
    ensures var k := Split(n);
      Mth(node, leaves, lo, m) == node(Mth(node, leaves, lo, k), Mth(node, leaves, lo + k, m - k))
  {
    SplitOfPrefix(m, n);
  }

  /** One step of ConsRoots into the left subtree. */
  lemma ConsRootsLeft(node: NodeHash, m: nat, n: nat, complete: bool, rest: seq<Hash>, last: Hash, seed: Hash)
    requires 0 < m < n && m <= Split(n)
    ensures ConsRoots(node, m, n, complete, rest + [last], seed) ==
      match ConsRoots(node, m, Split(n), complete, rest, seed)
      case None => None
      case Some(sub) => Some(Roots(sub.older, node(sub.newer, last), sub.rest))
  {
    var proof := rest + [last];
    assert proof[..|proof| - 1] == rest;
  }

  /** One step of ConsRoots into the right subtree. */
  lemma ConsRootsRight(node: NodeHash, m: nat, n: nat, complete: bool, rest: seq<Hash>, last: Hash, seed: Hash)
    requires 2 <= n && Split(n) < m < n
    ensures ConsRoots(node, m, n, complete, rest + [last], seed) ==
      match ConsRoots(node, m - Split(n), n - Split(n), false, rest, seed)
      case None => None
      case Some(sub) => Some(Roots(node(last, sub.older), node(last, sub.newer), sub.rest))
  {
    var proof := rest + [last];
    assert proof[..|proof| - 1] == rest;
  }

  /** The honest proof, with anything in front of it, is consumed exactly and recomputes both heads. */
  ghost predicate Consumed(node: NodeHash, m: nat, leaves: seq<Hash>, lo: nat, n: nat, complete: bool,
                           front: seq<Hash>, seed: Hash)
    requires 0 < m <= n && lo + n <= |leaves|
  {
    ConsRoots(node, m, n, complete, front + SubProof(node, m, leaves, lo, n, complete), seed)
    == Some(Roots(Mth(node, leaves, lo, m), Mth(node, leaves, lo, n), front))
  }

  lemma ConsumedLeft(node: NodeHash, m: nat, leaves: seq<Hash>, lo: nat, n: nat, complete: bool,
                     front: seq<Hash>, seed: Hash)
    requires 0 < m < n && lo + n <= |leaves| && m <= Split(n)
    requires Consumed(node, m, leaves, lo, Split(n), complete, front, seed)
    ensures Consumed(node, m, leaves, lo, n, complete, front, seed)
  {
    hide Split, ConsRoots;
    var k := Split(n);
    var last := Mth(node, leaves, lo + k, n - k);
    var honest := SubProof(node, m, leaves, lo, k, complete);
    ConsRootsLeft(node, m, n, complete, front + honest, last, seed);
    assert front + (honest + [last]) == (front + honest) + [last];
  }

  lemma ConsumedRight(node: NodeHash, m: nat, leaves: seq<Hash>, lo: nat, n: nat, complete: bool,
                      front: seq<Hash>, seed: Hash)
    requires 2 <= n && lo + n <= |leaves| && Split(n) < m < n
    requires Consumed(node, m - Split(n), leaves, lo + Split(n), n - Split(n), false, front, seed)
    ensures Consumed(node, m, leaves, lo, n, complete, front, seed)
  {
    hide Split, ConsRoots;
    var k := Split(n);
    var last := Mth(node, leaves, lo, k);
    var honest := SubProof(node, m - k, leaves, lo + k, n - k, false);
    MthOfPrefix(node, m, leaves, lo, n);
    ConsRootsRight(node, m, n, complete, front + honest, last, seed);
    assert front + (honest + [last]) == (front + honest) + [last];
  }

  lemma {:induction false} ConsistencyComplete(node: NodeHash, m: nat, leaves: seq<Hash>, lo: nat, n: nat,
                                               complete: bool, front: seq<Hash>, seed: Hash)
    requires 0 < m <= n && lo + n <= |leaves|
    requires complete ==> seed == Mth(node, leaves, lo, m)
    ensures Consumed(node, m, leaves, lo, n, complete, front, seed)
    decreases n
  {
    hide Split;
    if m == n {
      var proof := front + SubProof(node, m, leaves, lo, n, complete);
      assert if complete then proof == front else proof[..|proof| - 1] == front;
    } else if m <= Split(n) {
      ConsistencyComplete(node, m, leaves, lo, Split(n), complete, front, seed);
      ConsumedLeft(node, m, leaves, lo, n, complete, front, seed);
    } else {
      ConsistencyComplete(node, m - Split(n), leaves, lo + Split(n), n - Split(n), false, front, seed);
      ConsumedRight(node, m, leaves, lo, n, complete, front, seed);
    }
  }

  /** What an accepted proof should be: the older root is the head of the first m leaves and the
      consumed part of the proof is the honest proof. */
  predicate Honest(node: NodeHash, m: nat, leaves: seq<Hash>, lo: nat, n: nat, complete: bool,
                   proof: seq<Hash>, roots: Roots)
    requires 0 < m <= n && lo + n <= |leaves|
  {
    && roots.older == Mth(node, leaves, lo, m)
    && proof == roots.rest + SubProof(node, m, leaves, lo, n, complete)
  }

  /** Audits a consistency proof against the leaves that make the newer head, looking for a
      collision of the node hash on the way down. */
  function AuditConsistency(node: NodeHash, m: nat, leaves: seq<Hash>, lo: nat, n: nat, complete: bool,
                            proof: seq<Hash>, seed: Hash): (c: Option<Clash>)
    requires 0 < m <= n && lo + n <= |leaves|
    decreases n
  {
    if m == n || proof == [] then None
    else
      var k := Split(n);
      var last := proof[|proof| - 1];
      var rest := proof[..|proof| - 1];
      var honest := (Mth(node, leaves, lo, k), Mth(node, leaves, lo + k, n - k));
      if m <= k then
        match ConsRoots(node, m, k, complete, rest, seed)
        case None => None
        case Some(sub) =>
          if (sub.newer, last) != honest then Some(Clash((sub.newer, last), honest))
          else AuditConsistency(node, m, leaves, lo, k, complete, rest, seed)
      else
        match ConsRoots(node, m - k, n - k, false, rest, seed)
        case None => None
        case Some(sub) =>
          if (last, sub.newer) != honest then Some(Clash((last, sub.newer), honest))
          else AuditConsistency(node, m - k, leaves, lo + k, n - k, false, rest, seed)
  }

  /** The audit's finding: a genuine collision, or an honest proof. */
  predicate AuditHolds(node: NodeHash, m: nat, leaves: seq<Hash>, lo: nat, n: nat, complete: bool,
                       proof: seq<Hash>, seed: Hash, roots: Roots)
    requires 0 < m <= n && lo + n <= |leaves|
  {
    match AuditConsistency(node, m, leaves, lo, n, complete, proof, seed)
    case None => Honest(node, m, leaves, lo, n, complete, proof, roots)
    case Some(c) => IsClash(node, c)
  }

  lemma ConsRootsNeedsProof(node: NodeHash, m: nat, n: nat, complete: bool, seed: Hash)
    requires 0 < m != n
    ensures ConsRoots(node, m, n, complete, [], seed) == None
  {
  }

  lemma AuditBase(node: NodeHash, n: nat, leaves: seq<Hash>, lo: nat, complete: bool,
                  proof: seq<Hash>, seed: Hash, roots: Roots)
    requires 0 < n && lo + n <= |leaves|
    requires ConsRoots(node, n, n, complete, proof, seed) == Some(roots)
    requires roots.newer == Mth(node, leaves, lo, n)
    ensures AuditHolds(node, n, leaves, lo, n, complete, proof, seed, roots)
  {
    assert if complete then proof == proof + [] else proof == proof[..|proof| - 1] + [proof[|proof| - 1]];
  }

  lemma AuditLeft(node: NodeHash, m: nat, leaves: seq<Hash>, lo: nat, n: nat, complete: bool,
                  rest: seq<Hash>, last: Hash, seed: Hash, sub: Roots)
    requires 0 < m < n && lo + n <= |leaves| && m <= Split(n)
    requires ConsRoots(node, m, Split(n), complete, rest, seed) == Some(sub)
    requires node(sub.newer, last) == Mth(node, leaves, lo, n)
    requires sub.newer == Mth(node, leaves, lo, Split(n)) ==>
               AuditHolds(node, m, leaves, lo, Split(n), complete, rest, seed, sub)
    ensures AuditHolds(node, m, leaves, lo, n, complete, rest + [last], seed,
                       Roots(sub.older, node(sub.newer, last), sub.rest))
  {
    hide Split;
    var k := Split(n);
    var proof := rest + [last];
    assert proof[..|proof| - 1] == rest;
    var honest := SubProof(node, m, leaves, lo, k, complete);
    assert sub.rest + (honest + [last]) == (sub.rest + honest) + [last];
  }

  lemma AuditRight(node: NodeHash, m: nat, leaves: seq<Hash>, lo: nat, n: nat, complete: bool,
                   rest: seq<Hash>, last: Hash, seed: Hash, sub: Roots)
    requires 2 <= n && lo + n <= |leaves| && Split(n) < m < n
    requires ConsRoots(node, m - Split(n), n - Split(n), false, rest, seed) == Some(sub)
    requires node(last, sub.newer) == Mth(node, leaves, lo, n)
    requires sub.newer == Mth(node, leaves, lo + Split(n), n - Split(n)) ==>
               AuditHolds(node, m - Split(n), leaves, lo + Split(n), n - Split(n), false, rest, seed, sub)
    ensures AuditHolds(node, m, leaves, lo, n, complete, rest + [last], seed,
                       Roots(node(last, sub.older), node(last, sub.newer), sub.rest))
  {
    hide Split;
    var k := Split(n);
    var proof := rest + [last];
    assert proof[..|proof| - 1] == rest;
    MthOfPrefix(node, m, leaves, lo, n);
    var honest := SubProof(node, m - k, leaves, lo + k, n - k, false);
    assert sub.rest + (honest + [last]) == (sub.rest + honest) + [last];
  }

  /** Soundness: a proof that recomputes the head of the leaves is honest, or the audit returns a
      genuine collision. */
  lemma {:induction false} ConsistencySound(node: NodeHash, m: nat, leaves: seq<Hash>, lo: nat, n: nat,
                                            complete: bool, proof: seq<Hash>, seed: Hash, roots: Roots)
    requires 0 < m <= n && lo + n <= |leaves|
    requires ConsRoots(node, m, n, complete, proof, seed) == Some(roots)
    requires roots.newer == Mth(node, leaves, lo, n)
    ensures AuditHolds(node, m, leaves, lo, n, complete, proof, seed, roots)
    decreases n
  {
    hide Split, Mth, ConsRoots, SubProof, AuditConsistency, AuditHolds;
    if m == n {
      AuditBase(node, m, leaves, lo, complete, proof, seed, roots);
    } else {
      assert proof != [] by { ConsRootsNeedsProof(node, m, n, complete, seed); }
      var k := Split(n);
      var last := proof[|proof| - 1];
      var rest := proof[..|proof| - 1];
      assert proof == rest + [last];
      if m <= k {
        ConsRootsLeft(node, m, n, complete, rest, last, seed);
        var sub := ConsRoots(node, m, k, complete, rest, seed).value;
        if sub.newer == Mth(node, leaves, lo, k) {
          ConsistencySound(node, m, leaves, lo, k, complete, rest, seed, sub);
        }
        AuditLeft(node, m, leaves, lo, n, complete, rest, last, seed, sub);
      } else {
        ConsRootsRight(node, m, n, complete, rest, last, seed);
        var sub := ConsRoots(node, m - k, n - k, false, rest, seed).value;
        if sub.newer == Mth(node, leaves, lo + k, n - k) {
          ConsistencySound(node, m - k, leaves, lo + k, n - k, false, rest, seed, sub);
        }
        AuditRight(node, m, leaves, lo, n, complete, rest, last, seed, sub);
      }
    }
  }
}
