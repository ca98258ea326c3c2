/** The threshold count shared by economy.PolicyChange.Verify and dispute.Ruling.Verify: a greedy
    nested loop over signatures and roster keys. Whether a key signed the payload is a parameter. */
module Quorum {
  import opened Common

  type SignedBy = (Key, Signature) -> bool

  /** This signature counts for this key, both having the pinned lengths. */
  predicate Verifies(ok: SignedBy, key: Key, sig: Signature) {
    |key| == KEY_SIZE && |sig| == SIGNATURE_SIZE && ok(key, sig)
  }

  /** The distinct roster keys with a valid signature: what the threshold is meant to count. */
  function Signers(ok: SignedBy, roster: seq<Key>, sigs: seq<Signature>): set<Key> {
    set k | k in roster && exists s :: s in sigs && Verifies(ok, k, s)
  }

  /** The first roster key from position i on, not yet seen, that this signature verifies under. */
  function FirstMatch(ok: SignedBy, roster: seq<Key>, i: nat, sig: Signature, seen: set<Key>): (r: Option<Key>)
    requires i <= |roster|
    ensures r.Some? ==> r.value in roster && r.value !in seen && Verifies(ok, r.value, sig)
    ensures r.None? ==> forall k :: k in roster[i..] && Verifies(ok, k, sig) ==> k in seen
    decreases |roster| - i
  {
    if i == |roster| then None
    else if Verifies(ok, roster[i], sig) && roster[i] !in seen then Some(roster[i])
    else FirstMatch(ok, roster, i + 1, sig, seen)
  }

  /** The keys the greedy loop has counted after these signatures. */
  function Tally(ok: SignedBy, roster: seq<Key>, sigs: seq<Signature>): set<Key> {
    if sigs == [] then {}
    else
      var seen := Tally(ok, roster, sigs[..|sigs| - 1]);
      match FirstMatch(ok, roster, 0, sigs[|sigs| - 1], seen)
      case None => seen
      case Some(k) => seen + {k}
  }

  /** The nested loop of both Verify methods. */
  method CountDistinct(ok: SignedBy, roster: seq<Key>, sigs: seq<Signature>) returns (distinct: nat)
    ensures distinct == |Tally(ok, roster, sigs)|
  {
    var seen: set<Key> := {};
    distinct := 0;
    for i := 0 to |sigs|
      invariant seen == Tally(ok, roster, sigs[..i]) && distinct == |seen|
    {
      var sig := sigs[i];
      assert sigs[..i + 1][..i] == sigs[..i];
      if |sig| != SIGNATURE_SIZE {
        continue;
      }
      ghost var before := seen;
      var j := 0;
      while j < |roster|
        invariant j <= |roster|
        invariant seen == before && distinct == |seen|
        invariant FirstMatch(ok, roster, 0, sig, before) == FirstMatch(ok, roster, j, sig, before)
      {
        var pub := roster[j];
        if |pub| == KEY_SIZE && pub !in seen && ok(pub, sig) {
          seen := seen + {pub};
          distinct := distinct + 1;
          break;
        }
        j := j + 1;
      }
    }
    assert sigs[..|sigs|] == sigs;
  }

  /** Verify: at least `threshold` counted keys, and never on a threshold below one. */
  method Verify(ok: SignedBy, roster: seq<Key>, threshold: int, sigs: seq<Signature>) returns (accepted: bool)
    ensures accepted <==> threshold >= 1 && |Tally(ok, roster, sigs)| >= threshold
    ensures accepted <==> Reached(ok, roster, threshold, sigs)
    ensures accepted ==> |Signers(ok, roster, sigs)| >= threshold >= 1
  {
    if threshold < 1 {
      return false;
    }
    var distinct := CountDistinct(ok, roster, sigs);
    TallyAtMostSigners(ok, roster, sigs);
    accepted := distinct >= threshold;
  }

  predicate Reached(ok: SignedBy, roster: seq<Key>, threshold: int, sigs: seq<Signature>) {
    threshold >= 1 && |Tally(ok, roster, sigs)| >= threshold
  }

  /** The loop never counts more than the distinct roster keys with a valid signature, whatever the
      order, duplicates or junk in the signature list. */
  lemma {:induction false} TallyAtMostSigners(ok: SignedBy, roster: seq<Key>, sigs: seq<Signature>)
    ensures Tally(ok, roster, sigs) <= Signers(ok, roster, sigs)
    ensures |Tally(ok, roster, sigs)| <= |Signers(ok, roster, sigs)|
  {
    if sigs != [] {
      var front, sig := sigs[..|sigs| - 1], sigs[|sigs| - 1];
      TallyAtMostSigners(ok, roster, front);
      assert sigs == front + [sig];
      assert Signers(ok, roster, front) <= Signers(ok, roster, sigs);
    }
    SubsetSize(Tally(ok, roster, sigs), Signers(ok, roster, sigs));
  }

  /** A reached threshold is backed by as many distinct roster keys of the pinned length, each with a
      signature of the pinned length that verifies; and a signature good for one roster key each is enough. */
  lemma ReachedMeans(ok: SignedBy, roster: seq<Key>, threshold: int, sigs: seq<Signature>)
    ensures Reached(ok, roster, threshold, sigs) ==>
      threshold >= 1 && exists keys: set<Key> :: |keys| >= threshold && AllSigned(ok, roster, sigs, keys)
    ensures OneKeyEach(ok, roster, sigs) && threshold >= 1 && (exists keys: set<Key> :: |keys| >= threshold && AllSigned(ok, roster, sigs, keys)) ==>
      Reached(ok, roster, threshold, sigs)
  {
    TallyAtMostSigners(ok, roster, sigs);
    assert AllSigned(ok, roster, sigs, Tally(ok, roster, sigs));
    if keys: set<Key> :| OneKeyEach(ok, roster, sigs) && |keys| >= threshold && AllSigned(ok, roster, sigs, keys) {
      TallyExact(ok, roster, sigs);
      forall k | k in keys ensures k in Signers(ok, roster, sigs) {
        var s :| s in sigs && |s| == SIGNATURE_SIZE && ok(k, s);
        assert Verifies(ok, k, s);
      }
      SubsetSize(keys, Signers(ok, roster, sigs));
    }
  }

  /** Each of these is a roster key of the pinned length with a valid signature in the list. */
  ghost predicate AllSigned(ok: SignedBy, roster: seq<Key>, sigs: seq<Signature>, keys: set<Key>) {
    forall k :: k in keys ==> k in roster && |k| == KEY_SIZE && exists s :: s in sigs && |s| == SIGNATURE_SIZE && ok(k, s)
  }

  /** Each signature in the list verifies under at most one roster key. */
  ghost predicate OneKeyEach(ok: SignedBy, roster: seq<Key>, sigs: seq<Signature>) {
    forall s, k, j :: s in sigs && k in roster && j in roster && Verifies(ok, k, s) && Verifies(ok, j, s) ==> k == j
  }

  /** With one key per signature the loop counts exactly the distinct valid signers. */
  lemma {:induction false} TallyExact(ok: SignedBy, roster: seq<Key>, sigs: seq<Signature>)
    requires OneKeyEach(ok, roster, sigs)
    ensures Tally(ok, roster, sigs) == Signers(ok, roster, sigs)
  {
    if sigs != [] {
      var front, sig := sigs[..|sigs| - 1], sigs[|sigs| - 1];
      assert sigs == front + [sig];
      TallyExact(ok, roster, front);
      TallyAtMostSigners(ok, roster, sigs);
      var seen := Tally(ok, roster, front);
      assert roster[0..] == roster;
      forall k | k in Signers(ok, roster, sigs) ensures k in Tally(ok, roster, sigs) {
        if k !in seen {
          assert Verifies(ok, k, sig);
          assert FirstMatch(ok, roster, 0, sig, seen).Some?;
        }
      }
    }
  }

  /** One signature can count at most one key. */
  lemma TallyOfOne(ok: SignedBy, roster: seq<Key>, s: Signature)
    ensures |Tally(ok, roster, [s])| <= 1
  {
    assert [s][..0] == [];
    assert Tally(ok, roster, []) == {};
  }

  /** The signatures of l are among those of sigs: some of them, in any order, repeated at will. */
  predicate DrawnFrom(l: seq<Signature>, sigs: seq<Signature>) {
    forall s :: s in l ==> s in sigs
  }

  /** The exact condition: counting is right for every list drawn from these signatures if and only
      if none of them verifies under two roster keys. */
  lemma CountExactlyWhen(ok: SignedBy, roster: seq<Key>, sigs: seq<Signature>)
    ensures OneKeyEach(ok, roster, sigs) <==>
      forall l :: DrawnFrom(l, sigs) ==> Tally(ok, roster, l) == Signers(ok, roster, l)
  {
    if OneKeyEach(ok, roster, sigs) {
      forall l | DrawnFrom(l, sigs) ensures Tally(ok, roster, l) == Signers(ok, roster, l) {
        TallyExact(ok, roster, l);
      }
    } else {
      var s, k, j :| s in sigs && k in roster && j in roster && Verifies(ok, k, s) && Verifies(ok, j, s) && k != j;
      assert s in [s];
      assert {k, j} <= Signers(ok, roster, [s]);
      SubsetSize({k, j}, Signers(ok, roster, [s]));
      TallyOfOne(ok, roster, s);
      assert DrawnFrom([s], sigs) && Tally(ok, roster, [s]) != Signers(ok, roster, [s]);
    }
  }

  /** Without it the greedy choice can fall short: a signature valid under two keys may be spent on
      the key that another signature needs, so two signers are counted as one. */
  lemma GreedyCanFallShort(ok: SignedBy, a: Key, b: Key, s: Signature, t: Signature)
    requires a != b && Verifies(ok, a, s) && Verifies(ok, b, s) && Verifies(ok, a, t) && !Verifies(ok, b, t)
    ensures Signers(ok, [a, b], [s, t]) == {a, b}
    ensures Tally(ok, [a, b], [s, t]) == {a}
  {
    assert s in [s, t];
    assert [s, t][..1] == [s] && [s][..0] == [];
    assert FirstMatch(ok, [a, b], 0, s, {}) == Some(a);
    assert FirstMatch(ok, [a, b], 1, t, {a}) == None;
    assert FirstMatch(ok, [a, b], 0, t, {a}) == None;
    assert Tally(ok, [a, b], [s]) == {} + {a};
  }
}
