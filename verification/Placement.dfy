/** PlaceShards of internal/storage/placement.go: the shuffled order of the candidate hosts drives a
    two-pass greedy choice. */
module Placement {
  import opened Common
  import opened FairShuffle

  // ------------------------------------------------------------------ the two-pass choice

  function Ids(s: seq<Host>): set<string> {
    set h | h in s :: h.id
  }

  function Owners(s: seq<Host>): set<string> {
    set h | h in s :: h.owner
  }

  predicate DistinctIds(s: seq<Host>) {
    forall i, j :: 0 <= i < j < |s| ==> s[i].id != s[j].id
  }

  predicate DistinctOwners(s: seq<Host>) {
    forall i, j :: 0 <= i < j < |s| ==> s[i].owner != s[j].owner
  }

  /** Pass one: a host is taken while there is room if neither its ID nor its owner is used. */
  function FirstPass(s: seq<Host>, k: nat): (a: seq<Host>)
    ensures |a| <= k
  {
    if s == [] then []
    else
      var a, h := FirstPass(s[..|s| - 1], k), s[|s| - 1];
      if |a| == k || h.id in Ids(a) || h.owner in Owners(a) then a else a + [h]
  }

  /** Pass two: a host is added while there is room if its ID is not used. */
  function SecondPass(a: seq<Host>, s: seq<Host>, k: nat): (b: seq<Host>)
    requires |a| <= k
    ensures |a| <= |b| <= k && a <= b
  {
    if s == [] then a
    else
      var b, h := SecondPass(a, s[..|s| - 1], k), s[|s| - 1];
      if |b| == k || h.id in Ids(b) then b else b + [h]
  }

  function Chosen(s: seq<Host>, k: nat): seq<Host> {
    SecondPass(FirstPass(s, k), s, k)
  }

  lemma IdsOfAppend(a: seq<Host>, h: Host)
    ensures Ids(a + [h]) == Ids(a) + {h.id} && Owners(a + [h]) == Owners(a) + {h.owner}
  {
  }

  lemma DistinctAppend(a: seq<Host>, h: Host)
    requires DistinctIds(a) && h.id !in Ids(a)
    ensures DistinctIds(a + [h])
  {
  }

  lemma OwnersAppend(a: seq<Host>, h: Host)
    requires DistinctOwners(a) && h.owner !in Owners(a)
    ensures DistinctOwners(a + [h])
  {
  }

  lemma DistinctFront(a: seq<Host>, h: Host)
    ensures DistinctIds(a + [h]) ==> DistinctIds(a) && h.id !in Ids(a)
    ensures DistinctOwners(a + [h]) ==> DistinctOwners(a) && h.owner !in Owners(a)
  {
    var s := a + [h];
    forall i | 0 <= i < |a| ensures s[i] == a[i] && s[|a|] == h {}
  }

  lemma {:induction false} DistinctCount(s: seq<Host>)
    ensures DistinctIds(s) ==> |Ids(s)| == |s|
    ensures DistinctOwners(s) ==> |Owners(s)| == |s|
  {
    if s != [] {
      hide DistinctIds, DistinctOwners, Ids, Owners;
      var a, h := s[..|s| - 1], s[|s| - 1];
      DistinctCount(a);
      assert s == a + [h];
      IdsOfAppend(a, h);
      DistinctFront(a, h);
    }
  }

  /** Pass one takes hosts of the list with distinct IDs and distinct owners, and when it leaves room
      every host was refused for its ID or its owner. */
  lemma {:induction false} FirstPassSound(s: seq<Host>, k: nat)
    ensures var a := FirstPass(s, k);
      DistinctIds(a) && DistinctOwners(a) && (forall h :: h in a ==> h in s) &&
      (|a| < k ==> forall h :: h in s ==> h.id in Ids(a) || h.owner in Owners(a))
  {
    hide DistinctIds, DistinctOwners, Ids, Owners;
    if s != [] {
      var front, h := s[..|s| - 1], s[|s| - 1];
      FirstPassSound(front, k);
      var a := FirstPass(front, k);
      assert s == front + [h];
      IdsOfAppend(a, h);
      if |a| < k && h.id !in Ids(a) && h.owner !in Owners(a) {
        DistinctAppend(a, h);
        OwnersAppend(a, h);
      }
    } else {
      NothingTaken();
    }
  }

  lemma NothingTaken()
    ensures DistinctIds([]) && DistinctOwners([])
  {
  }

  lemma {:induction false} SecondPassSound(a: seq<Host>, s: seq<Host>, k: nat)
    requires |a| <= k && DistinctIds(a)
    ensures var b := SecondPass(a, s, k);
      DistinctIds(b) && (forall h :: h in b ==> h in a || h in s) &&
      (|b| < k ==> forall h :: h in s ==> h.id in Ids(b))
  {
    hide DistinctIds, Ids;
    if s != [] {
      var front, h := s[..|s| - 1], s[|s| - 1];
      SecondPassSound(a, front, k);
      var b := SecondPass(a, front, k);
      assert s == front + [h];
      IdsOfAppend(b, h);
      if |b| < k && h.id !in Ids(b) { DistinctAppend(b, h); }
    }
  }

  function Min(a: nat, b: nat): nat {
    if a < b then a else b
  }

  /** The choice repeats no host ID, takes hosts of the list only, and is as long as it can be. */
  lemma ChosenSound(s: seq<Host>, k: nat)
    ensures var c := Chosen(s, k);
      DistinctIds(c) && (forall h :: h in c ==> h in s) && |c| == Min(k, |Ids(s)|)
  {
    hide DistinctIds, DistinctOwners;
    FirstPassSound(s, k);
    SecondPassSound(FirstPass(s, k), s, k);
    var c := Chosen(s, k);
    DistinctCount(c);
    assert Ids(c) <= Ids(s);
    SubsetSize(Ids(c), Ids(s));
    if |c| < k { assert Ids(c) == Ids(s); }
  }

  /** Hosts that share an ID share the owner. */
  predicate OneOwnerPerId(s: seq<Host>) {
    forall g, h :: g in s && h in s && g.id == h.id ==> g.owner == h.owner
  }

  /** Hosts that share an owner share the ID. */
  predicate OneIdPerOwner(s: seq<Host>) {
    forall g, h :: g in s && h in s && g.owner == h.owner ==> g.id == h.id
  }

  /** The choice of k hosts uses as many owners as k hosts of the list can. */
  predicate Spread(s: seq<Host>, k: nat) {
    |Owners(Chosen(s, k))| == Min(k, |Owners(s)|)
  }

  lemma OwnerOf(s: seq<Host>, h: Host)
    requires h in s
    ensures h.id in Ids(s) && h.owner in Owners(s)
  {
  }

  /** A full first pass is the whole choice, and spreads. */
  lemma FullFirstPassSpreads(s: seq<Host>, k: nat)
    requires |FirstPass(s, k)| == k
    ensures Spread(s, k)
  {
    hide DistinctIds, DistinctOwners, FirstPass, SecondPass;
    FirstPassSound(s, k);
    ChosenSound(s, k);
    var a, c := FirstPass(s, k), Chosen(s, k);
    DistinctCount(a);
    assert a == c;
    assert Owners(c) <= Owners(s);
    SubsetSize(Owners(c), Owners(s));
  }

  /** With one owner per ID, a first pass that leaves room has met every owner. */
  lemma OneOwnerSpreads(s: seq<Host>, k: nat)
    requires OneOwnerPerId(s)
    ensures Spread(s, k)
  {
    hide DistinctIds, DistinctOwners, FirstPass, SecondPass;
    FirstPassSound(s, k);
    ChosenSound(s, k);
    var a, c := FirstPass(s, k), Chosen(s, k);
    if |a| == k {
      FullFirstPassSpreads(s, k);
    } else {
      DistinctCount(a);
      forall h | h in s ensures h.owner in Owners(a) {
        if h.id in Ids(a) {
          var g :| g in a && g.id == h.id;
          OwnerOf(a, g);
        }
      }
      assert Owners(a) == Owners(c) == Owners(s);
    }
  }

  /** With one ID per owner, a first pass that leaves room has met every ID. */
  lemma OneIdSpreads(s: seq<Host>, k: nat)
    requires OneIdPerOwner(s) && k <= |Ids(s)|
    ensures Spread(s, k)
  {
    hide DistinctIds, DistinctOwners, FirstPass, SecondPass;
    FirstPassSound(s, k);
    var a := FirstPass(s, k);
    DistinctCount(a);
    if |a| < k {
      forall h | h in s ensures h.id in Ids(a) {
        if h.owner in Owners(a) {
          var g :| g in a && g.owner == h.owner;
          OwnerOf(a, g);
        }
      }
      assert Ids(s) <= Ids(a);
      SubsetSize(Ids(s), Ids(a));
    } else {
      FullFirstPassSpreads(s, k);
    }
  }

  /** Either condition spreads the choice over as many owners as possible: the first
      covers unique IDs, and lists that name a host twice. */
  lemma ChosenSpreads(s: seq<Host>, k: nat)
    requires (OneOwnerPerId(s) || OneIdPerOwner(s)) && k <= |Ids(s)|
    ensures Spread(s, k)
  {
    if OneOwnerPerId(s) { OneOwnerSpreads(s, k); } else { OneIdSpreads(s, k); }
  }

  /** One more host of a pass. */
  lemma FirstPassStep(s: seq<Host>, h: Host, k: nat)
    ensures var a := FirstPass(s, k);
      FirstPass(s + [h], k) == if |a| == k || h.id in Ids(a) || h.owner in Owners(a) then a else a + [h]
  {
    assert (s + [h])[..|s|] == s;
  }

  lemma SecondPassStep(a: seq<Host>, s: seq<Host>, h: Host, k: nat)
    requires |a| <= k
    ensures var b := SecondPass(a, s, k);
      SecondPass(a, s + [h], k) == if |b| == k || h.id in Ids(b) then b else b + [h]
  {
    assert (s + [h])[..|s|] == s;
  }

  lemma SmallLists(x: Host, y: Host, z: Host)
    ensures Ids([]) == {} && Owners([]) == {}
    ensures Ids([x]) == {x.id} && Owners([x]) == {x.owner}
    ensures Ids([x, y]) == {x.id, y.id} && Owners([x, y]) == {x.owner, y.owner}
    ensures Ids([x, y, z]) == {x.id, y.id, z.id} && Owners([x, y, z]) == {x.owner, y.owner, z.owner}
  {
  }

  lemma StartsEmpty(a: seq<Host>, k: nat)
    requires |a| <= k
    ensures FirstPass([], k) == [] && SecondPass(a, [], k) == a
  {
  }

  lemma ChosenOfThree(p: Host, q: Host, r: Host)
    requires q.id == p.id && r.id != p.id && r.owner == p.owner
    ensures Chosen([p, q, r], 2) == [p, r]
  {
    hide Ids, Owners, FirstPass, SecondPass;
    SmallLists(p, q, r);
    var s1, s2, s3 := [p], [p, q], [p, q, r];
    assert s1 == [] + [p] && s2 == s1 + [q] && s3 == s2 + [r];
    StartsEmpty([p], 2);
    FirstPassStep([], p, 2);
    FirstPassStep(s1, q, 2);
    FirstPassStep(s2, r, 2);
    SecondPassStep([p], [], p, 2);
    SecondPassStep([p], s1, q, 2);
    SecondPassStep([p], s2, r, 2);
    assert [p] + [r] == [p, r];
  }

  /** A host under two owners, one of which has another host: choosing two of the three misses an owner. */
  lemma SharedOwnerCosts(x: string, y: string, A: string, B: string)
    requires x != y && A != B
    ensures var s := [Host(x, A), Host(x, B), Host(y, A)];
      |Ids(s)| == 2 && |Owners(s)| == 2 && Owners(Chosen(s, 2)) == {A} && !Spread(s, 2)
  {
    hide Ids, Owners, Chosen;
    var p, q, r := Host(x, A), Host(x, B), Host(y, A);
    ChosenOfThree(p, q, r);
    SmallLists(p, q, r);
    SmallLists(p, r, q);
    assert Ids([p, q, r]) == {x, y} && Owners([p, q, r]) == {A, B};
  }

  lemma ChosenOfFour(p: Host, q: Host, r: Host, t: Host)
    requires q.id == p.id && r.id != p.id && r.owner != p.owner && t.owner == r.owner && t.id != p.id && t.id != r.id
    ensures Chosen([p, q, r, t], 3) == [p, r, t]
  {
    hide Ids, Owners, FirstPass, SecondPass;
    SmallLists(p, r, t);
    var s1, s2, s3, s4 := [p], [p, q], [p, q, r], [p, q, r, t];
    assert s1 == [] + [p] && s2 == s1 + [q] && s3 == s2 + [r] && s4 == s3 + [t];
    var a := [p, r];
    assert a == [p] + [r];
    StartsEmpty(a, 3);
    FirstPassStep([], p, 3);
    FirstPassStep(s1, q, 3);
    FirstPassStep(s2, r, 3);
    FirstPassStep(s3, t, 3);
    SecondPassStep(a, [], p, 3);
    SecondPassStep(a, s1, q, 3);
    SecondPassStep(a, s2, r, 3);
    SecondPassStep(a, s3, t, 3);
    assert a + [t] == [p, r, t];
  }

  /** A host under two owners beside two hosts of a third: choosing three of the four misses an owner. */
  lemma SharedHostCosts(x: string, y: string, z: string, A: string, B: string, C: string)
    requires x != y && x != z && y != z && A != B && A != C && B != C
    ensures var s := [Host(x, A), Host(x, B), Host(y, C), Host(z, C)];
      |Ids(s)| == 3 && |Owners(s)| == 3 && Owners(Chosen(s, 3)) == {A, C} && !Spread(s, 3)
  {
    hide Ids, Owners, Chosen;
    var p, q, r, t := Host(x, A), Host(x, B), Host(y, C), Host(z, C);
    ChosenOfFour(p, q, r, t);
    SmallLists(p, r, t);
    SmallLists(p, q, r);
    IdsOfAppend([p, q, r], t);
    assert [p, q, r] + [t] == [p, q, r, t];
    assert Ids([p, q, r, t]) == {x, y, z} && Owners([p, q, r, t]) == {A, B, C};
  }

  predicate Among(l: seq<Host>, s: seq<Host>) {
    forall h :: h in l ==> h in s
  }

  /** Every choice from every list of these hosts is spread. */
  ghost predicate AlwaysSpread(s: seq<Host>) {
    forall l, k: nat :: Among(l, s) && k <= |Ids(l)| ==> Spread(l, k)
  }

  /** The exact condition: every list drawn from these hosts, in any order and with any repetition, is
      spread over as many owners as possible for every number of shards its IDs allow, if and only if no
      ID has two owners or no owner has two IDs. */
  lemma SpreadExactlyWhen(s: seq<Host>)
    ensures AlwaysSpread(s) <==> OneOwnerPerId(s) || OneIdPerOwner(s)
  {
    hide Spread, Ids;
    if OneOwnerPerId(s) || OneIdPerOwner(s) {
      forall l, k: nat | Among(l, s) && k <= |Ids(l)| ensures Spread(l, k) {
        ChosenSpreads(l, k);
      }
    } else {
      var p, q :| p in s && q in s && p.id == q.id && p.owner != q.owner;
      var u, v :| u in s && v in s && u.owner == v.owner && u.id != v.id;
      if u.id != p.id {
        MissedOwner(s, p, q, u, v);
      } else {
        MissedOwner(s, p, q, v, u);
      }
    }
  }

  /** A host p, q under two owners and an owner u, v of two hosts give a list that is not spread. */
  lemma MissedOwner(s: seq<Host>, p: Host, q: Host, u: Host, v: Host)
    requires p in s && q in s && p.id == q.id && p.owner != q.owner
    requires u in s && v in s && u.owner == v.owner && u.id != v.id && u.id != p.id
    ensures !AlwaysSpread(s)
  {
    hide Spread, Ids, Owners;
    if u.owner == p.owner {
      SharedOwnerCosts(p.id, u.id, p.owner, q.owner);
      NotSpread(s, [p, q, u], 2);
    } else if u.owner == q.owner {
      SharedOwnerCosts(q.id, u.id, q.owner, p.owner);
      NotSpread(s, [q, p, u], 2);
    } else if v.id == p.id {
      SharedOwnerCosts(v.id, u.id, v.owner, p.owner);
      NotSpread(s, [v, p, u], 2);
    } else {
      SharedHostCosts(p.id, u.id, v.id, p.owner, q.owner, u.owner);
      NotSpread(s, [p, q, u, v], 3);
    }
  }

  lemma NotSpread(s: seq<Host>, l: seq<Host>, k: nat)
    requires Among(l, s) && k <= |Ids(l)| && !Spread(l, k)
    ensures !AlwaysSpread(s)
  {
  }

  /** Reordering a list changes neither its IDs, nor its owners, nor who shares what. */
  lemma ReorderedSame(s: seq<Host>, t: seq<Host>)
    requires Reordered(s, t)
    ensures Ids(s) == Ids(t) && Owners(s) == Owners(t)
    ensures forall h :: h in s <==> h in t
    ensures (OneOwnerPerId(s) <==> OneOwnerPerId(t)) && (OneIdPerOwner(s) <==> OneIdPerOwner(t))
  {
    assert forall h :: h in s <==> h in multiset(s);
    assert forall h :: h in t <==> h in multiset(t);
  }

  /** As many IDs as hosts means that no ID repeats. */
  lemma {:induction false} CountDistinct(s: seq<Host>)
    ensures |Ids(s)| <= |s|
    ensures |Ids(s)| == |s| ==> DistinctIds(s)
  {
    hide DistinctIds;
    if s != [] {
      var a, h := s[..|s| - 1], s[|s| - 1];
      CountDistinct(a);
      assert s == a + [h];
      IdsOfAppend(a, h);
      if |Ids(s)| == |s| { DistinctAppend(a, h); }
    } else {
      NothingTaken();
    }
  }

  /** PlaceShards. With entropy for the shuffle it succeeds exactly when at least one shard is asked for
      and there are that many distinct host IDs. */
  method PlaceShards(shardCount: int, hosts: seq<Host>, entropy: Entropy) returns (r: Result<seq<Host>, PlaceError>)
    modifies entropy
    ensures shardCount < 1 ==> r == Err(BadCount)
    ensures shardCount >= 1 && r.Err? ==> r.error == Insufficient || r.error == NoEntropy
    ensures r == Err(NoEntropy) ==> DrawsFrom(old(entropy.words), |hosts|).None? && |hosts| >= shardCount
    ensures DrawsFrom(old(entropy.words), |hosts|).Some? ==> (r.Ok? <==> 1 <= shardCount <= |Ids(hosts)|)
    ensures r.Ok? ==> |r.value| == shardCount && DistinctIds(r.value) && forall h :: h in r.value ==> h in hosts
    ensures r.Ok? && (OneOwnerPerId(hosts) || OneIdPerOwner(hosts)) ==> |Owners(r.value)| == Min(shardCount, |Owners(hosts)|)
    ensures r.Ok? ==> DrawsFrom(old(entropy.words), |hosts|).Some?
    ensures r.Ok? ==> r.value == Chosen(Shuffled(hosts, DrawsFrom(old(entropy.words), |hosts|).value), shardCount)
  {
    hide ShuffleFrom, Shuffled, DrawsFrom, DistinctIds, Ids, Owners, Legal, FirstPass, SecondPass, Reordered, DistinctOwners, OneOwnerPerId, OneIdPerOwner;
    if shardCount < 1 {
      return Err(BadCount);
    }
    CountDistinct(hosts);
    if |hosts| < shardCount {
      return Err(Insufficient);
    }
    var shuffled := new Host[|hosts|](i requires 0 <= i < |hosts| => hosts[i]);
    assert shuffled[..] == hosts;
    ShuffleFromDraws(hosts, entropy.words);
    var failed := Shuffle(shuffled, entropy);
    if failed.Some? {
      return Err(failed.value);
    }
    ghost var order := shuffled[..];
    ShufflePermutes(hosts, DrawsFrom(old(entropy.words), |hosts|).value);
    ReorderedSame(hosts, order);
    var taken := Choose(shuffled, shardCount);
    ChosenSound(order, shardCount);
    if |taken| != shardCount {
      return Err(Insufficient);
    }
    if OneOwnerPerId(hosts) || OneIdPerOwner(hosts) { ChosenSpreads(order, shardCount); }
    return Ok(taken);
  }

  lemma NoHosts()
    ensures Ids([]) == {} && Owners([]) == {}
  {
  }

  /** The two loops over the shuffled hosts. */
  method Choose(shuffled: array<Host>, k: nat) returns (taken: seq<Host>)
    ensures taken == Chosen(shuffled[..], k)
  {
    hide FirstPass, SecondPass, Ids, Owners;
    taken := [];
    StartsEmpty([], k);
    NoHosts();
    assert shuffled[..0] == [];
    var usedHost: set<string>, usedOwner: set<string> := {}, {};
    var i := 0;
    while i < shuffled.Length && |taken| < k
      invariant 0 <= i <= shuffled.Length && |taken| <= k
      invariant taken == FirstPass(shuffled[..i], k)
      invariant usedHost == Ids(taken) && usedOwner == Owners(taken)
    {
      var h := shuffled[i];
      assert shuffled[..i + 1] == shuffled[..i] + [h];
      FirstPassStep(shuffled[..i], h, k);
      if h.id !in usedHost && h.owner !in usedOwner {
        IdsOfAppend(taken, h);
        taken, usedHost, usedOwner := taken + [h], usedHost + {h.id}, usedOwner + {h.owner};
      }
      i := i + 1;
    }
    FirstPassFull(shuffled[..], i, k);
    assert shuffled[..][..i] == shuffled[..i];
    ghost var first := taken;
    StartsEmpty(first, k);
    i := 0;
    while i < shuffled.Length && |taken| < k
      invariant 0 <= i <= shuffled.Length && |first| <= |taken| <= k
      invariant taken == SecondPass(first, shuffled[..i], k)
      invariant usedHost == Ids(taken)
    {
      var h := shuffled[i];
      assert shuffled[..i + 1] == shuffled[..i] + [h];
      SecondPassStep(first, shuffled[..i], h, k);
      if h.id !in usedHost {
        IdsOfAppend(taken, h);
        taken, usedHost := taken + [h], usedHost + {h.id};
      }
      i := i + 1;
    }
    SecondPassFull(first, shuffled[..], i, k);
    assert shuffled[..][..i] == shuffled[..i];
  }

  /** Once full, a pass takes nothing more, so stopping early changes nothing. */
  lemma {:induction false} FirstPassFull(s: seq<Host>, i: nat, k: nat)
    requires i <= |s| && (i == |s| || |FirstPass(s[..i], k)| == k)
    ensures FirstPass(s, k) == FirstPass(s[..i], k)
  {
    if i == |s| {
      assert s[..i] == s;
    } else {
      var front := s[..|s| - 1];
      assert front[..i] == s[..i];
      FirstPassFull(front, i, k);
    }
  }

  lemma {:induction false} SecondPassFull(a: seq<Host>, s: seq<Host>, i: nat, k: nat)
    requires |a| <= k && i <= |s| && (i == |s| || |SecondPass(a, s[..i], k)| == k)
    ensures SecondPass(a, s, k) == SecondPass(a, s[..i], k)
  {
    if i == |s| {
      assert s[..i] == s;
    } else {
      var front := s[..|s| - 1];
      assert front[..i] == s[..i];
      SecondPassFull(a, front, i, k);
    }
  }
}
