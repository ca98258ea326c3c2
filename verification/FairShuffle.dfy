/** uniformInt and shuffle of internal/storage/placement.go: unbiased draws by rejection sampling feed
    an in-place Fisher-Yates shuffle. */
module FairShuffle {
  import opened Common

  datatype Host = Host(id: string, owner: string)

  datatype PlaceError = BadCount | Insufficient | BadBound | NoEntropy

  // ------------------------------------------------------------------ rejection sampling

  type Word = w: int | 0 <= w < TWO_64

  const MAX_WORD: nat := TWO_64 - 1

  /** Words below the limit are accepted: the largest multiple of n not above MAX_WORD. */
  function Limit(n: nat): nat
    requires n > 0
  {
    MAX_WORD - MAX_WORD % n
  }

  /** The accepted words that fall on residue r. */
  ghost function Hits(n: nat, r: nat): set<int>
    requires n > 0
  {
    set v: int | 0 <= v < Limit(n) && v % n == r
  }

  /** Below q * n every residue is hit exactly q times. */
  lemma {:induction false} EvenBelow(n: nat, q: nat, r: nat)
    requires r < n
    ensures |set v: int | 0 <= v < q * n && v % n == r| == q
  {
    var now := set v: int | 0 <= v < q * n && v % n == r;
    if q == 0 {
      assert now == {};
    } else {
      EvenBelow(n, q - 1, r);
      var before := set v: int | 0 <= v < (q - 1) * n && v % n == r;
      var top := (q - 1) * n + r;
      forall v: int ensures v in now <==> v in before + {top} {
        InTopBlock(n, q, r, v);
      }
      assert now == before + {top};
    }
  }

  lemma InTopBlock(n: nat, q: nat, r: nat, v: int)
    requires r < n && q > 0
    ensures 0 <= v < q * n && v % n == r <==> (0 <= v < (q - 1) * n && v % n == r) || v == (q - 1) * n + r
  {
    assert q * n == (q - 1) * n + n;
    DivisionUnique(n, q - 1, r);
    if (q - 1) * n <= v < q * n { DivisionUnique(n, q - 1, v - (q - 1) * n); }
  }

  lemma DivisionUnique(n: nat, q: nat, r: nat)
    requires r < n
    ensures (q * n + r) % n == r
  {
    var x := q * n + r;
    assert x == x / n * n + x % n;
    assert (x / n - q) * n == r - x % n;
    SmallMultiple(n, x / n - q);
  }

  lemma SmallMultiple(n: nat, d: int)
    requires 0 - n < d * n < n
    ensures d == 0
  {
    assert d >= 1 ==> (d - 1) * n >= 0;
    assert d <= -1 ==> (d + 1) * n <= 0;
  }

  /** How many accepted words each residue gets. */
  function Share(n: nat): nat
    requires n > 0
  {
    MAX_WORD / n
  }

  /** Fair draws: every residue is hit by the same number of accepted words, at least one word is
      accepted when the bound fits, and at most n of all 2^64 words are rejected. */
  lemma DrawsAreFair(n: nat, r: nat)
    requires r < n
    ensures |Hits(n, r)| == Share(n) && Limit(n) == Share(n) * n
    ensures TWO_64 - n <= Limit(n) < TWO_64
    ensures n <= MAX_WORD ==> Share(n) >= 1
  {
    var q := MAX_WORD / n;
    assert MAX_WORD == q * n + MAX_WORD % n;
    EvenBelow(n, q, r);
    assert Hits(n, r) == set v: int | 0 <= v < q * n && v % n == r;
    if q == 0 { assert MAX_WORD < n; }
  }

  /** What one draw leaves: the residue and the words not read. */
  datatype Drawn = Drawn(value: nat, rest: seq<int>)

  /** The first accepted word decides; every rejected word is skipped. */
  function Draw(words: seq<int>, n: nat): (r: Option<Drawn>)
    requires n > 0
    ensures r.Some? <==> exists i :: 0 <= i < |words| && words[i] < Limit(n)
    ensures r.Some? ==> r.value.value < n && |r.value.rest| < |words|
    ensures r.Some? ==> var i := |words| - |r.value.rest| - 1;
      words[i] < Limit(n) && r.value.value == words[i] % n && r.value.rest == words[i + 1..] &&
      forall k :: 0 <= k < i ==> words[k] >= Limit(n)
  {
    if words == [] then None
    else if words[0] < Limit(n) then Some(Drawn(words[0] % n, words[1..]))
    else
      assert forall i :: 0 < i < |words| ==> words[i] == words[1..][i - 1];
      Draw(words[1..], n)
  }

  /** An entropy source, as the 64-bit big-endian words still to be read from it. */
  class Entropy {
    var words: seq<Word>

    constructor (words: seq<Word>)
      ensures this.words == words
    {
      this.words := words;
    }

    method Read() returns (r: Option<Word>)
      modifies this
      ensures old(words) == [] ==> r == None && words == []
      ensures old(words) != [] ==> r == Some(old(words)[0]) && words == old(words)[1..]
    {
      if words == [] {
        return None;
      }
      r, words := Some(words[0]), words[1..];
    }
  }

  method UniformInt(entropy: Entropy, n: int) returns (r: Result<nat, PlaceError>)
    modifies entropy
    ensures n <= 0 ==> r == Err(BadBound) && entropy.words == old(entropy.words)
    ensures n > 0 ==> (r.Ok? <==> Draw(old(entropy.words), n).Some?)
    ensures n > 0 && r.Ok? ==> Draw(old(entropy.words), n) == Some(Drawn(r.value, entropy.words))
    ensures n > 0 && r.Err? ==> r == Err(NoEntropy) && entropy.words == []
  {
    if n <= 0 {
      return Err(BadBound);
    }
    var limit := MAX_WORD - MAX_WORD % n;
    while true
      invariant Draw(old(entropy.words), n) == Draw(entropy.words, n)
      decreases |entropy.words|
    {
      var v := entropy.Read();
      if v.None? {
        return Err(NoEntropy);
      }
      if v.value < limit {
        return Ok(v.value % n);
      }
    }
  }

  // ------------------------------------------------------------------ the shuffle

  function Swapped<T>(s: seq<T>, i: nat, j: nat): (r: seq<T>)
    requires i < |s| && j < |s|
    ensures |r| == |s|
    ensures r[i] == s[j]
  {
    s[i := s[j]][j := s[i]]
  }

  /** One draw per position: position i draws from its i + 1 candidates. */
  predicate Legal(d: seq<nat>) {
    forall i :: 0 <= i < |d| ==> d[i] <= i
  }

  /** The order a draw sequence leads to, from the last position down. */
  function Shuffled<T>(s: seq<T>, d: seq<nat>): (r: seq<T>)
    requires |d| == |s| && Legal(d)
    ensures |r| == |s|
    decreases |s|
  {
    if |s| <= 1 then s
    else
      var m := |s| - 1;
      var t := Swapped(s, m, d[m]);
      Shuffled(t[..m], d[..m]) + [t[m]]
  }

  ghost predicate Reordered<T>(s: seq<T>, t: seq<T>)
    ensures Reordered(s, t) ==> |s| == |t|
  {
    |s| == |t| && multiset(s) == multiset(t)
  }

  predicate NoDup<T(==)>(s: seq<T>) {
    forall i, j :: 0 <= i < j < |s| ==> s[i] != s[j]
  }

  function Find<T(==)>(s: seq<T>, x: T): (i: nat)
    requires x in s
    ensures i < |s| && s[i] == x
  {
    if s[0] == x then 0 else 1 + Find(s[1..], x)
  }

  /** One step back: the last element of t is found in s, and the rest reorders the rest. */
  lemma StepBack<T>(s: seq<T>, t: seq<T>)
    requires Reordered(s, t) && |s| > 0
    ensures var m := |s| - 1;
      t[m] in s && Reordered(Swapped(s, m, Find(s, t[m]))[..m], t[..m])
  {
    hide NoDup, Find, Swapped;
    var m := |s| - 1;
    assert t[m] in multiset(t);
    StepBackAt(s, t, Find(s, t[m]));
  }

  lemma StepBackAt<T>(s: seq<T>, t: seq<T>, j: nat)
    requires Reordered(s, t) && |s| > 0 && j < |s| && s[j] == t[|t| - 1]
    ensures Reordered(Swapped(s, |s| - 1, j)[..|s| - 1], t[..|s| - 1])
  {
    hide NoDup, Swapped;
    var m := |s| - 1;
    var u := Swapped(s, m, j);
    SwapPermutes(s, m, j);
    FrontsMatch(u[..m], t[..m], t[m]);
    assert u == u[..m] + [t[m]];
    assert t == t[..m] + [t[m]];
  }

  lemma SwapPermutes<T>(s: seq<T>, i: nat, j: nat)
    requires i < |s| && j < |s|
    ensures multiset(Swapped(s, i, j)) == multiset(s)
  {
  }

  lemma FrontsMatch<T>(a: seq<T>, b: seq<T>, x: T)
    ensures multiset(a + [x]) == multiset(b + [x]) ==> multiset(a) == multiset(b)
  {
    if multiset(a + [x]) == multiset(b + [x]) {
      assert multiset(a) + multiset{x} == multiset(b) + multiset{x};
      forall y: T ensures multiset(a)[y] == multiset(b)[y] {
        assert (multiset(a) + multiset{x})[y] == (multiset(b) + multiset{x})[y];
      }
    }
  }

  /** The draws that lead from s to t. */
  function DrawsFor<T(==)>(s: seq<T>, t: seq<T>): (d: seq<nat>)
    requires Reordered(s, t)
    ensures |d| == |s| && Legal(d)
    decreases |s|
  {
    if |s| == 0 then []
    else
      StepBack(s, t);
      var m := |s| - 1;
      var j := Find(s, t[m]);
      DrawsFor(Swapped(s, m, j)[..m], t[..m]) + [j]
  }

  /** The shuffle only reorders. */
  lemma {:induction false} ShufflePermutes<T>(s: seq<T>, d: seq<nat>)
    requires |d| == |s| && Legal(d)
    ensures Reordered(s, Shuffled(s, d))
    decreases |s|
  {
    hide Swapped;
    if |s| > 1 {
      var m := |s| - 1;
      var t := Swapped(s, m, d[m]);
      SwapPermutes(s, m, d[m]);
      ShufflePermutes(t[..m], d[..m]);
      assert t == t[..m] + [t[m]];
    }
  }

  /** Every reordering of the list is reached, by the draws DrawsFor gives. */
  lemma {:induction false} EveryOrderReached<T>(s: seq<T>, t: seq<T>)
    requires Reordered(s, t)
    ensures Shuffled(s, DrawsFor(s, t)) == t
    decreases |s|
  {
    hide Reordered, Legal, Swapped, Find, Shuffled;
    if |s| > 0 {
      StepBack(s, t);
      var m := |s| - 1;
      var j := Find(s, t[m]);
      EveryOrderReached(Swapped(s, m, j)[..m], t[..m]);
      var d := DrawsFor(Swapped(s, m, j)[..m], t[..m]);
      ShuffledStep(s, d, j);
      assert t == t[..m] + [t[m]];
    }
  }

  lemma ShuffledStep<T>(s: seq<T>, d: seq<nat>, j: nat)
    requires |s| == |d| + 1 && Legal(d) && j < |s|
    ensures Legal(d + [j]) && Shuffled(s, d + [j]) == Shuffled(Swapped(s, |d|, j)[..|d|], d) + [s[j]]
  {
    assert (d + [j])[..|d|] == d;
    if |s| == 1 { assert d == []; }
  }

  lemma FindUnique<T>(s: seq<T>, i: nat)
    requires NoDup(s) && i < |s|
    ensures Find(s, s[i]) == i
  {
    hide Find;
  }

  lemma SwapKeepsNoDup<T>(s: seq<T>, i: nat, j: nat)
    requires i < |s| && j < |s| && NoDup(s)
    ensures NoDup(Swapped(s, i, j))
  {
  }

  lemma PrefixNoDup<T>(s: seq<T>, m: nat)
    requires m <= |s| && NoDup(s)
    ensures NoDup(s[..m])
  {
  }

  /** Different draws give different orders: the draws can be read back from the order. */
  lemma {:induction false} DrawsReadBack<T>(s: seq<T>, d: seq<nat>)
    requires |d| == |s| && Legal(d) && NoDup(s)
    ensures Reordered(s, Shuffled(s, d)) && DrawsFor(s, Shuffled(s, d)) == d
    decreases |s|
  {
    hide Reordered, NoDup, Find, Swapped, Shuffled, Legal, DrawsFor;
    ShufflePermutes(s, d);
    if |s| > 0 {
      var m := |s| - 1;
      FrontLegal(d);
      var t := Swapped(s, m, d[m]);
      SwapKeepsNoDup(s, m, d[m]);
      PrefixNoDup(t, m);
      DrawsReadBack(t[..m], d[..m]);
      FindUnique(s, d[m]);
      assert d == d[..m] + [d[m]];
      ShuffledStep(s, d[..m], d[m]);
      DrawsStep(s, Shuffled(t[..m], d[..m]), d[m]);
    }
  }

  lemma FrontLegal(d: seq<nat>)
    requires Legal(d) && |d| > 0
    ensures Legal(d[..|d| - 1]) && d[|d| - 1] < |d|
  {
  }

  lemma DrawsStep<T>(s: seq<T>, front: seq<T>, j: nat)
    requires |s| == |front| + 1 && j < |s| && Find(s, s[j]) == j
    requires Reordered(s, front + [s[j]])
    ensures Reordered(Swapped(s, |front|, j)[..|front|], front)
    ensures DrawsFor(s, front + [s[j]]) == DrawsFor(Swapped(s, |front|, j)[..|front|], front) + [j]
  {
    hide Reordered, NoDup, Find, Swapped, Legal;
    var t := front + [s[j]];
    StepBack(s, t);
    assert t[..|front|] == front;
  }

  // ------------------------------------------------------------------ positions

  /** Relabelling commutes with the shuffle, so shuffling any list, repeated hosts included, is
      shuffling its positions. */
  lemma {:induction false} ShuffleOfPositions<T>(pos: seq<nat>, s: seq<T>, d: seq<nat>)
    requires |d| == |pos| && Legal(d) && InRange(pos, |s|)
    ensures InRange(Shuffled(pos, d), |s|) && Shuffled(At(pos, s), d) == At(Shuffled(pos, d), s)
    decreases |pos|
  {
    hide Swapped, Legal, Shuffled, At;
    if |pos| > 0 {
      var m := |pos| - 1;
      FrontLegal(d);
      var t := Swapped(pos, m, d[m]);
      assert d == d[..m] + [d[m]];
      ShuffledStep(pos, d[..m], d[m]);
      ShuffledStep(At(pos, s), d[..m], d[m]);
      SwapAt(pos, s, m, d[m]);
      ShuffleOfPositions(t[..m], s, d[..m]);
      AtAppended(Shuffled(t[..m], d[..m]), pos[d[m]], s);
    }
  }

  lemma AtAppended<T>(front: seq<nat>, p: nat, s: seq<T>)
    requires InRange(front, |s|) && p < |s|
    ensures InRange(front + [p], |s|) && At(front + [p], s) == At(front, s) + [s[p]]
  {
    assert (front + [p])[..|front|] == front;
  }

  lemma SwapAt<T>(pos: seq<nat>, s: seq<T>, m: nat, j: nat)
    requires m < |pos| && j < |pos| && InRange(pos, |s|)
    ensures InRange(Swapped(pos, m, j)[..m], |s|)
    ensures Swapped(At(pos, s), m, j)[..m] == At(Swapped(pos, m, j)[..m], s)
  {
    hide At;
  }

  predicate InRange(pos: seq<nat>, n: nat) {
    forall i :: 0 <= i < |pos| ==> pos[i] < n
  }

  function At<T>(pos: seq<nat>, s: seq<T>): (r: seq<T>)
    requires InRange(pos, |s|)
    ensures |r| == |pos| && forall i :: 0 <= i < |pos| ==> r[i] == s[pos[i]]
  {
    if pos == [] then [] else At(pos[..|pos| - 1], s) + [s[pos[|pos| - 1]]]
  }

  // ------------------------------------------------------------------ the shuffle in place

  datatype Run<T> = Run(order: seq<T>, rest: seq<int>)

  /** The shuffle fed from a word stream: the order it leaves and the words it does not read, or
      nothing when the words run out. */
  function ShuffleFrom<T>(s: seq<T>, words: seq<int>): (r: Option<Run<T>>)
    ensures r.Some? ==> |r.value.order| == |s|
    decreases |s|
  {
    if |s| <= 1 then Some(Run(s, words))
    else
      var m := |s| - 1;
      var j := Draw(words, |s|);
      if j.None? then None
      else
        var t := Swapped(s, m, j.value.value);
        var front := ShuffleFrom(t[..m], j.value.rest);
        if front.None? then None else Some(Run(front.value.order + [t[m]], front.value.rest))
  }

  /** The draws the stream gives to the positions of a list of this length. */
  function DrawsFrom(words: seq<int>, n: nat): (d: Option<seq<nat>>)
    ensures d.Some? ==> |d.value| == n && Legal(d.value)
  {
    if n == 0 then Some([])
    else if n == 1 then Some([0])
    else
      var j := Draw(words, n);
      if j.None? then None
      else
        var front := DrawsFrom(j.value.rest, n - 1);
        if front.None? then None else Some(front.value + [j.value.value])
  }

  /** Feeding the shuffle from a stream is shuffling by the draws of the stream. */
  lemma {:induction false} ShuffleFromDraws<T>(s: seq<T>, words: seq<int>)
    ensures ShuffleFrom(s, words).Some? <==> DrawsFrom(words, |s|).Some?
    ensures ShuffleFrom(s, words).Some? ==> ShuffleFrom(s, words).value.order == Shuffled(s, DrawsFrom(words, |s|).value)
    decreases |s|
  {
    hide Draw, Legal, Swapped;
    if |s| > 1 {
      var m := |s| - 1;
      var j := Draw(words, |s|);
      if j.Some? {
        var t := Swapped(s, m, j.value.value);
        ShuffleFromDraws(t[..m], j.value.rest);
        var front := DrawsFrom(j.value.rest, m);
        if front.Some? { ShuffledStep(s, front.value, j.value.value); }
      }
    }
  }

  /** shuffle: Fisher-Yates over the array, in place. */
  method Shuffle(hosts: array<Host>, entropy: Entropy) returns (r: Option<PlaceError>)
    modifies hosts, entropy
    ensures r.None? <==> ShuffleFrom(old(hosts[..]), old(entropy.words)).Some?
    ensures r.None? ==> ShuffleFrom(old(hosts[..]), old(entropy.words)) == Some(Run(hosts[..], entropy.words))
    ensures r.Some? ==> r.value == NoEntropy
  {
    hide Draw, Swapped, ShuffleFrom, Then;
    var i := hosts.Length - 1;
    ghost var all := ShuffleFrom(hosts[..], entropy.words);
    if hosts.Length > 0 {
      assert hosts[..i + 1] == hosts[..] && hosts[i + 1..] == [];
      ThenNothing(all);
    }
    while i > 0
      invariant hosts.Length == 0 || 0 <= i < hosts.Length
      invariant hosts.Length > 0 ==> all == Then(ShuffleFrom(hosts[..i + 1], entropy.words), hosts[i + 1..])
      invariant hosts.Length == 0 ==> entropy.words == old(entropy.words)
      decreases i
    {
      ghost var s, words, done := hosts[..i + 1], entropy.words, hosts[i + 1..];
      var j := UniformInt(entropy, i + 1);
      if j.Err? {
        OutOfWords(s, words, done);
        return Some(j.error);
      }
      hosts[i], hosts[j.value] := hosts[j.value], hosts[i];
      ShuffleFromStep(s, words, hosts[..i + 1], j.value, entropy.words, done);
      assert hosts[..i + 1][..i] == hosts[..i];
      assert hosts[i..] == [hosts[i]] + done;
      i := i - 1;
    }
    if hosts.Length > 0 {
      LastOne(hosts[..1], entropy.words, hosts[1..]);
      assert hosts[..1] + hosts[1..] == hosts[..];
    } else {
      LastOne(hosts[..], entropy.words, []);
      ThenNothing(all);
      assert hosts[..] + [] == hosts[..];
    }
    return None;
  }

  lemma ThenNothing<T>(r: Option<Run<T>>)
    ensures Then(r, []) == r
  {
    if r.Some? { assert r.value.order + [] == r.value.order; }
  }

  lemma OutOfWords<T>(s: seq<T>, words: seq<int>, done: seq<T>)
    requires |s| > 1 && Draw(words, |s|).None?
    ensures Then(ShuffleFrom(s, words), done).None?
  {
  }

  lemma LastOne<T>(s: seq<T>, words: seq<int>, done: seq<T>)
    requires |s| <= 1
    ensures Then(ShuffleFrom(s, words), done) == Some(Run(s + done, words))
  {
  }

  /** One swap moves one element from the part to shuffle to the part that is done. */
  lemma ShuffleFromStep<T>(s: seq<T>, words: seq<int>, t: seq<T>, j: nat, rest: seq<int>, done: seq<T>)
    requires |s| == |t| > 1 && Draw(words, |s|) == Some(Drawn(j, rest))
    requires t[|s| - 1] == s[j] && t[j] == s[|s| - 1] && forall k :: 0 <= k < |s| - 1 && k != j ==> t[k] == s[k]
    ensures var m := |s| - 1;
      Then(ShuffleFrom(s, words), done) == Then(ShuffleFrom(t[..m], rest), [t[m]] + done)
  {
    hide Draw, Swapped;
    var m := |s| - 1;
    SwapInPlace(s, t, m, j);
    ThenStep(ShuffleFrom(t[..m], rest), t[m], done);
  }

  function Then<T>(r: Option<Run<T>>, done: seq<T>): Option<Run<T>> {
    if r.None? then None else Some(Run(r.value.order + done, r.value.rest))
  }

  lemma ThenStep<T>(r: Option<Run<T>>, x: T, done: seq<T>)
    ensures Then(Then(r, [x]), done) == Then(r, [x] + done)
  {
    if r.Some? { assert r.value.order + [x] + done == r.value.order + ([x] + done); }
  }

  lemma SwapInPlace<T>(s: seq<T>, t: seq<T>, i: nat, j: nat)
    requires |s| == |t| && i < |s| && j < |s| && t[i] == s[j] && t[j] == s[i]
    requires forall k :: 0 <= k < |s| && k != i && k != j ==> t[k] == s[k]
    ensures t == Swapped(s, i, j)
  {
  }

  // ------------------------------------------------------------------ fairness of the shuffle

  ghost function Interval(lo: int, hi: int): set<int> {
    set v: int | lo <= v < hi && Between(lo, v, hi)
  }

  predicate Between(lo: int, v: int, hi: int) { lo <= v < hi }

  lemma {:induction false} IntervalSize(lo: int, hi: int)
    requires lo <= hi
    ensures |Interval(lo, hi)| == hi - lo
    decreases hi - lo
  {
    if lo == hi {
      assert Interval(lo, hi) == {};
    } else {
      IntervalSize(lo, hi - 1);
      assert Interval(lo, hi) == Interval(lo, hi - 1) + {hi - 1};
    }
  }

  /** The words a draw below n skips. */
  ghost function Rejected(n: nat): set<int>
    requires n > 0
  {
    Interval(Limit(n), TWO_64)
  }

  predicate AllWords(w: seq<int>) {
    forall i :: 0 <= i < |w| ==> 0 <= w[i] < TWO_64
  }

  ghost function Prepended(first: set<int>, rest: set<seq<int>>): set<seq<int>> {
    set v, w | v in first && w in rest :: [v] + w
  }

  ghost function Row(v: int, rest: set<seq<int>>): set<seq<int>> {
    set w | w in rest :: [v] + w
  }

  /** The word streams of length l whose draws for |d| positions are d, rejected and unread words
      included: the first word is skipped, or it gives the draw of the last position. */
  ghost function Streams(d: seq<nat>, l: nat): set<seq<int>>
    decreases l
  {
    if l == 0 then (if |d| <= 1 then {[]} else {})
    else if |d| <= 1 then Prepended(Interval(0, TWO_64), Streams(d, l - 1))
    else Prepended(Rejected(|d|), Streams(d, l - 1)) + Prepended(Hits(|d|, d[|d| - 1]), Streams(d[..|d| - 1], l - 1))
  }

  /** How many words a draw below n skips. */
  function Skips(n: nat): nat
    requires n > 0
  {
    MAX_WORD % n + 1
  }

  lemma RejectedSize(n: nat)
    requires n > 0
    ensures |Rejected(n)| == Skips(n)
  {
    IntervalSize(Limit(n), TWO_64);
  }

  /** How many there are: a number that depends on the two lengths alone. */
  function StreamCount(n: nat, l: nat): nat
    decreases l
  {
    if l == 0 then (if n <= 1 then 1 else 0)
    else if n <= 1 then TWO_64 * StreamCount(n, l - 1)
    else
      hide Skips, Share;
      Skips(n) * StreamCount(n, l - 1) + Share(n) * StreamCount(n - 1, l - 1)
  }

  lemma PrependedMember(first: set<int>, rest: set<seq<int>>, x: seq<int>)
    ensures x in Prepended(first, rest) <==> |x| > 0 && x[0] in first && x[1..] in rest
  {
    if x in Prepended(first, rest) {
      var v, w :| v in first && w in rest && x == [v] + w;
      assert x[1..] == w;
    }
    if |x| > 0 && x[0] in first && x[1..] in rest {
      var v, w := x[0], x[1..];
      assert v in first && w in rest && [v] + w in Prepended(first, rest);
      assert x == [v] + w;
    }
  }

  lemma RowMember(v: int, rest: set<seq<int>>, x: seq<int>)
    ensures x in Row(v, rest) <==> |x| > 0 && x[0] == v && x[1..] in rest
  {
    if x in Row(v, rest) {
      var w :| w in rest && x == [v] + w;
      assert x[1..] == w;
    }
    if |x| > 0 && x[0] == v && x[1..] in rest {
      assert x == [v] + x[1..];
    }
  }

  lemma Pick<T>(s: set<T>) returns (x: T)
    requires |s| > 0
    ensures x in s
  {
    x :| x in s;
  }

  lemma {:induction false} RowSize(v: int, rest: set<seq<int>>)
    ensures |Row(v, rest)| == |rest|
    decreases |rest|
  {
    hide Row;
    if |rest| == 0 {
      forall x ensures x !in Row(v, rest) { RowMember(v, rest, x); }
      assert Row(v, rest) == {};
    } else {
      var u := Pick(rest);
      RowSize(v, rest - {u});
      forall x
        ensures x in Row(v, rest) <==> x in Row(v, rest - {u}) || x in {[v] + u}
        ensures !(x in Row(v, rest - {u}) && x in {[v] + u})
      {
        RowMember(v, rest, x);
        RowMember(v, rest - {u}, x);
        assert |x| > 0 && x[0] == v && x[1..] == u <==> x == [v] + u;
      }
      DisjointSize(Row(v, rest), Row(v, rest - {u}), {[v] + u});
    }
  }

  lemma Product(a: nat, b: nat, c: nat)
    ensures b == c + 1 ==> b * a == c * a + a
  {
  }

  lemma {:induction false} PrependedSize(first: set<int>, rest: set<seq<int>>)
    ensures |Prepended(first, rest)| == |first| * |rest|
    decreases |first|
  {
    hide Prepended, Row;
    if |first| == 0 {
      forall x ensures x !in Prepended(first, rest) { PrependedMember(first, rest, x); }
      assert Prepended(first, rest) == {};
    } else {
      var v := Pick(first);
      PrependedSize(first - {v}, rest);
      RowSize(v, rest);
      forall x
        ensures x in Prepended(first, rest) <==> x in Prepended(first - {v}, rest) || x in Row(v, rest)
        ensures !(x in Prepended(first - {v}, rest) && x in Row(v, rest))
      {
        PrependedMember(first, rest, x);
        PrependedMember(first - {v}, rest, x);
        RowMember(v, rest, x);
      }
      DisjointSize(Prepended(first, rest), Prepended(first - {v}, rest), Row(v, rest));
      Product(|rest|, |first|, |first - {v}|);
    }
  }

  lemma {:induction false} StreamsCounted(d: seq<nat>, l: nat)
    requires Legal(d)
    ensures |Streams(d, l)| == StreamCount(|d|, l)
    decreases l
  {
    hide Prepended, Hits, Limit, Share, Skips, Rejected, Interval, Legal;
    if l > 0 {
      if |d| <= 1 {
        StreamsCounted(d, l - 1);
        PrependedSize(Interval(0, TWO_64), Streams(d, l - 1));
        IntervalSize(0, TWO_64);
      } else {
        var n := |d|;
        FrontLegal(d);
        StreamsCounted(d, l - 1);
        StreamsCounted(d[..n - 1], l - 1);
        var skip, take := Prepended(Rejected(n), Streams(d, l - 1)), Prepended(Hits(n, d[n - 1]), Streams(d[..n - 1], l - 1));
        DrawsAreFair(n, d[n - 1]);
        PrependedSize(Rejected(n), Streams(d, l - 1));
        PrependedSize(Hits(n, d[n - 1]), Streams(d[..n - 1], l - 1));
        RejectedSize(n);
        forall x ensures !(x in skip && x in take) {
          OneStart(n, d[n - 1], Streams(d, l - 1), Streams(d[..n - 1], l - 1), x);
        }
        DisjointSize(Streams(d, l), skip, take);
      }
    }
  }

  /** No stream starts both with a word that is skipped and with one that is taken. */
  lemma OneStart(n: nat, r: nat, a: set<seq<int>>, b: set<seq<int>>, x: seq<int>)
    requires n > 0
    ensures !(x in Prepended(Rejected(n), a) && x in Prepended(Hits(n, r), b))
  {
    hide Prepended, Rejected, Hits, Limit;
    PrependedMember(Rejected(n), a, x);
    PrependedMember(Hits(n, r), b, x);
    if |x| > 0 { HitIsAccepted(n, r, x[0]); }
  }

  lemma HitIsAccepted(n: nat, r: nat, v: int)
    requires n > 0
    ensures v in Hits(n, r) <==> 0 <= v < Limit(n) && v % n == r
    ensures v in Rejected(n) <==> Limit(n) <= v < TWO_64
  {
  }

  /** What the first word of a stream does to the draws of n positions. */
  lemma FirstWord(w: seq<int>, n: nat)
    requires |w| > 0 && n > 1
    ensures w[0] >= Limit(n) ==> DrawsFrom(w, n) == DrawsFrom(w[1..], n)
    ensures w[0] < Limit(n) ==>
      (var front := DrawsFrom(w[1..], n - 1); DrawsFrom(w, n) == if front.None? then None else Some(front.value + [w[0] % n]))
  {
    hide Limit, Legal;
  }

  lemma SameWithLast(a: seq<nat>, x: nat, d: seq<nat>)
    requires |d| == |a| + 1
    ensures a + [x] == d <==> a == d[..|a|] && x == d[|a|]
  {
    if a + [x] == d { assert d[..|a|] == a; }
    if a == d[..|a|] && x == d[|a|] { assert d == d[..|a|] + [d[|a|]]; }
  }

  lemma WordsStep(w: seq<int>)
    requires |w| > 0
    ensures AllWords(w) <==> 0 <= w[0] < TWO_64 && AllWords(w[1..])
  {
    assert w == [w[0]] + w[1..];
  }

  /** How a stream of d starts. */
  lemma StreamStarts(d: seq<nat>, l: nat, w: seq<int>)
    requires Legal(d) && l > 0 && |d| > 1
    ensures var n := |d|;
      w in Streams(d, l) <==>
        && |w| > 0
        && ((Limit(n) <= w[0] < TWO_64 && w[1..] in Streams(d, l - 1)) ||
            (0 <= w[0] < Limit(n) && w[0] % n == d[n - 1] && w[1..] in Streams(d[..n - 1], l - 1)))
  {
    hide Prepended, Hits, Limit, Rejected;
    var n := |d|;
    PrependedMember(Rejected(n), Streams(d, l - 1), w);
    PrependedMember(Hits(n, d[n - 1]), Streams(d[..n - 1], l - 1), w);
    if |w| > 0 { HitIsAccepted(n, d[n - 1], w[0]); }
  }

  /** The same for draws from a stream. */
  lemma DrawsStart(d: seq<nat>, w: seq<int>)
    requires Legal(d) && |d| > 1 && |w| > 0
    ensures var n := |d|;
      DrawsFrom(w, n) == Some(d) <==>
        if w[0] >= Limit(n) then DrawsFrom(w[1..], n) == Some(d)
        else DrawsFrom(w[1..], n - 1) == Some(d[..n - 1]) && w[0] % n == d[n - 1]
  {
    hide DrawsFrom, Limit;
    var n := |d|;
    FirstWord(w, n);
    var front := DrawsFrom(w[1..], n - 1);
    if front.Some? { SameWithLast(front.value, w[0] % n, d); }
  }

  lemma FewStreams(d: seq<nat>, l: nat, w: seq<int>)
    requires l > 0 && |d| <= 1
    ensures w in Streams(d, l) <==> |w| > 0 && 0 <= w[0] < TWO_64 && w[1..] in Streams(d, l - 1)
  {
    hide Prepended, Interval;
    PrependedMember(Interval(0, TWO_64), Streams(d, l - 1), w);
    if |w| > 0 { InInterval(0, TWO_64, w[0]); }
  }

  /** The streams of d are exactly the word streams that give the draws d. */
  lemma {:induction false} StreamsExact(d: seq<nat>, l: nat, w: seq<int>)
    requires Legal(d)
    ensures w in Streams(d, l) <==> |w| == l && AllWords(w) && DrawsFrom(w, |d|) == Some(d)
    decreases l
  {
    hide Streams, DrawsFrom, Limit, AllWords, Legal;
    if l == 0 {
      EmptyStream(d, w);
    } else if |d| <= 1 {
      FewStreams(d, l, w);
      FewDraws(d, w);
      if |w| > 0 {
        StreamsExact(d, l - 1, w[1..]);
        FewDraws(d, w[1..]);
        WordsStep(w);
      }
    } else {
      StreamStarts(d, l, w);
      if |w| > 0 {
        FrontLegal(d);
        StreamsExact(d, l - 1, w[1..]);
        StreamsExact(d[..|d| - 1], l - 1, w[1..]);
        WordsStep(w);
        LimitInRange(|d|);
        DrawsStart(d, w);
      }
    }
  }

  lemma LimitInRange(n: nat)
    requires n > 0
    ensures Limit(n) < TWO_64
  {
  }

  lemma InInterval(lo: int, hi: int, v: int)
    ensures v in Interval(lo, hi) <==> lo <= v < hi
  {
  }

  lemma FewDraws(d: seq<nat>, w: seq<int>)
    requires Legal(d) && |d| <= 1
    ensures DrawsFrom(w, |d|) == Some(d)
  {
    if |d| == 1 { assert d == [0]; }
  }

  lemma EmptyStream(d: seq<nat>, w: seq<int>)
    requires Legal(d)
    ensures w in Streams(d, 0) <==> |w| == 0 && AllWords(w) && DrawsFrom(w, |d|) == Some(d)
  {
    if |d| <= 1 {
      FewDraws(d, w);
    } else if |w| == 0 {
      assert Draw(w, |d|).None?;
    }
  }

  /** The shuffle is uniform, rejections included: for every length, exactly StreamCount(|s|, l) of the
      word streams of length l lead it from the distinct positions s to the order t, the same number for
      every order t. */
  lemma ShuffleIsUniform<T>(s: seq<T>, t: seq<T>, l: nat, w: seq<int>)
    requires NoDup(s) && Reordered(s, t)
    ensures |Streams(DrawsFor(s, t), l)| == StreamCount(|s|, l)
    ensures w in Streams(DrawsFor(s, t), l) <==>
      |w| == l && AllWords(w) && ShuffleFrom(s, w).Some? && ShuffleFrom(s, w).value.order == t
  {
    hide Reordered, NoDup, Streams, Shuffled, ShuffleFrom, DrawsFor, DrawsFrom, Legal, AllWords;
    var d := DrawsFor(s, t);
    StreamsCounted(d, l);
    StreamsExact(d, l, w);
    EveryOrderReached(s, t);
    ShuffleFromDraws(s, w);
    var e := DrawsFrom(w, |s|);
    if e.Some? { DrawsReadBack(s, e.value); }
  }

  /** Each draw is itself an accepted word. */
  lemma DrawIsAccepted(n: nat, r: nat)
    requires r < n <= MAX_WORD
    ensures r < Limit(n) && r % n == r
  {
    hide Limit, Share;
    DrawsAreFair(n, r);
    AtLeastOnce(Share(n), n);
    DivisionUnique(n, 0, r);
  }

  lemma AtLeastOnce(q: nat, n: nat)
    requires q >= 1
    ensures q * n >= n
  {
  }

  lemma EmptyStreamIn(d: seq<nat>)
    requires |d| <= 1
    ensures [] in Streams(d, 0)
  {
  }

  /** Streams with a word for every draw do lead to every order: one such stream. */
  lemma {:induction false} StreamFor(d: seq<nat>, l: nat) returns (w: seq<int>)
    requires Legal(d) && |d| <= l + 1 && |d| <= MAX_WORD
    ensures w in Streams(d, l)
    decreases l
  {
    hide Streams, Limit, Share, Legal;
    if l == 0 {
      w := [];
      EmptyStreamIn(d);
    } else if |d| <= 1 {
      var rest := StreamFor(d, l - 1);
      w := [0] + rest;
      assert w[1..] == rest;
      FewStreams(d, l, w);
    } else {
      var n := |d|;
      FrontLegal(d);
      var rest := StreamFor(d[..n - 1], l - 1);
      w := [d[n - 1]] + rest;
      assert w[1..] == rest;
      DrawIsAccepted(n, d[n - 1]);
      StreamStarts(d, l, w);
    }
  }
}
