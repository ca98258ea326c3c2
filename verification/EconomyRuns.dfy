/** Any number of ledgers over one store, in any interleaving, and what every history they can write
    has in common. */
module EconomyRuns {
  import opened Common
  import opened Economy
  import Q = Quorum

  /** One ledger process: what it has derived, and how many records it has applied. */
  datatype Process = Process(view: View, applied: nat)

  datatype Shared = Shared(records: seq<Record>, ledgers: seq<Process>)

  /** The atomic steps. A lap of Post or Enact is one TryAppend, since admission reads only the
      ledger's own state; a lost race is followed by CatchUp, which reads the store once. Open adds
      a ledger and replays the store into it. */
  datatype Step = OpenLedger | TryAppend(i: nat, r: Record) | CatchUp(i: nat)

  /** Replays records[p.applied..] into a process, as far as they are admitted. */
  function ReplayTail(w: World, g: Genesis, p: Process, records: seq<Record>): (q: Process)
    requires PolicyError(p.view.pol).None? && p.applied <= |records|
    ensures PolicyError(q.view.pol).None? && p.applied <= q.applied <= |records|
    decreases |records| - p.applied
  {
    if p.applied == |records| || AdmitError(w, g, p.view, records[p.applied]).Some? then p
    else ReplayTail(w, g, Process(Apply(w, g, p.view, records[p.applied]), p.applied + 1), records)
  }

  /** The process is a replay of a prefix of the store. */
  ghost predicate InSync(w: World, g: Genesis, records: seq<Record>, p: Process)
    requires GenesisOk(g)
  {
    p.applied <= |records| && Fold(w, g, records[..p.applied]) == Ok(p.view)
  }

  /** The refinement: the store replays from genesis, so Open never fails on it, and every ledger's
      balances, nonces, policy and version are the replay of the records it has applied. */
  ghost predicate Refines(w: World, g: Genesis, sh: Shared) {
    && GenesisOk(g)
    && Fold(w, g, sh.records).Ok?
    && forall i :: 0 <= i < |sh.ledgers| ==> InSync(w, g, sh.records, sh.ledgers[i])
  }

  ghost function Next(w: World, g: Genesis, sh: Shared, step: Step): Shared
    requires Refines(w, g, sh)
  {
    match step
    case OpenLedger =>
      assert sh.records[..0] == [];
      sh.(ledgers := sh.ledgers + [ReplayTail(w, g, Process(FirstView(g), 0), sh.records)])
    case TryAppend(i, r) =>
      if i >= |sh.ledgers| then sh
      else
        var p := sh.ledgers[i];
        if AdmitError(w, g, p.view, r).Some? || |sh.records| != p.applied then sh
        else Shared(sh.records + [r], sh.ledgers[i := Process(Apply(w, g, p.view, r), p.applied + 1)])
    case CatchUp(i) =>
      if i >= |sh.ledgers| then sh
      else sh.(ledgers := sh.ledgers[i := ReplayTail(w, g, sh.ledgers[i], sh.records)])
  }

  /** Catching up on a store that replays reaches its end, in sync. */
  lemma {:induction false} ReplayTailReachesEnd(w: World, g: Genesis, p: Process, records: seq<Record>)
    requires GenesisOk(g) && Fold(w, g, records).Ok? && InSync(w, g, records, p)
    ensures ReplayTail(w, g, p, records).applied == |records|
    ensures InSync(w, g, records, ReplayTail(w, g, p, records))
    decreases |records| - p.applied
  {
    hide Fold, AdmitError, Apply;
    if p.applied < |records| {
      var k := p.applied;
      FoldOfPrefix(w, g, records, k + 1);
      assert records[..k + 1] == records[..k] + [records[k]];
      FoldStep(w, g, records[..k], records[k]);
      ReplayTailReachesEnd(w, g, Process(Apply(w, g, p.view, records[k]), k + 1), records);
    } else {
      assert records[..p.applied] == records;
    }
  }

  lemma AppendKeepsRefinement(w: World, g: Genesis, sh: Shared, i: nat, r: Record)
    requires Refines(w, g, sh) && i < |sh.ledgers| && |sh.records| == sh.ledgers[i].applied
    requires AdmitError(w, g, sh.ledgers[i].view, r).None?
    ensures Refines(w, g, Next(w, g, sh, TryAppend(i, r)))
  {
    hide Fold, AdmitError, Apply;
    var p := sh.ledgers[i];
    var next := Next(w, g, sh, TryAppend(i, r));
    assert sh.records[..p.applied] == sh.records;
    FoldStep(w, g, sh.records, r);
    assert next.records[..p.applied + 1] == next.records;
    forall j | 0 <= j < |next.ledgers| ensures InSync(w, g, next.records, next.ledgers[j]) {
      if j != i {
        assert InSync(w, g, sh.records, sh.ledgers[j]);
        assert next.records[..sh.ledgers[j].applied] == sh.records[..sh.ledgers[j].applied];
      }
    }
  }

  lemma StepKeepsRefinement(w: World, g: Genesis, sh: Shared, step: Step)
    requires Refines(w, g, sh)
    ensures Refines(w, g, Next(w, g, sh, step))
    ensures sh.records <= Next(w, g, sh, step).records
  {
    hide AdmitError, Apply, ReplayTail;
    match step
    case OpenLedger =>
      assert sh.records[..0] == [];
      ReplayTailReachesEnd(w, g, Process(FirstView(g), 0), sh.records);
    case CatchUp(i) =>
      if i < |sh.ledgers| { ReplayTailReachesEnd(w, g, sh.ledgers[i], sh.records); }
    case TryAppend(i, r) =>
      if i < |sh.ledgers| && AdmitError(w, g, sh.ledgers[i].view, r).None? && |sh.records| == sh.ledgers[i].applied {
        AppendKeepsRefinement(w, g, sh, i, r);
      }
  }

  /** Every interleaving of any number of ledgers, from the empty store. */
  ghost function Run(w: World, g: Genesis, steps: seq<Step>): (sh: Shared)
    requires GenesisOk(g)
    ensures Refines(w, g, sh)
  {
    if steps == [] then Shared([], [])
    else
      var before := Run(w, g, steps[..|steps| - 1]);
      StepKeepsRefinement(w, g, before, steps[|steps| - 1]);
      Next(w, g, before, steps[|steps| - 1])
  }

  /** Shared-store refinement over whole runs: at the end of every interleaving the store replays,
      and every ledger is the replay of a prefix of it. Two ledgers that applied the same number of
      records therefore agree on everything. */
  lemma SharedStoreRefinement(w: World, g: Genesis, steps: seq<Step>)
    requires GenesisOk(g)
    ensures var sh := Run(w, g, steps);
      && Fold(w, g, sh.records).Ok?
      && (forall i :: 0 <= i < |sh.ledgers| ==> InSync(w, g, sh.records, sh.ledgers[i]))
      && (forall i, j :: 0 <= i < |sh.ledgers| && 0 <= j < |sh.ledgers| && sh.ledgers[i].applied == sh.ledgers[j].applied
            ==> sh.ledgers[i].view == sh.ledgers[j].view)
  {
    var sh := Run(w, g, steps);
    forall i, j | 0 <= i < |sh.ledgers| && 0 <= j < |sh.ledgers| && sh.ledgers[i].applied == sh.ledgers[j].applied
      ensures sh.ledgers[i].view == sh.ledgers[j].view
    {
      assert InSync(w, g, sh.records, sh.ledgers[i]) && InSync(w, g, sh.records, sh.ledgers[j]);
    }
  }

  /** Progress: an admitted append that is lost means the ledger was behind, and catching up then
      strictly advances it to the end of the store; if nobody appends in between, its next try is
      decided by admission alone. */
  lemma LostRaceAdvances(w: World, g: Genesis, sh: Shared, i: nat, r: Record)
    requires Refines(w, g, sh) && i < |sh.ledgers|
    requires AdmitError(w, g, sh.ledgers[i].view, r).None? && Next(w, g, sh, TryAppend(i, r)) == sh
    ensures var after := Next(w, g, sh, CatchUp(i));
      && Refines(w, g, after)
      && after.ledgers[i].applied == |sh.records| > sh.ledgers[i].applied
      && (AdmitError(w, g, after.ledgers[i].view, r).None? ==>
            Next(w, g, after, TryAppend(i, r)).records == sh.records + [r])
  {
    assert InSync(w, g, sh.records, sh.ledgers[i]);
    StepKeepsRefinement(w, g, sh, CatchUp(i));
    ReplayTailReachesEnd(w, g, sh.ledgers[i], sh.records);
    assert |sh.records + [r]| > |sh.records|;
  }

  // ------------------------------------------------------------------ lost races over whole runs

  /** The step is an append of ledger i that its own view admits. */
  predicate Tries(w: World, g: Genesis, sh: Shared, step: Step, i: nat)
    requires forall k :: 0 <= k < |sh.ledgers| ==> PolicyError(sh.ledgers[k].view.pol).None?
  {
    step.TryAppend? && step.i == i && i < |sh.ledgers| && AdmitError(w, g, sh.ledgers[i].view, step.r).None?
  }

  /** Every ledger of a refining state is under a valid policy. */
  lemma PoliciesValid(w: World, g: Genesis, sh: Shared)
    requires Refines(w, g, sh)
    ensures forall k :: 0 <= k < |sh.ledgers| ==> PolicyError(sh.ledgers[k].view.pol).None?
  {
    hide Fold;
    forall k | 0 <= k < |sh.ledgers| ensures PolicyError(sh.ledgers[k].view.pol).None? {
      assert InSync(w, g, sh.records, sh.ledgers[k]);
    }
  }

  /** The step is an append that ledger i loses to another writer. */
  ghost predicate Loses(w: World, g: Genesis, sh: Shared, step: Step, i: nat)
    requires Refines(w, g, sh)
  {
    PoliciesValid(w, g, sh);
    Tries(w, g, sh, step, i) && |sh.records| != sh.ledgers[i].applied
  }

  ghost predicate Wins(w: World, g: Genesis, sh: Shared, step: Step, i: nat)
    requires Refines(w, g, sh)
  {
    PoliciesValid(w, g, sh);
    Tries(w, g, sh, step, i) && |sh.records| == sh.ledgers[i].applied
  }

  /** What a run has meant for ledger i: appends lost and won, and whether a loss waits for catch-up. */
  datatype Tally = Tally(lost: nat, won: nat, waiting: bool)

  ghost function Tallied(w: World, g: Genesis, steps: seq<Step>, i: nat): Tally
    requires GenesisOk(g)
  {
    if steps == [] then Tally(0, 0, false)
    else
      var front, step := steps[..|steps| - 1], steps[|steps| - 1];
      var t := Tallied(w, g, front, i);
      if Loses(w, g, Run(w, g, front), step, i) then Tally(t.lost + 1, t.won, true)
      else if Wins(w, g, Run(w, g, front), step, i) then t.(won := t.won + 1)
      else if step == CatchUp(i) then t.(waiting := false)
      else t
  }

  /** Ledger i follows its retry loop: after a lost append it catches up before it tries again. */
  ghost predicate Follows(w: World, g: Genesis, steps: seq<Step>, i: nat)
    requires GenesisOk(g)
  {
    forall k :: 0 <= k < |steps| && steps[k].TryAppend? && steps[k].i == i ==> !Tallied(w, g, steps[..k], i).waiting
  }

  /** Each loss so far is paid for by a record that the ledger did not write and has seen since, or is
      about to see. */
  ghost predicate Paid(sh: Shared, t: Tally, i: nat) {
    if i >= |sh.ledgers| then t == Tally(0, 0, false)
    else
      var applied := sh.ledgers[i].applied;
      && t.won <= applied <= |sh.records|
      && t.lost + t.won <= applied + (if t.waiting then 1 else 0)
      && (t.waiting ==> applied < |sh.records|)
  }

  /** How one step moves the store and one ledger. */
  lemma StepOnLedger(w: World, g: Genesis, sh: Shared, step: Step, i: nat)
    requires Refines(w, g, sh) && i < |sh.ledgers|
    ensures var next := Next(w, g, sh, step);
      && i < |next.ledgers| && |sh.records| <= |next.records| && sh.ledgers[i].applied <= |sh.records|
      && next.ledgers[i].applied == (if Wins(w, g, sh, step, i) then |sh.records| + 1
                                     else if step == CatchUp(i) then |sh.records| else sh.ledgers[i].applied)
      && (Wins(w, g, sh, step, i) ==> |next.records| == |sh.records| + 1)
  {
    hide Fold, AdmitError, Apply;
    assert InSync(w, g, sh.records, sh.ledgers[i]);
    if step == CatchUp(i) { ReplayTailReachesEnd(w, g, sh.ledgers[i], sh.records); }
  }

  lemma StepOnNewLedger(w: World, g: Genesis, sh: Shared, step: Step, i: nat)
    requires Refines(w, g, sh) && i >= |sh.ledgers|
    ensures !Loses(w, g, sh, step, i) && !Wins(w, g, sh, step, i)
    ensures var next := Next(w, g, sh, step);
      i < |next.ledgers| ==> next.ledgers[i].applied == |next.records|
  {
    hide Fold, AdmitError, Apply;
    if step.OpenLedger? {
      assert sh.records[..0] == [];
      FoldOfNone(w, g);
      ReplayTailReachesEnd(w, g, Process(FirstView(g), 0), sh.records);
    }
  }

  lemma FoldOfNone(w: World, g: Genesis)
    requires GenesisOk(g)
    ensures Fold(w, g, []) == Ok(FirstView(g))
  {
  }

  lemma {:induction false} LossesPaid(w: World, g: Genesis, steps: seq<Step>, i: nat)
    requires GenesisOk(g) && Follows(w, g, steps, i)
    ensures Paid(Run(w, g, steps), Tallied(w, g, steps, i), i)
  {
    if steps != [] {
      hide Loses, Wins, Next;
      var front, step := steps[..|steps| - 1], steps[|steps| - 1];
      forall k | 0 <= k < |front| && front[k].TryAppend? && front[k].i == i ensures !Tallied(w, g, front[..k], i).waiting {
        assert front[..k] == steps[..k] && front[k] == steps[k];
      }
      LossesPaid(w, g, front, i);
      var sh := Run(w, g, front);
      LostMeans(w, g, sh, step, i);
      if i < |sh.ledgers| { StepOnLedger(w, g, sh, step, i); } else { StepOnNewLedger(w, g, sh, step, i); }
    }
  }

  lemma LostMeans(w: World, g: Genesis, sh: Shared, step: Step, i: nat)
    requires Refines(w, g, sh)
    ensures Loses(w, g, sh, step, i) ==>
      step.TryAppend? && step.i == i && i < |sh.ledgers| && sh.ledgers[i].applied < |sh.records|
    ensures Wins(w, g, sh, step, i) ==> step.TryAppend? && step.i == i && i < |sh.ledgers|
  {
    hide Fold, AdmitError;
    if i < |sh.ledgers| { assert InSync(w, g, sh.records, sh.ledgers[i]); }
  }

  /** Progress over whole runs: in every interleaving a ledger that follows its retry loop loses no more
      races than there are records in the store that it did not write. */
  lemma LostRacesBounded(w: World, g: Genesis, steps: seq<Step>, i: nat)
    requires GenesisOk(g) && Follows(w, g, steps, i)
    ensures var t := Tallied(w, g, steps, i);
      t.lost + t.won <= |Run(w, g, steps).records|
  {
    hide Run, Tallied;
    LossesPaid(w, g, steps, i);
  }

  // ------------------------------------------------------------------ what every history keeps

  /** The sum of all balances. */
  ghost function Total(m: map<AccountID, int64>): int {
    if m == map[] then 0
    else
      var a :| a in m;
      m[a] as int + Total(m - {a})
  }

  /** Any one account may be taken out of the sum first. */
  lemma {:induction false} TotalWithout(m: map<AccountID, int64>, a: AccountID)
    requires a in m
    ensures Total(m) == m[a] as int + Total(m - {a})
    decreases |m|
  {
    var b :| b in m && Total(m) == m[b] as int + Total(m - {b});
    if a != b {
      TotalWithout(m - {b}, a);
      TotalWithout(m - {a}, b);
      assert m - {b} - {a} == m - {a} - {b};
    }
  }

  lemma TotalOfUpdate(m: map<AccountID, int64>, a: AccountID, x: int64)
    ensures Total(m[a := x]) == Total(m) - (if a in m then m[a] as int else 0) + x as int
  {
    TotalWithout(m[a := x], a);
    assert m[a := x] - {a} == m - {a};
    if a in m {
      TotalWithout(m, a);
    } else {
      assert m - {a} == m;
    }
  }

  /** The largest debit cap in force at genesis or after any change so far. */
  function LargestCap(g: Genesis, rs: seq<Record>): uint64 {
    if rs == [] then g.policy.debitCap
    else
      var before := LargestCap(g, rs[..|rs| - 1]);
      match rs[|rs| - 1]
      case ChangeRecord(c) => if c.policy.debitCap > before then c.policy.debitCap else before
      case _ => before
  }

  /** The policy in force after these records: the last change, or the genesis policy. */
  function InForce(g: Genesis, rs: seq<Record>): Policy {
    if rs == [] then g.policy
    else
      match rs[|rs| - 1]
      case ChangeRecord(c) => c.policy
      case _ => InForce(g, rs[..|rs| - 1])
  }

  /** What an account received less what it paid, over these records. */
  function Net(rs: seq<Record>, a: AccountID): int {
    if rs == [] then 0
    else
      Net(rs[..|rs| - 1], a) +
      match rs[|rs| - 1]
      case SpendRecord(s) => (if s.to == a then s.amount else 0) - (if s.from == a then s.amount else 0)
      case _ => 0
  }

  /** The balances sum to zero, none is below minus the largest cap ever in force, each is what the
      account received less what it paid, and the policy is the one in force. */
  ghost predicate Sound(g: Genesis, rs: seq<Record>, v: View) {
    && Total(v.balances) == 0
    && (forall a :: 0 <= Balance(v, a) as int + LargestCap(g, rs))
    && (forall a :: Balance(v, a) as int == Net(rs, a))
    && v.pol == InForce(g, rs)
    && v.pol.debitCap <= LargestCap(g, rs)
  }

  lemma SpendConserves(w: World, g: Genesis, v: View, s: Spend)
    requires PolicyError(v.pol).None? && SpendError(w, g, v, s).None?
    ensures Total(Apply(w, g, v, SpendRecord(s)).balances) == Total(v.balances)
  {
    var amt := s.amount as int64;
    TotalOfUpdate(v.balances, s.from, Balance(v, s.from) - amt);
    var debited := v.balances[s.from := Balance(v, s.from) - amt];
    TotalOfUpdate(debited, s.to, Balance(v, s.to) + amt);
  }

  /** How an admitted spend moves every balance, and the floor it respects. */
  lemma SpendMoves(w: World, g: Genesis, v: View, s: Spend, a: AccountID)
    requires PolicyError(v.pol).None? && SpendError(w, g, v, s).None?
    ensures var v' := Apply(w, g, v, SpendRecord(s));
      && Balance(v', a) as int == Balance(v, a) as int
           + (if s.to == a then s.amount else 0) - (if s.from == a then s.amount else 0)
      && (0 <= Balance(v', a) as int + v.pol.debitCap || Balance(v', a) >= Balance(v, a))
  {
  }

  lemma SoundStep(w: World, g: Genesis, rs: seq<Record>, v: View, r: Record)
    requires Sound(g, rs, v) && PolicyError(v.pol).None? && AdmitError(w, g, v, r).None?
    ensures Sound(g, rs + [r], Apply(w, g, v, r))
  {
    var all := rs + [r];
    assert all[..|all| - 1] == rs;
    if r.SpendRecord? {
      SpendConserves(w, g, v, r.spend);
      var v' := Apply(w, g, v, r);
      assert v'.pol == v.pol && LargestCap(g, all) == LargestCap(g, rs);
      forall a: AccountID ensures 0 <= Balance(v', a) as int + LargestCap(g, all) && Balance(v', a) as int == Net(all, a) {
        hide Apply, SpendError, Balance;
        SpendMoves(w, g, v, r.spend, a);
      }
    } else {
      var v' := Apply(w, g, v, r);
      assert v'.balances == v.balances && LargestCap(g, all) >= LargestCap(g, rs);
      forall a: AccountID ensures 0 <= Balance(v', a) as int + LargestCap(g, all) && Balance(v', a) as int == Net(all, a) {
        assert Balance(v', a) == Balance(v, a) && Net(all, a) == Net(rs, a);
      }
    }
  }

  /** Conservation and bounds at every prefix of every history that replays, and so of every run. */
  lemma {:induction false} EveryHistorySound(w: World, g: Genesis, rs: seq<Record>)
    requires GenesisOk(g) && Fold(w, g, rs).Ok?
    ensures Sound(g, rs, Fold(w, g, rs).value)
  {
    hide Sound, AdmitError, Apply;
    if rs == [] {
      EmptySound(g);
    } else {
      var front := rs[..|rs| - 1];
      EveryHistorySound(w, g, front);
      assert rs == front + [rs[|rs| - 1]];
      SoundStep(w, g, front, Fold(w, g, front).value, rs[|rs| - 1]);
    }
  }

  lemma EmptySound(g: Genesis)
    ensures Sound(g, [], FirstView(g))
  {
  }

  /** What admission guarantees about a record, and what applying it changes. */
  lemma AdmittedFacts(w: World, g: Genesis, v: View, r: Record)
    requires PolicyError(v.pol).None? && AdmitError(w, g, v, r).None?
    ensures r.SpendRecord? || r.ChangeRecord?
    ensures r.SpendRecord? ==>
      && v.pol.mode.Credit?
      && LastNonce(v, r.spend.from) < r.spend.nonce
      && 0 <= Balance(v, r.spend.from) as int - r.spend.amount + v.pol.debitCap
    ensures r.ChangeRecord? ==> v.version < r.change.version
    ensures var v' := Apply(w, g, v, r);
      && v'.version == (if r.ChangeRecord? then r.change.version else v.version)
      && forall a :: LastNonce(v', a) == if r.SpendRecord? && a == r.spend.from then r.spend.nonce else LastNonce(v, a)
  {
  }

  /** The nonces and the version are the largest the history used, or zero. */
  ghost predicate Remembers(rs: seq<Record>, v: View) {
    && (forall a :: LastNonce(v, a) == 0 || exists i :: 0 <= i < |rs| && rs[i].SpendRecord? && rs[i].spend.from == a && rs[i].spend.nonce == LastNonce(v, a))
    && (v.version == 0 || exists i :: 0 <= i < |rs| && rs[i].ChangeRecord? && rs[i].change.version == v.version)
    && (forall i :: 0 <= i < |rs| && rs[i].SpendRecord? ==> rs[i].spend.nonce <= LastNonce(v, rs[i].spend.from))
    && (forall i :: 0 <= i < |rs| && rs[i].ChangeRecord? ==> rs[i].change.version <= v.version)
  }

  lemma {:induction false} EveryHistoryRemembered(w: World, g: Genesis, rs: seq<Record>)
    requires GenesisOk(g) && Fold(w, g, rs).Ok?
    ensures Remembers(rs, Fold(w, g, rs).value)
  {
    hide AdmitError, Apply, LastNonce;
    if rs != [] {
      var front := rs[..|rs| - 1];
      EveryHistoryRemembered(w, g, front);
      AdmittedFacts(w, g, Fold(w, g, front).value, rs[|rs| - 1]);
      assert forall i :: 0 <= i < |rs| - 1 ==> rs[i] == front[i];
      RememberStep(front, Fold(w, g, front).value, rs, Fold(w, g, rs).value);
    } else {
      NothingToRemember(g);
    }
  }

  lemma NothingToRemember(g: Genesis)
    ensures Remembers([], FirstView(g))
  {
  }

  lemma RememberStep(front: seq<Record>, v: View, rs: seq<Record>, v': View)
    requires rs != [] && front == rs[..|rs| - 1] && Remembers(front, v)
    requires var r := rs[|rs| - 1];
      && (r.SpendRecord? ==> LastNonce(v, r.spend.from) < r.spend.nonce) && (r.ChangeRecord? ==> v.version < r.change.version)
      && v'.version == (if r.ChangeRecord? then r.change.version else v.version)
      && forall a :: LastNonce(v', a) == if r.SpendRecord? && a == r.spend.from then r.spend.nonce else LastNonce(v, a)
    ensures Remembers(rs, v')
  {
    hide LastNonce;
    var r, n := rs[|rs| - 1], |rs| - 1;
    assert forall i :: 0 <= i < n ==> rs[i] == front[i];
    forall a ensures LastNonce(v', a) == 0 || exists i :: 0 <= i < |rs| && rs[i].SpendRecord? && rs[i].spend.from == a && rs[i].spend.nonce == LastNonce(v', a) {
      if r.SpendRecord? && a == r.spend.from {
        assert rs[n].SpendRecord? && rs[n].spend.nonce == LastNonce(v', a);
      } else if LastNonce(v, a) != 0 {
        var i :| 0 <= i < |front| && front[i].SpendRecord? && front[i].spend.from == a && front[i].spend.nonce == LastNonce(v, a);
        assert rs[i] == front[i];
      }
    }
    if r.ChangeRecord? {
      assert rs[n].ChangeRecord? && rs[n].change.version == v'.version;
    } else if v.version != 0 {
      var i :| 0 <= i < |front| && front[i].ChangeRecord? && front[i].change.version == v.version;
      assert rs[i] == front[i];
    }
  }

  /** The record at position i was admitted against the replay of what precedes it. */
  lemma AdmittedInPlace(w: World, g: Genesis, rs: seq<Record>, i: nat)
    requires GenesisOk(g) && i < |rs| && Fold(w, g, rs).Ok?
    ensures Fold(w, g, rs[..i]).Ok? && AdmitError(w, g, Fold(w, g, rs[..i]).value, rs[i]).None?
  {
    hide Fold, AdmitError, Apply;
    FoldOfPrefix(w, g, rs, i);
    FoldOfPrefix(w, g, rs, i + 1);
    assert rs[..i + 1] == rs[..i] + [rs[i]];
    FoldStep(w, g, rs[..i], rs[i]);
  }

  /** A single history: in every store that replays, each payer's nonces strictly increase, policy
      versions strictly increase, and so no record occurs twice. */
  lemma SingleHistory(w: World, g: Genesis, rs: seq<Record>, i: nat, j: nat)
    requires GenesisOk(g) && i < j < |rs| && Fold(w, g, rs).Ok?
    ensures rs[i].SpendRecord? && rs[j].SpendRecord? && rs[i].spend.from == rs[j].spend.from ==>
              rs[i].spend.nonce < rs[j].spend.nonce
    ensures rs[i].ChangeRecord? && rs[j].ChangeRecord? ==> rs[i].change.version < rs[j].change.version
    ensures rs[i] != rs[j]
  {
    hide Fold, AdmitError, LastNonce;
    AdmittedInPlace(w, g, rs, j);
    AdmittedFacts(w, g, Fold(w, g, rs[..j]).value, rs[j]);
    EveryHistoryRemembered(w, g, rs[..j]);
    assert rs[..j][i] == rs[i];
  }

  /** No spend sits where the policy then in force is escrow, and every spend was within the cap then
      in force. */
  lemma SpendsOnlyUnderCredit(w: World, g: Genesis, rs: seq<Record>, i: nat)
    requires GenesisOk(g) && i < |rs| && Fold(w, g, rs).Ok? && rs[i].SpendRecord?
    ensures InForce(g, rs[..i]).mode.Credit?
    ensures 0 <= Net(rs[..i], rs[i].spend.from) - rs[i].spend.amount + InForce(g, rs[..i]).debitCap
  {
    hide Fold, AdmitError;
    AdmittedInPlace(w, g, rs, i);
    AdmittedFacts(w, g, Fold(w, g, rs[..i]).value, rs[i]);
    EveryHistorySound(w, g, rs[..i]);
  }

  // ------------------------------------------------------------------ who may write what

  /** The directory knows the account, under a key of the pinned length that hashes to it. */
  predicate Registered(w: World, platform: string, a: AccountID) {
    w.directory(a).Some? && |w.directory(a).value| == KEY_SIZE && w.accountIdFor(platform, w.directory(a).value) == a
  }

  /** The payer's own key signed the spend. */
  predicate SignedByPayer(w: World, s: Spend) {
    w.directory(s.from).Some? && |s.signature| == SIGNATURE_SIZE && w.spendSigned(w.directory(s.from).value, s)
  }

  /** Exactly which spend a history takes next, told by the records in it: under a credit policy, for this
      platform, a positive amount between two different registered accounts, signed by the payer, with a nonce
      above every earlier one of the payer, within the cap in force, and without overflowing the payee. */
  lemma SpendAdmittedExactly(w: World, g: Genesis, rs: seq<Record>, s: Spend)
    requires GenesisOk(g) && Fold(w, g, rs).Ok?
    ensures Fold(w, g, rs + [SpendRecord(s)]).Ok? <==>
      && InForce(g, rs).mode.Credit? && s.platform == g.platform
      && s.from != s.to && 0 < s.amount <= 0x7FFF_FFFF_FFFF_FFFF
      && Registered(w, g.platform, s.from) && Registered(w, g.platform, s.to) && SignedByPayer(w, s)
      && s.nonce > 0
      && (forall i :: 0 <= i < |rs| && rs[i].SpendRecord? && rs[i].spend.from == s.from ==> rs[i].spend.nonce < s.nonce)
      && Net(rs, s.from) - s.amount + InForce(g, rs).debitCap >= 0
      && Net(rs, s.to) + s.amount <= 0x7FFF_FFFF_FFFF_FFFF
  {
    FoldStep(w, g, rs, SpendRecord(s));
    EveryHistorySound(w, g, rs);
    EveryHistoryRemembered(w, g, rs);
    hide Fold, Apply;
    NonceIsNew(rs, Fold(w, g, rs).value, s);
    SpendPasses(w, g, Fold(w, g, rs).value, s);
  }

  lemma NonceIsNew(rs: seq<Record>, v: View, s: Spend)
    requires Remembers(rs, v)
    ensures LastNonce(v, s.from) < s.nonce <==>
      s.nonce > 0 && forall i :: 0 <= i < |rs| && rs[i].SpendRecord? && rs[i].spend.from == s.from ==> rs[i].spend.nonce < s.nonce
  {
    hide LastNonce;
  }

  lemma SpendPasses(w: World, g: Genesis, v: View, s: Spend)
    requires PolicyError(v.pol).None?
    ensures SpendError(w, g, v, s).None? <==>
      && v.pol.mode.Credit? && s.platform == g.platform
      && s.from != s.to && 0 < s.amount <= 0x7FFF_FFFF_FFFF_FFFF
      && Registered(w, g.platform, s.from) && Registered(w, g.platform, s.to) && SignedByPayer(w, s)
      && LastNonce(v, s.from) < s.nonce
      && Balance(v, s.from) as int - s.amount + v.pol.debitCap >= 0
      && Balance(v, s.to) as int + s.amount <= 0x7FFF_FFFF_FFFF_FFFF
  {
  }

  /** In every store that replays, every spend was authorised by its payer: the directory's key for the payer
      hashes to the account on this platform and signed the spend. */
  lemma SpendsSigned(w: World, g: Genesis, rs: seq<Record>, i: nat)
    requires GenesisOk(g) && i < |rs| && Fold(w, g, rs).Ok? && rs[i].SpendRecord?
    ensures Registered(w, g.platform, rs[i].spend.from) && SignedByPayer(w, rs[i].spend) && rs[i].spend.platform == g.platform
  {
    hide Fold;
    FoldOfPrefix(w, g, rs, i);
    FoldOfPrefix(w, g, rs, i + 1);
    assert rs[..i + 1] == rs[..i] + [SpendRecord(rs[i].spend)];
    SpendAdmittedExactly(w, g, rs[..i], rs[i].spend);
  }

  /** Exactly which policy change a history takes next, told by the records in it: for this platform, with a
      version above every earlier one, a known mode, a cap in range, and a quorum of steward signatures. */
  lemma ChangeAdmittedExactly(w: World, g: Genesis, rs: seq<Record>, c: PolicyChange)
    requires GenesisOk(g) && Fold(w, g, rs).Ok?
    ensures forall k, s :: StewardSigned(w, c)(k, s) == w.stewardSigned(k, c, s)
    ensures Fold(w, g, rs + [ChangeRecord(c)]).Ok? <==>
      && c.platform == g.platform && c.version > 0
      && (forall i :: 0 <= i < |rs| && rs[i].ChangeRecord? ==> rs[i].change.version < c.version)
      && !c.policy.mode.Unknown? && c.policy.debitCap <= 0x7FFF_FFFF_FFFF_FFFF
      && g.threshold >= 1 && |Q.Tally(StewardSigned(w, c), g.stewards, c.sigs)| >= g.threshold
  {
    FoldStep(w, g, rs, ChangeRecord(c));
    EveryHistoryRemembered(w, g, rs);
    hide Fold, Apply, LastNonce, Q.Tally;
    VersionIsNew(rs, Fold(w, g, rs).value, c);
  }

  lemma VersionIsNew(rs: seq<Record>, v: View, c: PolicyChange)
    requires Remembers(rs, v)
    ensures v.version < c.version <==>
      c.version > 0 && forall i :: 0 <= i < |rs| && rs[i].ChangeRecord? ==> rs[i].change.version < c.version
  {
    hide LastNonce;
  }

  /** In every store that replays, every policy change carries valid signatures of at least the threshold of
      distinct stewards. */
  lemma ChangesAuthorised(w: World, g: Genesis, rs: seq<Record>, i: nat)
    requires GenesisOk(g) && i < |rs| && Fold(w, g, rs).Ok? && rs[i].ChangeRecord?
    ensures rs[i].change.platform == g.platform
    ensures exists keys: set<Key> :: |keys| >= g.threshold >= 1 && forall k :: k in keys ==> StewardBacks(w, g, rs[i].change, k)
  {
    hide Fold, Q.Tally;
    var c := rs[i].change;
    FoldOfPrefix(w, g, rs, i);
    FoldOfPrefix(w, g, rs, i + 1);
    assert rs[..i + 1] == rs[..i] + [ChangeRecord(c)];
    ChangeAdmittedExactly(w, g, rs[..i], c);
    Q.ReachedMeans(StewardSigned(w, c), g.stewards, g.threshold, c.sigs);
    var keys: set<Key> :| |keys| >= g.threshold && Q.AllSigned(StewardSigned(w, c), g.stewards, c.sigs, keys);
    forall k | k in keys ensures StewardBacks(w, g, c, k) {
      var s :| s in c.sigs && |s| == SIGNATURE_SIZE && StewardSigned(w, c)(k, s);
      assert w.stewardSigned(k, c, s);
    }
  }

  /** A steward of the genesis, under a key of the pinned length, signed the change. */
  ghost predicate StewardBacks(w: World, g: Genesis, c: PolicyChange, k: Key) {
    k in g.stewards && |k| == KEY_SIZE && exists s :: s in c.sigs && |s| == SIGNATURE_SIZE && w.stewardSigned(k, c, s)
  }

  // ------------------------------------------------------------------ stale ledgers

  /** The spend t gives back all that s moved and the whole credit line on top: s.to can pay it only once
      s is known. Its keys and signature are in order. */
  predicate PaysBack(w: World, g: Genesis, s: Spend, t: Spend) {
    && t.platform == g.platform && t.from == s.to && t.to == s.from
    && t.amount == s.amount + g.policy.debitCap && t.amount <= MAX_INT64 as int && t.nonce > 0
    && KeyError(w, g, t.from).None? && KeyError(w, g, t.to).None?
    && |t.signature| == SIGNATURE_SIZE && w.spendSigned(w.directory(t.from).value, t)
  }

  lemma RunStep(w: World, g: Genesis, steps: seq<Step>, step: Step)
    requires GenesisOk(g)
    ensures Run(w, g, steps + [step]) == Next(w, g, Run(w, g, steps), step)
  {
    hide Next;
    assert (steps + [step])[..|steps|] == steps;
  }

  /** Two ledgers on one store, the first of which has posted s. */
  ghost function OnePosted(w: World, g: Genesis, s: Spend): Shared
    requires GenesisOk(g)
  {
    Run(w, g, [OpenLedger] + [OpenLedger] + [TryAppend(0, SpendRecord(s))])
  }

  lemma OpenOnEmpty(w: World, g: Genesis, sh: Shared)
    requires Refines(w, g, sh) && sh.records == []
    ensures Next(w, g, sh, OpenLedger) == sh.(ledgers := sh.ledgers + [Process(FirstView(g), 0)])
  {
    hide Refines;
  }

  lemma OnePostedIs(w: World, g: Genesis, s: Spend)
    requires GenesisOk(g) && SpendError(w, g, FirstView(g), s).None?
    ensures OnePosted(w, g, s).records == [SpendRecord(s)] && |OnePosted(w, g, s).ledgers| == 2
    ensures OnePosted(w, g, s).ledgers[1] == Process(FirstView(g), 0)
  {
    assert Run(w, g, []) == Shared([], []);
    assert [] + [OpenLedger] == [OpenLedger];
    hide Run, Refines, Apply, ReplayTail, SpendError;
    RunStep(w, g, [], OpenLedger);
    RunStep(w, g, [OpenLedger], OpenLedger);
    RunStep(w, g, [OpenLedger] + [OpenLedger], TryAppend(0, SpendRecord(s)));
    OpenOnEmpty(w, g, Run(w, g, []));
    OpenOnEmpty(w, g, Run(w, g, [OpenLedger]));
    assert Run(w, g, [OpenLedger] + [OpenLedger]).ledgers == [Process(FirstView(g), 0), Process(FirstView(g), 0)];
  }

  /** A stale ledger refuses what the shared history admits: the second ledger, which has not seen s,
      answers that t is over the limit, and admits it once it has caught up. */
  lemma StaleLedgerRefuses(w: World, g: Genesis, s: Spend, t: Spend)
    requires GenesisOk(g) && SpendError(w, g, FirstView(g), s).None? && PaysBack(w, g, s, t)
    ensures var sh := OnePosted(w, g, s);
      && |sh.ledgers| == 2 && PolicyError(sh.ledgers[1].view.pol).None?
      && AdmitError(w, g, sh.ledgers[1].view, SpendRecord(t)) == Some(OverLimit)
      && Next(w, g, sh, TryAppend(1, SpendRecord(t))) == sh
      && Fold(w, g, sh.records).Ok? && AdmitError(w, g, Fold(w, g, sh.records).value, SpendRecord(t)).None?
      && Refines(w, g, Next(w, g, sh, CatchUp(1)))
      && Next(w, g, Next(w, g, sh, CatchUp(1)), TryAppend(1, SpendRecord(t))).records == [SpendRecord(s), SpendRecord(t)]
  {
    OnePostedIs(w, g, s);
    var sh := OnePosted(w, g, s);
    hide Run, OnePosted;
    assert [SpendRecord(s)][..0] == [];
    assert Fold(w, g, []) == Ok(FirstView(g));
    assert Fold(w, g, [SpendRecord(s)]) == Ok(Apply(w, g, FirstView(g), SpendRecord(s)));
    PaidBackAdmitted(w, g, s, t);
    hide Apply, SpendError;
    StepKeepsRefinement(w, g, sh, CatchUp(1));
    ReplayTailReachesEnd(w, g, sh.ledgers[1], sh.records);
    assert sh.records[..1] == sh.records;
  }

  lemma PaidBackAdmitted(w: World, g: Genesis, s: Spend, t: Spend)
    requires GenesisOk(g) && SpendError(w, g, FirstView(g), s).None? && PaysBack(w, g, s, t)
    ensures SpendError(w, g, FirstView(g), t) == Some(OverLimit)
    ensures SpendError(w, g, Apply(w, g, FirstView(g), SpendRecord(s)), t).None?
  {
    hide KeyError;
  }
}
