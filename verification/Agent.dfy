/** The agent's loop of cmd/cloudy-agent/loop.go: it numbers its messages, lists the node, heartbeats,
    polls for work, and settles each assignment with one report or one decline. */
module Agent {
  import opened Common
  import R = Relay

  // ------------------------------------------------------------------ message numbers

  /** A clock reading in nanoseconds, as a signed 64-bit integer. */
  type Instant = x: int | -0x8000_0000_0000_0000 <= x < 0x8000_0000_0000_0000

  /** The conversion of a signed clock reading to an unsigned 64-bit number. */
  function Unsigned(x: Instant): (r: nat)
    ensures r < TWO_64
  {
    if x < 0 then x + TWO_64 else x
  }

  /** nextSeq, with the 64-bit wrap of the source. */
  function NextSeq(last: nat, clock: Instant): (r: nat)
    requires last < TWO_64
    ensures r < TWO_64
  {
    var s := Unsigned(clock);
    if s <= last then (last + 1) % TWO_64 else s
  }

  /** Numbers strictly increase exactly until the last one is 2^64 - 1, whatever the clock does. */
  lemma NextSeqIncreases(last: nat, clock: Instant)
    requires last < TWO_64
    ensures NextSeq(last, clock) > last <==> last != TWO_64 - 1
  {
  }

  /** The numbers a loop issues for successive clock readings. */
  function Issued(clocks: seq<Instant>): (r: seq<nat>)
    ensures |r| == |clocks| && forall i :: 0 <= i < |r| ==> r[i] < TWO_64
  {
    if clocks == [] then []
    else
      var r := Issued(clocks[..|clocks| - 1]);
      r + [NextSeq(Latest(r), clocks[|clocks| - 1])]
  }

  function Latest(r: seq<nat>): nat {
    if r == [] then 0 else r[|r| - 1]
  }

  /** Over whole runs: all numbers strictly increase exactly when none before the last is 2^64 - 1. */
  lemma {:induction false} IssuedIncreaseExactly(clocks: seq<Instant>)
    ensures var r := Issued(clocks);
      (forall i, j :: 0 <= i < j < |r| ==> r[i] < r[j]) <==> (forall i :: 0 <= i < |r| - 1 ==> r[i] != TWO_64 - 1)
  {
    var r := Issued(clocks);
    if |r| > 1 {
      var front := Issued(clocks[..|clocks| - 1]);
      IssuedIncreaseExactly(clocks[..|clocks| - 1]);
      assert r == front + [r[|r| - 1]];
      assert forall i :: 0 <= i < |front| ==> front[i] == r[i];
      if forall i :: 0 <= i < |r| - 1 ==> r[i] != TWO_64 - 1 {
        NextSeqIncreases(Latest(front), clocks[|clocks| - 1]);
        forall i, j | 0 <= i < j < |r| ensures r[i] < r[j] {
          if j < |front| {
            assert front[i] == r[i] && front[j] == r[j];
          } else if i < |front| - 1 {
            assert front[i] < front[|front| - 1];
          }
        }
      } else {
        var i :| 0 <= i < |r| - 1 && r[i] == TWO_64 - 1;
        assert !(r[i] < r[|r| - 1]);
      }
    }
  }

  /** The last nanosecond before 1970 is the largest number; the next one starts over. */
  lemma NumbersCanStartOver()
    ensures Issued([-1, 0]) == [TWO_64 - 1, 0]
  {
    var clocks: seq<Instant> := [-1, 0];
    assert clocks[..1] == [-1] && clocks[..1][..0] == [];
    assert Issued(clocks[..1]) == [TWO_64 - 1];
  }

  /** With clocks after 1970 and fewer than 2^63 messages every number is larger than all before it,
      and at least the clock reading it was issued at. */
  lemma {:induction false} IssuedIncrease(clocks: seq<Instant>)
    requires |clocks| < TWO_63 && forall i :: 0 <= i < |clocks| ==> clocks[i] >= 0
    ensures var r := Issued(clocks);
      Latest(r) < TWO_63 + |clocks| &&
      (forall i, j :: 0 <= i < j < |r| ==> r[i] < r[j]) && (forall i :: 0 <= i < |r| ==> clocks[i] <= r[i] <= Latest(r))
  {
    if clocks != [] {
      IssuedIncrease(clocks[..|clocks| - 1]);
    }
  }

  /** Until 2^64 - 1 is issued, the next number is above every one before it. */
  lemma NewestNumber(clocks: seq<Instant>, clock: Instant)
    requires TWO_64 - 1 !in Issued(clocks)
    ensures forall n :: n in Issued(clocks) ==> n < Issued(clocks + [clock])[|clocks|]
  {
    var all := clocks + [clock];
    assert all[..|clocks|] == clocks;
    IssuedIncreaseExactly(all);
    var r := Issued(all);
    assert r == Issued(clocks) + [r[|clocks|]];
    assert forall i :: 0 <= i < |r| - 1 ==> r[i] == Issued(clocks)[i] && r[i] in Issued(clocks);
  }

  /** NodeAuth's request timestamps, with the 64-bit wrap of the source. */
  function NextStamp(last: Instant, clock: Instant): Instant
  {
    if clock > last then clock else if last + 1 == TWO_63 then last - (TWO_64 - 1) else last + 1
  }

  lemma NextStampIncreases(last: Instant, clock: Instant)
    ensures NextStamp(last, clock) > last <==> last != TWO_63 - 1
  {
  }

  // ------------------------------------------------------------------ capabilities

  datatype Kind = Compute | Print | Storage | Service

  function KindName(k: Kind): string {
    match k
    case Compute => "compute"
    case Print => "print"
    case Storage => "storage"
    case Service => "service"
  }

  /** capsKey: the kinds joined by commas. */
  function CapsKey(ks: seq<Kind>): string {
    if |ks| == 0 then ""
    else if |ks| == 1 then KindName(ks[0])
    else KindName(ks[0]) + "," + CapsKey(ks[1..])
  }

  /** The text after the first comma, and whether there is one. */
  function AfterComma(s: string): Option<string> {
    if s == "" then None else if s[0] == ',' then Some(s[1..]) else AfterComma(s[1..])
  }

  lemma {:induction false} NoCommaFront(a: string, b: string)
    requires forall i :: 0 <= i < |a| ==> a[i] != ','
    ensures AfterComma(a + b) == AfterComma(b)
    decreases |a|
  {
    if a == "" {
      assert a + b == b;
    } else {
      assert (a + b)[1..] == a[1..] + b;
      NoCommaFront(a[1..], b);
    }
  }

  lemma NameHasNoComma(k: Kind)
    ensures |KindName(k)| > 2 && forall i :: 0 <= i < |KindName(k)| ==> KindName(k)[i] != ','
  {
    match k case Compute => case Print => case Storage => case Service =>
  }

  lemma KindOfName(ks: seq<Kind>)
    requires |ks| > 0
    ensures |CapsKey(ks)| > 2
    ensures CapsKey(ks)[0] == KindName(ks[0])[0] && CapsKey(ks)[1] == KindName(ks[0])[1]
    ensures AfterComma(CapsKey(ks)) == if |ks| == 1 then None else Some(CapsKey(ks[1..]))
  {
    hide KindName;
    var n := KindName(ks[0]);
    NameHasNoComma(ks[0]);
    if |ks| == 1 {
      NoCommaFront(n, "");
      assert n + "" == n;
    } else {
      var rest := "," + CapsKey(ks[1..]);
      NoCommaFront(n, rest);
      assert CapsKey(ks) == n + rest;
      assert rest[1..] == CapsKey(ks[1..]);
    }
  }

  /** Equal keys mean equal capabilities, so a heartbeat re-lists exactly when they changed. */
  lemma {:induction false} CapsKeyInjective(a: seq<Kind>, b: seq<Kind>)
    ensures CapsKey(a) == CapsKey(b) <==> a == b
    decreases |a|
  {
    if CapsKey(a) == CapsKey(b) {
      if |a| > 0 { KindOfName(a); }
      if |b| > 0 { KindOfName(b); }
      if |a| > 0 {
        if |a| > 1 { CapsKeyInjective(a[1..], b[1..]); }
        assert a == [a[0]] + a[1..] && b == [b[0]] + b[1..];
      }
    }
  }

  // ------------------------------------------------------------------ settling one assignment

  /** What the node is, and how it checks assignments: no check without a coordinator key. */
  datatype Node = Node(id: string, verify: Option<R.Assignment -> bool>)

  datatype RunResult = OwnerReturned | NoExecutor | Failed | Finished(ok: bool)

  /** What the node observes while it settles one assignment: the kinds it accepts then, whether the
      owner gate is closed, how a run would end, and whether the message reaches the coordinator. */
  datatype Observed = Observed(accepts: seq<Kind>, gated: bool, run: RunResult, delivered: bool)

  datatype Reason = LocalPolicy | Unavailable
  datatype Message = Declined(reason: Reason) | Reported(exitCode: nat)

  /** The observable acts of the loop: running a job, and sending its settlement. */
  datatype Act = Ran(job: string) | Said(job: string, message: Message, delivered: bool)

  function WorkloadKind(w: string): Option<Kind> {
    if w == "compute" then Some(Compute) else if w == "storage" then Some(Storage) else if w == "print" then Some(Print) else None
  }

  /** The assignment is this node's, verifies when there is a key, and names work the node takes now. */
  predicate Runnable(me: Node, a: R.Assignment, o: Observed) {
    && a.nodeId == me.id
    && (me.verify.Some? ==> me.verify.value(a))
    && WorkloadKind(a.workload).Some? && WorkloadKind(a.workload).value in o.accepts
  }

  /** Whether the executor ran, and what is sent. */
  function Decision(me: Node, a: R.Assignment, o: Observed): (bool, Message) {
    if Runnable(me, a, o) then
      match o.run
      case OwnerReturned => (false, Declined(Unavailable))
      case NoExecutor => (false, Declined(LocalPolicy))
      case Failed => (true, Reported(1))
      case Finished(ok) => (true, Reported(if ok then 0 else 1))
    else
      var known := a.nodeId == me.id && (me.verify.Some? ==> me.verify.value(a)) && WorkloadKind(a.workload).Some?;
      (false, Declined(if known && o.gated then Unavailable else LocalPolicy))
  }

  function Acts(me: Node, a: R.Assignment, o: Observed): seq<Act> {
    var d := Decision(me, a, o);
    (if d.0 then [Ran(a.jobId)] else []) + [Said(a.jobId, d.1, o.delivered)]
  }

  // ------------------------------------------------------------------ polling

  /** An assignment the coordinator answered with, and what the node observes if it settles it. */
  datatype Item = Item(a: R.Assignment, seen: Observed)

  datatype Memo = Memo(handled: set<string>, log: seq<Act>)
  datatype Polled = Polled(memo: Memo, failed: bool)

  /** PollOnce over the coordinator's answer: it stops at the first message that is not delivered. */
  function PollAll(me: Node, m: Memo, items: seq<Item>): Polled {
    if |items| == 0 then Polled(m, false)
    else
      var p, it := PollAll(me, m, items[..|items| - 1]), items[|items| - 1];
      if p.failed || it.a.jobId in p.memo.handled then p
      else
        var log := p.memo.log + Acts(me, it.a, it.seen);
        if it.seen.delivered then Polled(Memo(p.memo.handled + {it.a.jobId}, log), false)
        else Polled(Memo(p.memo.handled, log), true)
  }

  predicate Settled(act: Act) {
    act.Said? && act.delivered
  }

  /** The handled set is exactly the jobs with a delivered settlement. */
  ghost predicate HandledExact(m: Memo) {
    forall job :: job in m.handled <==> exists i :: 0 <= i < |m.log| && Settled(m.log[i]) && m.log[i].job == job
  }

  /** Once a job's settlement is delivered, nothing is run or sent for it again. */
  ghost predicate SettledForGood(m: Memo) {
    forall i, j :: 0 <= i < j < |m.log| && Settled(m.log[i]) ==> m.log[j].job != m.log[i].job
  }

  /** What settling one unhandled job keeps. */
  lemma OneSettled(me: Node, m: Memo, it: Item)
    requires HandledExact(m) && SettledForGood(m) && it.a.jobId !in m.handled
    ensures var log := m.log + Acts(me, it.a, it.seen);
      var next := Memo(if it.seen.delivered then m.handled + {it.a.jobId} else m.handled, log);
      HandledExact(next) && SettledForGood(next)
  {
    hide Decision;
    var acts := Acts(me, it.a, it.seen);
    var job := it.a.jobId;
    assert acts[|acts| - 1].Said? && acts[|acts| - 1].delivered == it.seen.delivered;
    assert forall i :: 0 <= i < |acts| ==> acts[i].job == job && (i < |acts| - 1 ==> acts[i].Ran?);
    HandledGrows(m, acts, job, it.seen.delivered);
    GoodGrows(m, acts, job);
  }

  predicate AboutOne(acts: seq<Act>, job: string) {
    |acts| > 0 && (forall i :: 0 <= i < |acts| ==> acts[i].job == job) && forall i :: 0 <= i < |acts| - 1 ==> acts[i].Ran?
  }

  lemma HandledGrows(m: Memo, acts: seq<Act>, job: string, delivered: bool)
    requires HandledExact(m) && AboutOne(acts, job) && Settled(acts[|acts| - 1]) == delivered
    ensures HandledExact(Memo(if delivered then m.handled + {job} else m.handled, m.log + acts))
  {
    var log := m.log + acts;
    var handled := if delivered then m.handled + {job} else m.handled;
    forall x ensures x in handled <==> exists i :: 0 <= i < |log| && Settled(log[i]) && log[i].job == x {
      if x in m.handled {
        var i :| 0 <= i < |m.log| && Settled(m.log[i]) && m.log[i].job == x;
        assert log[i] == m.log[i];
      } else if delivered && x == job {
        assert Settled(log[|log| - 1]) && log[|log| - 1].job == x;
      } else {
        forall i | 0 <= i < |log| ensures !(Settled(log[i]) && log[i].job == x) {
          assert log[i] == if i < |m.log| then m.log[i] else acts[i - |m.log|];
        }
      }
    }
  }

  lemma GoodGrows(m: Memo, acts: seq<Act>, job: string)
    requires HandledExact(m) && SettledForGood(m) && AboutOne(acts, job) && job !in m.handled
    ensures SettledForGood(Memo(m.handled, m.log + acts))
  {
    var log := m.log + acts;
    forall i | |m.log| <= i < |log| - 1 ensures !Settled(log[i]) {
      assert log[i] == acts[i - |m.log|];
    }
    forall i, j | 0 <= i < j < |log| && Settled(log[i]) ensures log[j].job != log[i].job {
      assert m.log[i] == log[i] && m.log[i].job in m.handled;
      if j < |m.log| { assert m.log[j] == log[j]; } else { assert log[j] == acts[j - |m.log|]; }
    }
  }

  /** A poll keeps both, whatever the coordinator answers; one that does not fail leaves every job of
      the answer handled. */
  lemma {:induction false} PollKeeps(me: Node, m: Memo, items: seq<Item>)
    requires HandledExact(m) && SettledForGood(m)
    ensures var p := PollAll(me, m, items);
      HandledExact(p.memo) && SettledForGood(p.memo) && m.handled <= p.memo.handled && m.log <= p.memo.log &&
      (!p.failed ==> forall i :: 0 <= i < |items| ==> items[i].a.jobId in p.memo.handled)
  {
    hide HandledExact, SettledForGood, Acts;
    if |items| > 0 {
      var front, it := items[..|items| - 1], items[|items| - 1];
      PollKeeps(me, m, front);
      var p := PollAll(me, m, front);
      if !p.failed {
        forall i | 0 <= i < |front| ensures items[i].a.jobId in p.memo.handled {
          assert front[i] == items[i];
        }
      }
      if !p.failed && it.a.jobId !in p.memo.handled { OneSettled(me, p.memo, it); }
    }
  }

  /** Every sequence of polls of one loop. */
  function PollRun(me: Node, polls: seq<seq<Item>>): Memo {
    if |polls| == 0 then Memo({}, []) else PollAll(me, PollRun(me, polls[..|polls| - 1]), polls[|polls| - 1]).memo
  }

  /** Over every run each job has at most one delivered report or decline, and is not run after it. */
  lemma {:induction false} SettledOnce(me: Node, polls: seq<seq<Item>>)
    ensures HandledExact(PollRun(me, polls)) && SettledForGood(PollRun(me, polls))
  {
    if |polls| > 0 {
      hide HandledExact, SettledForGood;
      SettledOnce(me, polls[..|polls| - 1]);
      PollKeeps(me, PollRun(me, polls[..|polls| - 1]), polls[|polls| - 1]);
    }
  }

  /** The executor comes to run the assignment. */
  predicate Executed(me: Node, a: R.Assignment, o: Observed) {
    Runnable(me, a, o) && (o.run.Failed? || o.run.Finished?)
  }

  /** The act of polling one more assignment runs its job. */
  predicate RunsNext(me: Node, m: Memo, items: seq<Item>, it: Item) {
    PollAll(me, m, items + [it]).memo.log == PollAll(me, m, items).memo.log + [Ran(it.a.jobId), Said(it.a.jobId, Decision(me, it.a, it.seen).1, it.seen.delivered)]
  }

  /** The log has no delivered settlement of the job. */
  predicate Unsettled(log: seq<Act>, job: string) {
    forall i :: 0 <= i < |log| ==> !(Settled(log[i]) && log[i].job == job)
  }

  /** Exactly when a job is run: at any point of any run, the next assignment of a poll is run if and only if
      every message of the poll so far was delivered, no settlement of its job ever was, the node takes it,
      and the executor comes to run it. Otherwise nothing at all is run. */
  lemma RunExactly(me: Node, polls: seq<seq<Item>>, items: seq<Item>, it: Item)
    ensures var m := PollRun(me, polls);
      var p := PollAll(me, m, items);
      && (RunsNext(me, m, items, it) <==>
            !p.failed && Unsettled(p.memo.log, it.a.jobId) && Executed(me, it.a, it.seen))
      && (RunsNext(me, m, items, it) || forall k :: |p.memo.log| <= k < |PollAll(me, m, items + [it]).memo.log| ==>
            PollAll(me, m, items + [it]).memo.log[k].Said?)
  {
    var m := PollRun(me, polls);
    SettledOnce(me, polls);
    PollKeeps(me, m, items);
    assert (items + [it])[..|items|] == items;
    var p := PollAll(me, m, items);
    var next := PollAll(me, m, items + [it]);
    HandledMeans(p.memo, it.a.jobId);
    hide HandledExact, SettledForGood, PollRun, Runnable, Unsettled;
    if p.failed || it.a.jobId in p.memo.handled {
      assert |next.memo.log| == |p.memo.log|;
    } else {
      assert next.memo.log == p.memo.log + Acts(me, it.a, it.seen);
      ActsExactly(me, it.a, it.seen);
      LogEnds(p.memo.log, Acts(me, it.a, it.seen), [Ran(it.a.jobId), Said(it.a.jobId, Decision(me, it.a, it.seen).1, it.seen.delivered)]);
    }
  }

  lemma HandledMeans(m: Memo, job: string)
    requires HandledExact(m)
    ensures job in m.handled <==> !Unsettled(m.log, job)
  {
  }

  lemma ActsExactly(me: Node, a: R.Assignment, o: Observed)
    ensures var acts, said := Acts(me, a, o), Said(a.jobId, Decision(me, a, o).1, o.delivered);
      if Executed(me, a, o) then acts == [Ran(a.jobId), said] else acts == [said]
  {
    hide Runnable;
  }

  lemma LogEnds(log: seq<Act>, a: seq<Act>, b: seq<Act>)
    ensures log + a == log + b <==> a == b
  {
    if log + a == log + b {
      assert a == (log + a)[|log|..] && b == (log + b)[|log|..];
    }
  }

  /** Every run of a job is followed at once by the message about it. */
  predicate RanThenSaid(log: seq<Act>) {
    forall i :: 0 <= i < |log| && log[i].Ran? ==> i + 1 < |log| && log[i + 1].Said? && log[i + 1].job == log[i].job
  }

  lemma {:induction false} PollSaysAfterRunning(me: Node, m: Memo, items: seq<Item>)
    requires RanThenSaid(m.log)
    ensures RanThenSaid(PollAll(me, m, items).memo.log)
  {
    if |items| > 0 {
      hide RanThenSaid, Acts;
      var front, it := items[..|items| - 1], items[|items| - 1];
      PollSaysAfterRunning(me, m, front);
      SaysAfterRunning(PollAll(me, m, front).memo.log, me, it.a, it.seen);
    }
  }

  lemma SaysAfterRunning(log: seq<Act>, me: Node, a: R.Assignment, o: Observed)
    requires RanThenSaid(log)
    ensures RanThenSaid(log + Acts(me, a, o))
  {
    ActsExactly(me, a, o);
    hide Acts, Decision, Runnable;
    var acts := Acts(me, a, o);
    var all := log + acts;
    forall i | 0 <= i < |all| && all[i].Ran? ensures i + 1 < |all| && all[i + 1].Said? && all[i + 1].job == all[i].job {
      if i < |log| { assert all[i] == log[i] && all[i + 1] == log[i + 1]; }
    }
  }

  lemma {:induction false} RunSaysAfterRunning(me: Node, polls: seq<seq<Item>>)
    ensures RanThenSaid(PollRun(me, polls).log)
  {
    if |polls| > 0 {
      hide RanThenSaid, PollAll;
      RunSaysAfterRunning(me, polls[..|polls| - 1]);
      PollSaysAfterRunning(me, PollRun(me, polls[..|polls| - 1]), polls[|polls| - 1]);
    }
  }

  /** A job is run a second time only when the message after the first run was not delivered. */
  lemma RanTwiceOnlyUndelivered(me: Node, polls: seq<seq<Item>>, i: nat, j: nat)
    requires i < j < |PollRun(me, polls).log|
    requires PollRun(me, polls).log[i].Ran? && PollRun(me, polls).log[j] == PollRun(me, polls).log[i]
    ensures var log := PollRun(me, polls).log;
      i + 1 < j && log[i + 1].Said? && log[i + 1].job == log[i].job && !log[i + 1].delivered
  {
    hide PollRun;
    RunSaysAfterRunning(me, polls);
    SettledOnce(me, polls);
  }

  /** One poll of one assignment whose job is not settled. */
  lemma OnePoll(me: Node, polls: seq<seq<Item>>, it: Item)
    requires Unsettled(PollRun(me, polls).log, it.a.jobId)
    ensures PollRun(me, polls + [[it]]).log == PollRun(me, polls).log + Acts(me, it.a, it.seen)
    ensures !it.seen.delivered ==> Unsettled(PollRun(me, polls + [[it]]).log, it.a.jobId)
  {
    var m, next := PollRun(me, polls), PollRun(me, polls + [[it]]);
    assert (polls + [[it]])[..|polls|] == polls;
    assert [it][..0] == [];
    assert PollAll(me, m, []) == Polled(m, false);
    SettledOnce(me, polls);
    HandledMeans(m, it.a.jobId);
    ActsExactly(me, it.a, it.seen);
    hide PollRun, Acts, Runnable, HandledExact, SettledForGood;
    assert next.log == m.log + Acts(me, it.a, it.seen);
  }

  /** Running is not at most once: after any run, a job that is not settled and whose report is not
      delivered is run again when it is polled again. */
  lemma RunAgain(me: Node, polls: seq<seq<Item>>, a: R.Assignment, o: Observed, again: Observed)
    requires Unsettled(PollRun(me, polls).log, a.jobId)
    requires Executed(me, a, o) && !o.delivered && Executed(me, a, again)
    ensures PollRun(me, polls + [[Item(a, o)]] + [[Item(a, again)]]).log == PollRun(me, polls).log +
      [Ran(a.jobId), Said(a.jobId, Decision(me, a, o).1, false), Ran(a.jobId), Said(a.jobId, Decision(me, a, again).1, again.delivered)]
  {
    hide PollRun, Acts, Runnable, Unsettled;
    OnePoll(me, polls, Item(a, o));
    OnePoll(me, polls + [[Item(a, o)]], Item(a, again));
    ActsExactly(me, a, o);
    ActsExactly(me, a, again);
  }

  /** A job is only ever run when some polled assignment for it was this node's, verified, and named
      work the node took at that moment. */
  lemma {:induction false} RanOnlyRunnable(me: Node, m: Memo, items: seq<Item>, k: nat)
    requires |m.log| <= k < |PollAll(me, m, items).memo.log| && PollAll(me, m, items).memo.log[k].Ran?
    ensures exists it :: it in items && it.a.jobId == PollAll(me, m, items).memo.log[k].job && Runnable(me, it.a, it.seen)
  {
    if |items| > 0 {
      var front, it := items[..|items| - 1], items[|items| - 1];
      var p := PollAll(me, m, front);
      if k < |p.memo.log| {
        RanOnlyRunnable(me, m, front, k);
        var other :| other in front && other.a.jobId == p.memo.log[k].job && Runnable(me, other.a, other.seen);
        assert other in items;
      } else {
        assert it in items && Runnable(me, it.a, it.seen);
      }
    }
  }

  // ------------------------------------------------------------------ what the messages say

  /** The assignment names this node, its coordinator signed it if there is a key to check, and its workload is one
      of the three the protocol names. */
  predicate Ours(me: Node, a: R.Assignment) {
    && a.nodeId == me.id && (me.verify.None? || me.verify.value(a))
    && a.workload in {"compute", "storage", "print"}
  }

  /** The node takes this workload at that moment. */
  predicate Takes(a: R.Assignment, o: Observed) {
    || (a.workload == "compute" && Compute in o.accepts)
    || (a.workload == "storage" && Storage in o.accepts)
    || (a.workload == "print" && Print in o.accepts)
  }

  /** The message tells what happened: a report of a job of ours that was taken and run, with exit code zero exactly
      when it finished well; "unavailable" exactly for a job of ours that was not taken while the owner gate was
      closed, or was taken when the owner came back; "local policy" for every other decline. */
  predicate Truthful(me: Node, a: R.Assignment, o: Observed, message: Message) {
    match message
    case Reported(code) =>
      Ours(me, a) && Takes(a, o) && (o.run.Failed? || o.run.Finished?) && code <= 1 && (code == 0 <==> o.run == Finished(true))
    case Declined(reason) =>
      && !(Ours(me, a) && Takes(a, o) && (o.run.Failed? || o.run.Finished?))
      && (reason == Unavailable <==> Ours(me, a) && (if Takes(a, o) then o.run == OwnerReturned else o.gated))
  }

  /** What a settlement did: the message is truthful, sent once, with the fate it met; a run happened exactly before a
      report. */
  lemma ActsTruthful(me: Node, a: R.Assignment, o: Observed)
    ensures var acts := Acts(me, a, o);
      && 1 <= |acts| <= 2
      && acts[|acts| - 1].Said? && acts[|acts| - 1].job == a.jobId && acts[|acts| - 1].delivered == o.delivered
      && Truthful(me, a, o, acts[|acts| - 1].message)
      && (|acts| == 2 <==> acts[|acts| - 1].message.Reported?)
      && (|acts| == 2 ==> acts[0] == Ran(a.jobId))
  {
  }

  /** Some item of these explains the act. */
  ghost predicate Explained(me: Node, items: seq<Item>, act: Act) {
    exists it :: it in items && it.a.jobId == act.job &&
      (if act.Ran? then Ours(me, it.a) && Takes(it.a, it.seen) && (it.seen.run.Failed? || it.seen.run.Finished?)
       else act.delivered == it.seen.delivered && Truthful(me, it.a, it.seen, act.message))
  }

  lemma {:induction false} PollExplained(me: Node, m: Memo, items: seq<Item>, k: nat)
    requires |m.log| <= k < |PollAll(me, m, items).memo.log|
    ensures Explained(me, items, PollAll(me, m, items).memo.log[k])
  {
    if |items| > 0 {
      hide Truthful, Ours, Takes, Acts;
      var front, it := items[..|items| - 1], items[|items| - 1];
      var p := PollAll(me, m, front);
      if k < |p.memo.log| {
        PollExplained(me, m, front, k);
        var other :| other in front && other.a.jobId == p.memo.log[k].job &&
          (if p.memo.log[k].Ran? then Ours(me, other.a) && Takes(other.a, other.seen) && (other.seen.run.Failed? || other.seen.run.Finished?)
           else p.memo.log[k].delivered == other.seen.delivered && Truthful(me, other.a, other.seen, p.memo.log[k].message));
        assert other in items;
      } else {
        ActsTruthful(me, it.a, it.seen);
        ReportedMeans(me, it.a, it.seen);
        assert it in items;
      }
    }
  }

  lemma ReportedMeans(me: Node, a: R.Assignment, o: Observed)
    ensures var acts := Acts(me, a, o);
      |acts| == 2 ==> Ours(me, a) && Takes(a, o) && (o.run.Failed? || o.run.Finished?)
  {
  }

  /** Over every run of polls: whatever the node runs is an assignment of its own that it took, and whatever it
      sends about a job tells what happened to a polled assignment of that job. */
  lemma {:induction false} EveryActExplained(me: Node, polls: seq<seq<Item>>, k: nat)
    requires k < |PollRun(me, polls).log|
    ensures exists p :: 0 <= p < |polls| && Explained(me, polls[p], PollRun(me, polls).log[k])
  {
    if |polls| > 0 {
      hide Explained;
      var front := polls[..|polls| - 1];
      var m := PollRun(me, front);
      SettledOnce(me, front);
      PollKeeps(me, m, polls[|polls| - 1]);
      if k < |m.log| {
        EveryActExplained(me, front, k);
        var p :| 0 <= p < |front| && Explained(me, front[p], m.log[k]);
        assert polls[p] == front[p];
      } else {
        PollExplained(me, m, polls[|polls| - 1], k);
      }
    }
  }

  // ------------------------------------------------------------------ the loop itself

  class Loop {
    const me: Node
    var number: nat
    var listed: string
    var handled: set<string>
    ghost var log: seq<Act>
    /** The clock reading behind every number issued so far. */
    ghost var clocks: seq<Instant>

    /** The counter is the last of the numbers issued. */
    ghost predicate Numbered() reads this`number, this`clocks {
      number == Latest(Issued(clocks))
    }

    ghost predicate Valid() reads this {
      Numbered() && HandledExact(Memo(handled, log)) && SettledForGood(Memo(handled, log))
    }

    constructor (me: Node)
      ensures Valid() && this.me == me && number == 0 && listed == "" && log == [] && clocks == []
    {
      this.me, number, listed, handled, log, clocks := me, 0, "", {}, [], [];
    }

    /** nextSeq: the number joins those issued, which increase as long as 2^64 - 1 is not among them. */
    method Number(clock: Instant) returns (s: nat)
      requires Numbered()
      modifies this`number, this`clocks
      ensures Numbered() && clocks == old(clocks) + [clock]
      ensures s == number == NextSeq(old(number), clock) && Issued(clocks) == Issued(old(clocks)) + [s]
      ensures TWO_64 - 1 !in Issued(old(clocks)) ==> forall n :: n in Issued(old(clocks)) ==> n < s
    {
      ghost var before := clocks;
      s := Unsigned(clock);
      if s <= number {
        s := (number + 1) % TWO_64;
      }
      number := s;
      clocks := clocks + [clock];
      assert clocks[..|before|] == before;
      if TWO_64 - 1 !in Issued(before) { NewestNumber(before, clock); }
    }

    /** List: one number, and the capabilities remembered when the listing is delivered. */
    method List(caps: seq<Kind>, clock: Instant, delivered: bool) returns (s: nat)
      requires Numbered()
      modifies this`number, this`clocks, this`listed
      ensures Numbered() && clocks == old(clocks) + [clock]
      ensures s == number == NextSeq(old(number), clock)
      ensures listed == if delivered then CapsKey(caps) else old(listed)
    {
      s := Number(clock);
      if delivered {
        listed := CapsKey(caps);
      }
    }

    /** Beat: re-lists first when the capabilities changed, and then sends a heartbeat with a number
        of its own; a listing that is not delivered ends it. */
    method Beat(caps: seq<Kind>, capsAtList: seq<Kind>, clock1: Instant, clock2: Instant, listingDelivered: bool) returns (beat: Option<nat>)
      requires Numbered()
      modifies this`number, this`clocks, this`listed
      ensures Numbered() && old(clocks) <= clocks
      ensures beat.None? <==> old(listed) != CapsKey(caps) && !listingDelivered
      ensures beat.Some? ==> beat.value == number
      ensures old(listed) == CapsKey(caps) ==> number == NextSeq(old(number), clock2) && listed == old(listed)
      ensures old(listed) != CapsKey(caps) && listingDelivered ==> listed == CapsKey(capsAtList)
      ensures old(listed) != CapsKey(caps) && listingDelivered ==> number == NextSeq(NextSeq(old(number), clock1), clock2)
      ensures old(listed) != CapsKey(caps) && !listingDelivered ==> listed == old(listed) && number == NextSeq(old(number), clock1)
    {
      if listed != CapsKey(caps) {
        var _ := List(capsAtList, clock1, listingDelivered);
        if !listingDelivered {
          return None;
        }
      }
      var s := Number(clock2);
      return Some(s);
    }

    method Settle(a: R.Assignment, o: Observed)
      modifies this`log
      ensures log == old(log) + Acts(me, a, o)
      ensures |log| > |old(log)| && log[|log| - 1].Said? && log[|log| - 1].job == a.jobId && Truthful(me, a, o, log[|log| - 1].message)
    {
      ActsTruthful(me, a, o);
      var known := a.nodeId == me.id && (me.verify.None? || me.verify.value(a));
      var kind := WorkloadKind(a.workload);
      var message: Message;
      if !known || kind.None? {
        message := Declined(LocalPolicy);
      } else if kind.value !in o.accepts {
        message := Declined(if o.gated then Unavailable else LocalPolicy);
      } else {
        match o.run {
          case OwnerReturned => message := Declined(Unavailable);
          case NoExecutor => message := Declined(LocalPolicy);
          case Failed =>
            log := log + [Ran(a.jobId)];
            message := Reported(1);
          case Finished(ok) =>
            log := log + [Ran(a.jobId)];
            message := Reported(if ok then 0 else 1);
        }
      }
      log := log + [Said(a.jobId, message, o.delivered)];
    }

    /** PollOnce: ok unless a message was not delivered. */
    method PollOnce(items: seq<Item>) returns (ok: bool)
      requires Valid()
      modifies this`handled, this`log
      ensures Valid()
      ensures Polled(Memo(handled, log), !ok) == PollAll(me, Memo(old(handled), old(log)), items)
      ensures ok ==> forall i :: 0 <= i < |items| ==> items[i].a.jobId in handled
    {
      hide HandledExact, SettledForGood, Acts;
      ghost var start := Memo(handled, log);
      PollKeeps(me, start, items);
      for i := 0 to |items|
        invariant Polled(Memo(handled, log), false) == PollAll(me, start, items[..i])
      {
        assert items[..i + 1][..i] == items[..i];
        var it := items[i];
        if it.a.jobId in handled {
          continue;
        }
        Settle(it.a, it.seen);
        if !it.seen.delivered {
          PollStops(me, start, items, i + 1);
          return false;
        }
        handled := handled + {it.a.jobId};
      }
      assert items[..|items|] == items;
      return true;
    }
  }

  lemma {:induction false} PollStops(me: Node, m: Memo, items: seq<Item>, i: nat)
    requires i <= |items| && PollAll(me, m, items[..i]).failed
    ensures PollAll(me, m, items) == PollAll(me, m, items[..i])
  {
    if i == |items| {
      assert items[..i] == items;
    } else {
      assert items[..|items| - 1][..i] == items[..i];
      PollStops(me, m, items[..|items| - 1], i);
    }
  }
}
