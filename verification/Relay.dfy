/** internal/noderelay: a frontend relays the signed messages of its enrolled nodes to an upstream
    coordinator. The relay drops its lock around every upstream call, so each lock-held section is one
    step here and the sections of different calls interleave freely. */
module Relay {
  import opened Common

  datatype Assignment = Assignment(jobId: string, nodeId: string, workload: string, args: seq<string>, signature: Signature)
  datatype Listing = Listing(nodeId: string, number: nat, body: Bytes, signature: Signature)
  datatype Heartbeat = Heartbeat(nodeId: string, number: nat, sentAt: int, signature: Signature)
  /** A signed decline or report of one job. */
  datatype Settlement = Settlement(nodeId: string, jobId: string, body: Bytes, signature: Signature)
  /** A request credential: the node, its timestamp, and its signature over the request. */
  datatype Credential = Credential(nodeId: string, ts: int, request: Bytes, signature: Signature)

  datatype Config = Config(
    listing: (Key, Listing) -> bool, heartbeat: (Key, Heartbeat) -> bool,
    settlement: (Key, Settlement) -> bool, request: (Key, Credential) -> bool,
    upstreamBeat: int, upstreamPoll: int)

  const SECOND := 1_000_000_000
  const DEFAULT_BEAT := 60 * SECOND
  const DEFAULT_POLL := 30 * SECOND
  const AUTH_WINDOW := 120 * SECOND

  function BeatEvery(cfg: Config): int { if cfg.upstreamBeat > 0 then cfg.upstreamBeat else DEFAULT_BEAT }
  function PollEvery(cfg: Config): int { if cfg.upstreamPoll > 0 then cfg.upstreamPoll else DEFAULT_POLL }

  datatype NodeState = NodeState(
    pub: Key, listSeq: nat, beatSeq: nat,
    lastBeatUp: Option<int>, pollAt: Option<int>,
    jobs: seq<Assignment>, settled: set<string>, lastAuth: int)

  type Nodes = map<string, NodeState>

  datatype RelayError = BadEnroll | UnknownNode | BadSignature | StaleSeq | KeyConflict | OutsideWindow | Replayed

  /** How a section ends: the call is refused, is over, or goes on without the lock. */
  datatype Outcome = Refused(error: RelayError) | Done | Onward | Answer(jobs: seq<Assignment>) | Idle

  // ------------------------------------------------------------------ the lock-held sections

  function EnrollFirst(nodes: Nodes, node: string, pub: Key): Outcome {
    if node == "" || |pub| != KEY_SIZE then Refused(BadEnroll)
    else if node in nodes then (if nodes[node].pub != pub then Refused(KeyConflict) else Done)
    else Onward
  }

  function EnrollSecond(nodes: Nodes, node: string, pub: Key): Nodes {
    if node in nodes then nodes else nodes[node := NodeState(pub, 0, 0, None, None, [], {}, 0)]
  }

  function ListFirst(cfg: Config, nodes: Nodes, l: Listing): Outcome {
    if l.nodeId !in nodes then Refused(UnknownNode)
    else if !cfg.listing(nodes[l.nodeId].pub, l) then Refused(BadSignature)
    else if l.number <= nodes[l.nodeId].listSeq then Refused(StaleSeq)
    else Onward
  }

  function ListSecond(nodes: Nodes, node: string, number: nat): Nodes
    requires node in nodes
  {
    if number > nodes[node].listSeq then nodes[node := nodes[node].(listSeq := number)] else nodes
  }

  function BeatFirst(cfg: Config, nodes: Nodes, h: Heartbeat, now: int): (Nodes, Outcome) {
    if h.nodeId !in nodes then (nodes, Refused(UnknownNode))
    else if !cfg.heartbeat(nodes[h.nodeId].pub, h) then (nodes, Refused(BadSignature))
    else if h.number <= nodes[h.nodeId].beatSeq then (nodes, Refused(StaleSeq))
    else
      var n := nodes[h.nodeId];
      var forward := n.lastBeatUp.None? || now - n.lastBeatUp.value >= BeatEvery(cfg);
      (nodes[h.nodeId := n.(beatSeq := h.number)], if forward then Onward else Done)
  }

  function BeatSecond(nodes: Nodes, node: string, now: int): Nodes
    requires node in nodes
  {
    nodes[node := nodes[node].(lastBeatUp := Some(now))]
  }

  /** Done when the cached jobs are fresh enough to answer from. */
  function PollFirst(cfg: Config, nodes: Nodes, node: string, now: int): Outcome {
    if node !in nodes then Refused(UnknownNode)
    else if nodes[node].pollAt.Some? && now - nodes[node].pollAt.value < PollEvery(cfg) then Done
    else Onward
  }

  predicate Offered(jobs: seq<Assignment>, job: string) {
    exists a :: a in jobs && a.jobId == job
  }

  ghost function PollStore(nodes: Nodes, node: string, jobs: seq<Assignment>, now: int): Nodes
    requires node in nodes
  {
    var n := nodes[node];
    nodes[node := n.(jobs := jobs, pollAt := Some(now), settled := set id | id in n.settled && Offered(jobs, id))]
  }

  function Unsettled(jobs: seq<Assignment>, settled: set<string>): seq<Assignment> {
    if jobs == [] then []
    else
      var a := jobs[|jobs| - 1];
      Unsettled(jobs[..|jobs| - 1], settled) + if a.jobId in settled then [] else [a]
  }

  function PollAnswer(nodes: Nodes, node: string): seq<Assignment>
    requires node in nodes
  {
    Unsettled(nodes[node].jobs, nodes[node].settled)
  }

  function SettleFirst(cfg: Config, nodes: Nodes, m: Settlement): Outcome {
    if m.nodeId !in nodes then Refused(UnknownNode)
    else if !cfg.settlement(nodes[m.nodeId].pub, m) then Refused(BadSignature)
    else Onward
  }

  function SettleSecond(nodes: Nodes, node: string, job: string): Nodes
    requires node in nodes
  {
    nodes[node := nodes[node].(settled := nodes[node].settled + {job})]
  }

  /** authenticate: inside the window, signed by the node's key, and newer than the last accepted. */
  function Authenticate(cfg: Config, nodes: Nodes, a: Credential, now: int): (Nodes, Outcome) {
    if now - a.ts > AUTH_WINDOW || now - a.ts < -AUTH_WINDOW then (nodes, Refused(OutsideWindow))
    else if a.nodeId !in nodes then (nodes, Refused(UnknownNode))
    else if !cfg.request(nodes[a.nodeId].pub, a) then (nodes, Refused(BadSignature))
    else if a.ts <= nodes[a.nodeId].lastAuth then (nodes, Refused(Replayed))
    else (nodes[a.nodeId := nodes[a.nodeId].(lastAuth := a.ts)], Done)
  }

  // ------------------------------------------------------------------ interleaving

  /** A call that has released the lock, and what its next section needs. */
  datatype Call =
    | Enrolling(node: string, pub: Key)
    | Submitting(node: string, number: nat)
    | Beating(node: string)
    | Polling(node: string)
    | Answering(node: string)
    | Settling(node: string, job: string)

  datatype State = State(nodes: Nodes, calls: map<nat, Call>)

  const START := State(map[], map[])

  /** One lock-held section, of the call named c; Fail is an upstream error, which ends the call. */
  datatype Event =
    | Enroll1(c: nat, node: string, pub: Key) | Enroll2(c: nat)
    | List1(c: nat, l: Listing) | List2(c: nat)
    | Beat1(c: nat, h: Heartbeat, now: int) | Beat2(c: nat, now: int)
    | Poll1(c: nat, node: string, now: int) | Poll2(c: nat, offer: seq<Assignment>, now: int) | Poll3(c: nat)
    | Settle1(c: nat, m: Settlement) | Settle2(c: nat)
    | Fail(c: nat)
    | Auth(a: Credential, now: int)

  /** The call's state after a first section. */
  function Begin(st: State, c: nat, o: Outcome, nodes: Nodes, call: Call): (State, Outcome) {
    (State(nodes, if o.Onward? then st.calls[c := call] else st.calls), o)
  }

  /** A section of a call that is not at that point does nothing. */
  ghost function Step(cfg: Config, st: State, e: Event): (State, Outcome) {
    match e
    case Enroll1(c, node, pub) =>
      if c in st.calls then (st, Idle) else Begin(st, c, EnrollFirst(st.nodes, node, pub), st.nodes, Enrolling(node, pub))
    case Enroll2(c) =>
      if c !in st.calls || !st.calls[c].Enrolling? then (st, Idle)
      else (State(EnrollSecond(st.nodes, st.calls[c].node, st.calls[c].pub), st.calls - {c}), Done)
    case List1(c, l) =>
      if c in st.calls then (st, Idle) else Begin(st, c, ListFirst(cfg, st.nodes, l), st.nodes, Submitting(l.nodeId, l.number))
    case List2(c) =>
      if c !in st.calls || !st.calls[c].Submitting? || st.calls[c].node !in st.nodes then (st, Idle)
      else (State(ListSecond(st.nodes, st.calls[c].node, st.calls[c].number), st.calls - {c}), Done)
    case Beat1(c, h, now) =>
      if c in st.calls then (st, Idle)
      else var r := BeatFirst(cfg, st.nodes, h, now); Begin(st, c, r.1, r.0, Beating(h.nodeId))
    case Beat2(c, now) =>
      if c !in st.calls || !st.calls[c].Beating? || st.calls[c].node !in st.nodes then (st, Idle)
      else (State(BeatSecond(st.nodes, st.calls[c].node, now), st.calls - {c}), Done)
    case Poll1(c, node, now) =>
      if c in st.calls then (st, Idle)
      else
        var o := PollFirst(cfg, st.nodes, node, now);
        if o.Refused? then (st, o)
        else (st.(calls := st.calls[c := if o.Done? then Answering(node) else Polling(node)]), o)
    case Poll2(c, offer, now) =>
      if c !in st.calls || !st.calls[c].Polling? || st.calls[c].node !in st.nodes then (st, Idle)
      else (State(PollStore(st.nodes, st.calls[c].node, offer, now), st.calls[c := Answering(st.calls[c].node)]), Onward)
    case Poll3(c) =>
      if c !in st.calls || !st.calls[c].Answering? || st.calls[c].node !in st.nodes then (st, Idle)
      else (st.(calls := st.calls - {c}), Answer(PollAnswer(st.nodes, st.calls[c].node)))
    case Settle1(c, m) =>
      if c in st.calls then (st, Idle) else Begin(st, c, SettleFirst(cfg, st.nodes, m), st.nodes, Settling(m.nodeId, m.jobId))
    case Settle2(c) =>
      if c !in st.calls || !st.calls[c].Settling? || st.calls[c].node !in st.nodes then (st, Idle)
      else (State(SettleSecond(st.nodes, st.calls[c].node, st.calls[c].job), st.calls - {c}), Done)
    case Fail(c) => (st.(calls := st.calls - {c}), Idle)
    case Auth(a, now) =>
      var r := Authenticate(cfg, st.nodes, a, now);
      (st.(nodes := r.0), r.1)
  }

  /** Every run is a sequence of sections from an empty relay. */
  ghost function Run(cfg: Config, es: seq<Event>): State {
    if es == [] then START else Step(cfg, Run(cfg, es[..|es| - 1]), es[|es| - 1]).0
  }

  /** The state section i of the run finds. */
  ghost function Before(cfg: Config, es: seq<Event>, i: nat): State
    requires i <= |es|
  {
    Run(cfg, es[..i])
  }

  // ------------------------------------------------------------------ what sections do to one node

  /** The section stores this call's enrolment. */
  predicate Stores(st: State, e: Event, node: string) {
    e.Enroll2? && e.c in st.calls && st.calls[e.c].Enrolling? && st.calls[e.c].node == node
  }

  /** The section marks the job settled. */
  predicate Settles(st: State, e: Event, node: string, job: string) {
    e.Settle2? && e.c in st.calls && st.calls[e.c] == Settling(node, job) && node in st.nodes
  }

  /** The section processes an upstream answer for the node. */
  predicate Processes(st: State, e: Event, node: string) {
    e.Poll2? && e.c in st.calls && st.calls[e.c] == Polling(node) && node in st.nodes
  }

  predicate Forgets(st: State, e: Event, node: string, job: string) {
    Processes(st, e, node) && !Offered(e.offer, job)
  }

  /** The section completes a listing. */
  predicate Lists(st: State, e: Event, node: string, number: nat) {
    e.List2? && e.c in st.calls && st.calls[e.c] == Submitting(node, number) && node in st.nodes
  }

  /** The section records a heartbeat that reached upstream. */
  predicate Beats(st: State, e: Event, node: string) {
    e.Beat2? && e.c in st.calls && st.calls[e.c] == Beating(node) && node in st.nodes
  }

  /** The section accepts this heartbeat, forwarded or absorbed. */
  predicate BeatTaken(cfg: Config, st: State, e: Event, node: string) {
    e.Beat1? && e.h.nodeId == node && e.c !in st.calls && !BeatFirst(cfg, st.nodes, e.h, e.now).1.Refused?
  }

  predicate AuthTaken(cfg: Config, st: State, e: Event, node: string) {
    e.Auth? && e.a.nodeId == node && Authenticate(cfg, st.nodes, e.a, e.now).1.Done?
  }

  /** The exact effect of one section on an enrolled node, field by field. */
  lemma StepOnNode(cfg: Config, st: State, e: Event, node: string)
    requires node in st.nodes
    ensures var next := Step(cfg, st, e).0;
      node in next.nodes &&
      var a, b := st.nodes[node], next.nodes[node];
      b.pub == a.pub &&
      b.beatSeq == (if BeatTaken(cfg, st, e, node) then e.h.number else a.beatSeq) &&
      b.lastAuth == (if AuthTaken(cfg, st, e, node) then e.a.ts else a.lastAuth) &&
      b.lastBeatUp == (if Beats(st, e, node) then Some(e.now) else a.lastBeatUp) &&
      b.jobs == (if Processes(st, e, node) then e.offer else a.jobs) &&
      b.pollAt == (if Processes(st, e, node) then Some(e.now) else a.pollAt) &&
      (forall job :: job in b.settled <==> Settles(st, e, node, job) || (job in a.settled && !Forgets(st, e, node, job)))
  {
  }

  lemma StepOnListing(cfg: Config, st: State, e: Event, node: string)
    requires node in st.nodes
    ensures var next := Step(cfg, st, e).0;
      node in next.nodes &&
      var a, b := st.nodes[node].listSeq, next.nodes[node].listSeq;
      a <= b && (forall n: nat :: Lists(st, e, node, n) ==> n <= b) && (b == a || Lists(st, e, node, b))
  {
  }

  /** A node appears only when an enrolment for it is stored, with that key and an empty record. */
  lemma StepOnNewNode(cfg: Config, st: State, e: Event, node: string)
    requires node !in st.nodes
    ensures var next := Step(cfg, st, e).0;
      (node in next.nodes <==> Stores(st, e, node)) &&
      (node in next.nodes ==> next.nodes[node] == NodeState(st.calls[e.c].pub, 0, 0, None, None, [], {}, 0))
  {
  }

  // ------------------------------------------------------------------ whole runs

  lemma BeforeNext(cfg: Config, es: seq<Event>, i: nat)
    requires i < |es|
    ensures Before(cfg, es, i + 1) == Step(cfg, Before(cfg, es, i), es[i]).0
  {
    hide Step;
    assert es[..i + 1][..i] == es[..i];
  }

  /** From a section on, an enrolled node stays enrolled under its key and its counters never fall. */
  lemma {:induction false} NodePersists(cfg: Config, es: seq<Event>, i: nat, j: nat, node: string)
    requires i <= j <= |es| && node in Before(cfg, es, i).nodes
    ensures node in Before(cfg, es, j).nodes
    ensures var a, b := Before(cfg, es, i).nodes[node], Before(cfg, es, j).nodes[node];
      b.pub == a.pub && b.beatSeq >= a.beatSeq && b.lastAuth >= a.lastAuth && b.listSeq >= a.listSeq
    decreases j
  {
    hide Step, Run, Processes, Forgets, Settles, Beats, Lists;
    if i < j {
      NodePersists(cfg, es, i, j - 1, node);
      BeforeNext(cfg, es, j - 1);
      StepOnNode(cfg, Before(cfg, es, j - 1), es[j - 1], node);
      StepOnListing(cfg, Before(cfg, es, j - 1), es[j - 1], node);
    }
  }

  /** An enrolled key never changes, whatever sections run. */
  lemma KeyNeverChanges(cfg: Config, es: seq<Event>, i: nat, j: nat, node: string)
    requires i <= j <= |es| && node in Before(cfg, es, i).nodes
    ensures node in Before(cfg, es, j).nodes && Before(cfg, es, j).nodes[node].pub == Before(cfg, es, i).nodes[node].pub
  {
    hide Run;
    NodePersists(cfg, es, i, j, node);
  }

  /** Accepted heartbeats of a node carry strictly increasing numbers. */
  lemma HeartbeatsIncrease(cfg: Config, es: seq<Event>, i: nat, j: nat, node: string)
    requires i < j < |es|
    requires BeatTaken(cfg, Before(cfg, es, i), es[i], node) && BeatTaken(cfg, Before(cfg, es, j), es[j], node)
    ensures es[i].h.number < es[j].h.number
  {
    hide Step, Run;
    BeforeNext(cfg, es, i);
    StepOnNode(cfg, Before(cfg, es, i), es[i], node);
    NodePersists(cfg, es, i + 1, j, node);
  }

  /** Accepted request timestamps of a node strictly increase, and lie in the window of their clock. */
  lemma TimestampsIncrease(cfg: Config, es: seq<Event>, i: nat, j: nat, node: string)
    requires i < j < |es|
    requires AuthTaken(cfg, Before(cfg, es, i), es[i], node) && AuthTaken(cfg, Before(cfg, es, j), es[j], node)
    ensures es[i].a.ts < es[j].a.ts && -120_000_000_000 <= es[j].now - es[j].a.ts <= 120_000_000_000
  {
    hide Step, Run;
    BeforeNext(cfg, es, i);
    StepOnNode(cfg, Before(cfg, es, i), es[i], node);
    NodePersists(cfg, es, i + 1, j, node);
  }

  /** The heartbeat number and timestamp remembered for a node are the largest the run accepted, or zero. */
  lemma {:induction false} CountersExactly(cfg: Config, es: seq<Event>, j: nat, node: string)
    requires j <= |es| && node in Before(cfg, es, j).nodes
    ensures var n := Before(cfg, es, j).nodes[node];
      && (forall i :: 0 <= i < j && BeatTaken(cfg, Before(cfg, es, i), es[i], node) ==> es[i].h.number <= n.beatSeq)
      && (n.beatSeq == 0 || exists i :: 0 <= i < j && BeatTaken(cfg, Before(cfg, es, i), es[i], node) && es[i].h.number == n.beatSeq)
      && (forall i :: 0 <= i < j && AuthTaken(cfg, Before(cfg, es, i), es[i], node) ==> es[i].a.ts <= n.lastAuth)
      && n.lastAuth >= 0
      && (n.lastAuth == 0 || exists i :: 0 <= i < j && AuthTaken(cfg, Before(cfg, es, i), es[i], node) && es[i].a.ts == n.lastAuth)
    decreases j
  {
    hide Step, Run, Before, Processes, Forgets, Settles, Beats, BeatFirst, Authenticate;
    if j == 0 {
      NothingYet(cfg, es, node);
    } else {
      var st := Before(cfg, es, j - 1);
      BeforeNext(cfg, es, j - 1);
      if node in st.nodes {
        CountersExactly(cfg, es, j - 1, node);
        StepOnNode(cfg, st, es[j - 1], node);
        TakenIsNewer(cfg, st, es[j - 1], node);
      } else {
        StepOnNewNode(cfg, st, es[j - 1], node);
        forall i | 0 <= i < j ensures !BeatTaken(cfg, Before(cfg, es, i), es[i], node) && !AuthTaken(cfg, Before(cfg, es, i), es[i], node) {
          TakenIsNewer(cfg, Before(cfg, es, i), es[i], node);
          if node in Before(cfg, es, i).nodes { NodePersists(cfg, es, i, j - 1, node); }
        }
      }
    }
  }

  lemma TakenIsNewer(cfg: Config, st: State, e: Event, node: string)
    ensures BeatTaken(cfg, st, e, node) ==> node in st.nodes && e.h.number > st.nodes[node].beatSeq
    ensures AuthTaken(cfg, st, e, node) ==> node in st.nodes && e.a.ts > st.nodes[node].lastAuth
  {
  }

  /** Exactly which heartbeats are accepted: those of enrolled nodes, signed by the node's key, with a positive
      number above every one accepted before. */
  lemma BeatTakenExactly(cfg: Config, es: seq<Event>, j: nat, node: string)
    requires j < |es| && es[j].Beat1? && es[j].h.nodeId == node && es[j].c !in Before(cfg, es, j).calls
    ensures BeatTaken(cfg, Before(cfg, es, j), es[j], node) <==>
      && node in Before(cfg, es, j).nodes && cfg.heartbeat(Before(cfg, es, j).nodes[node].pub, es[j].h)
      && es[j].h.number > 0
      && forall i :: 0 <= i < j && BeatTaken(cfg, Before(cfg, es, i), es[i], node) ==> es[i].h.number < es[j].h.number
  {
    hide Run, Before;
    if node in Before(cfg, es, j).nodes { CountersExactly(cfg, es, j, node); }
  }

  /** Exactly which requests are accepted: those of enrolled nodes, signed by the node's key, within two minutes of
      the clock, with a positive timestamp above every one accepted before. */
  lemma AuthTakenExactly(cfg: Config, es: seq<Event>, j: nat, node: string)
    requires j < |es| && es[j].Auth? && es[j].a.nodeId == node
    ensures AuthTaken(cfg, Before(cfg, es, j), es[j], node) <==>
      && node in Before(cfg, es, j).nodes && cfg.request(Before(cfg, es, j).nodes[node].pub, es[j].a)
      && -120_000_000_000 <= es[j].now - es[j].a.ts <= 120_000_000_000 && es[j].a.ts > 0
      && forall i :: 0 <= i < j && AuthTaken(cfg, Before(cfg, es, i), es[i], node) ==> es[i].a.ts < es[j].a.ts
  {
    hide Run, Before;
    if node in Before(cfg, es, j).nodes { CountersExactly(cfg, es, j, node); }
  }

  /** Section i settled the job and no later section before j processed an answer without it. */
  ghost predicate SettledAt(cfg: Config, es: seq<Event>, i: nat, j: nat, node: string, job: string)
    requires i < j <= |es|
  {
    Settles(Before(cfg, es, i), es[i], node, job) &&
    forall k :: i < k < j ==> !Forgets(Before(cfg, es, k), es[k], node, job)
  }

  /** The settled set of a node, told by the run alone: a job is in it exactly when some section
      settled it and no upstream answer without it was processed since. */
  lemma {:induction false} SettledExactly(cfg: Config, es: seq<Event>, j: nat, node: string, job: string)
    requires j <= |es|
    ensures node in Before(cfg, es, j).nodes && job in Before(cfg, es, j).nodes[node].settled <==>
      exists i :: 0 <= i < j && SettledAt(cfg, es, i, j, node, job)
    decreases j
  {
    hide Step, Run, Forgets, Processes, Settles, Before;
    if j == 0 {
      NothingYet(cfg, es, node);
    } else {
      SettledExactly(cfg, es, j - 1, node, job);
      BeforeNext(cfg, es, j - 1);
      SettledStep(cfg, es, j - 1, j, node, job);
      var st := Before(cfg, es, j - 1);
      if node in st.nodes {
        StepOnNode(cfg, st, es[j - 1], node);
      } else {
        StepOnNewNode(cfg, st, es[j - 1], node);
        SettlesEnrolled(st, es[j - 1], node, job);
      }
    }
  }

  lemma NothingYet(cfg: Config, es: seq<Event>, node: string)
    ensures node !in Before(cfg, es, 0).nodes
  {
  }

  lemma SettlesEnrolled(st: State, e: Event, node: string, job: string)
    ensures Settles(st, e, node, job) ==> node in st.nodes
  {
  }

  lemma SettledStep(cfg: Config, es: seq<Event>, k: nat, j: nat, node: string, job: string)
    requires k < |es| && j == k + 1
    ensures (exists i :: 0 <= i < j && SettledAt(cfg, es, i, j, node, job)) <==>
      Settles(Before(cfg, es, k), es[k], node, job) ||
      (!Forgets(Before(cfg, es, k), es[k], node, job) && exists i :: 0 <= i < k && SettledAt(cfg, es, i, k, node, job))
  {
    hide Before, Forgets, Settles;
    if i :| 0 <= i < j && SettledAt(cfg, es, i, j, node, job) {
      if i < k { assert SettledAt(cfg, es, i, k, node, job); }
    }
    if Settles(Before(cfg, es, k), es[k], node, job) {
      assert SettledAt(cfg, es, k, j, node, job);
    } else if !Forgets(Before(cfg, es, k), es[k], node, job) {
      if i :| 0 <= i < k && SettledAt(cfg, es, i, k, node, job) {
        assert SettledAt(cfg, es, i, j, node, job);
      }
    }
  }

  /** An answer is the stored offer without the settled jobs. */
  lemma {:induction false} UnsettledExactly(jobs: seq<Assignment>, settled: set<string>, a: Assignment)
    ensures a in Unsettled(jobs, settled) <==> a in jobs && a.jobId !in settled
  {
    if jobs != [] {
      UnsettledExactly(jobs[..|jobs| - 1], settled, a);
      assert jobs == jobs[..|jobs| - 1] + [jobs[|jobs| - 1]];
    }
  }

  /** Section k answers a poll of the node. */
  predicate Answers(st: State, e: Event, node: string) {
    e.Poll3? && e.c in st.calls && st.calls[e.c] == Answering(node) && node in st.nodes
  }

  /** Under all interleavings a job settled by section i and handed back by section k was missing from
      an upstream answer processed in between. */
  lemma HandedBackOnlyAfterForgotten(cfg: Config, es: seq<Event>, i: nat, k: nat, node: string, a: Assignment)
    requires i < k < |es|
    requires Settles(Before(cfg, es, i), es[i], node, a.jobId)
    requires Answers(Before(cfg, es, k), es[k], node)
    requires a in Step(cfg, Before(cfg, es, k), es[k]).1.jobs
    ensures exists j :: i < j < k && Forgets(Before(cfg, es, j), es[j], node, a.jobId)
  {
    hide Run, Before, Settles, Forgets;
    var n := Before(cfg, es, k).nodes[node];
    UnsettledExactly(n.jobs, n.settled, a);
    SettledExactly(cfg, es, k, node, a.jobId);
    assert !SettledAt(cfg, es, i, k, node, a.jobId);
  }

  // ------------------------------------------------------------------ enrolment races

  /** Section i stored the first enrolment of the node. */
  ghost predicate FirstStored(cfg: Config, es: seq<Event>, i: nat, node: string)
    requires i < |es|
  {
    Stores(Before(cfg, es, i), es[i], node) && forall k :: 0 <= k < i ==> !Stores(Before(cfg, es, k), es[k], node)
  }

  /** A node's key is the one of the first enrolment stored for it: an Enroll call that reports success
      left its own key in place exactly when its key is that one. */
  lemma {:induction false} KeyIsFirstStored(cfg: Config, es: seq<Event>, j: nat, node: string)
    requires j <= |es|
    ensures node in Before(cfg, es, j).nodes <==> exists i :: 0 <= i < j && FirstStored(cfg, es, i, node)
    ensures forall i :: 0 <= i < j && FirstStored(cfg, es, i, node) && node in Before(cfg, es, j).nodes ==>
      Before(cfg, es, j).nodes[node].pub == Before(cfg, es, i).calls[es[i].c].pub
    decreases j
  {
    hide Step, Run, Before, Stores;
    if j == 0 {
      NothingYet(cfg, es, node);
    } else {
      KeyIsFirstStored(cfg, es, j - 1, node);
      BeforeNext(cfg, es, j - 1);
      var st := Before(cfg, es, j - 1);
      if node in st.nodes {
        StepOnNode(cfg, st, es[j - 1], node);
      } else {
        StepOnNewNode(cfg, st, es[j - 1], node);
        NoneStored(cfg, es, j - 1, node);
        assert Stores(st, es[j - 1], node) ==> FirstStored(cfg, es, j - 1, node);
      }
    }
  }

  lemma {:induction false} NoneStored(cfg: Config, es: seq<Event>, j: nat, node: string)
    requires j <= |es| && forall i :: 0 <= i < j ==> !FirstStored(cfg, es, i, node)
    ensures forall i :: 0 <= i < j ==> !Stores(Before(cfg, es, i), es[i], node)
    decreases j
  {
    hide Before, Stores;
    if j > 0 {
      NoneStored(cfg, es, j - 1, node);
      assert !FirstStored(cfg, es, j - 1, node);
    }
  }

  /** When an Enroll call finishes, the node is enrolled, and under the call's own key if and only if no other
      key was stored for it first. */
  lemma OwnKeyExactlyWhen(cfg: Config, es: seq<Event>, j: nat, node: string)
    requires j < |es| && Stores(Before(cfg, es, j), es[j], node)
    ensures var pub := Before(cfg, es, j).calls[es[j].c].pub;
      && node in Before(cfg, es, j + 1).nodes
      && (Before(cfg, es, j + 1).nodes[node].pub == pub <==>
            forall i :: 0 <= i < j && FirstStored(cfg, es, i, node) ==> Before(cfg, es, i).calls[es[i].c].pub == pub)
  {
    hide Step, Run, Before;
    var st := Before(cfg, es, j);
    BeforeNext(cfg, es, j);
    KeyIsFirstStored(cfg, es, j, node);
    if node in st.nodes {
      StepOnNode(cfg, st, es[j], node);
    } else {
      StepOnNewNode(cfg, st, es[j], node);
    }
  }

  /** How the first section of an Enroll answers, at any point of any run: malformed arguments are refused, a known
      node is a success under its own key and a conflict under any other, and an unknown one goes on. */
  lemma EnrollAnswersExactly(cfg: Config, es: seq<Event>, j: nat)
    requires j < |es| && es[j].Enroll1? && es[j].c !in Before(cfg, es, j).calls
    ensures var o, nodes := Step(cfg, Before(cfg, es, j), es[j]).1, Before(cfg, es, j).nodes;
      && (o == Refused(BadEnroll) <==> es[j].node == "" || |es[j].pub| != KEY_SIZE)
      && (o == Done <==> |es[j].pub| == KEY_SIZE && es[j].node in nodes && nodes[es[j].node].pub == es[j].pub)
      && (o == Refused(KeyConflict) <==> |es[j].pub| == KEY_SIZE && es[j].node in nodes && nodes[es[j].node].pub != es[j].pub)
      && (o == Onward <==> es[j].node != "" && |es[j].pub| == KEY_SIZE && es[j].node !in nodes)
  {
    hide Run, Before;
    if es[j].node in Before(cfg, es, j).nodes { EnrolledWellFormed(cfg, es, j, es[j].node); }
  }

  /** Two enrolments of one node under different keys can both report success; the second key is then
      not enrolled. */
  lemma EnrollRace(cfg: Config, node: string, a: Key, b: Key)
    requires node != "" && |a| == |b| == KEY_SIZE && a != b
    ensures var es := [Enroll1(0, node, a), Enroll1(1, node, b), Enroll2(0), Enroll2(1)];
      var nodes := Run(cfg, es).nodes;
      && Step(cfg, Before(cfg, es, 2), es[2]).1 == Done && Step(cfg, Before(cfg, es, 3), es[3]).1 == Done
      && node in nodes && nodes[node].pub == a
  {
    var es := [Enroll1(0, node, a), Enroll1(1, node, b), Enroll2(0), Enroll2(1)];
    BeforeNext(cfg, es, 0);
    BeforeNext(cfg, es, 1);
    BeforeNext(cfg, es, 2);
    BeforeNext(cfg, es, 3);
    assert es[..0] == [] && es[..4] == es;
  }

  // ------------------------------------------------------------------ listings

  ghost predicate ListedBy(cfg: Config, es: seq<Event>, i: nat, node: string, number: nat)
    requires i < |es|
  {
    Lists(Before(cfg, es, i), es[i], node, number)
  }

  /** A node's listing number is the largest one of its completed listings. */
  lemma {:induction false} ListSeqExactly(cfg: Config, es: seq<Event>, j: nat, node: string)
    requires j <= |es| && node in Before(cfg, es, j).nodes
    ensures var top := Before(cfg, es, j).nodes[node].listSeq;
      (forall i: nat, n: nat :: i < j && ListedBy(cfg, es, i, node, n) ==> n <= top) &&
      (top == 0 || exists i: nat :: i < j && ListedBy(cfg, es, i, node, top))
    decreases j
  {
    hide Step, Run, Before, Lists;
    if j == 0 {
      NothingYet(cfg, es, node);
    } else {
      BeforeNext(cfg, es, j - 1);
      var st := Before(cfg, es, j - 1);
      if node in st.nodes {
        ListSeqExactly(cfg, es, j - 1, node);
        StepOnListing(cfg, st, es[j - 1], node);
        var top := Before(cfg, es, j).nodes[node].listSeq;
        assert Lists(st, es[j - 1], node, top) ==> ListedBy(cfg, es, j - 1, node, top);
      } else {
        StepOnNewNode(cfg, st, es[j - 1], node);
        forall i: nat, n: nat | i < j && ListedBy(cfg, es, i, node, n) ensures false {
          ListedEnrolled(cfg, es, i, node, n);
          NodePersists(cfg, es, i, j - 1, node);
        }
      }
    }
  }

  lemma ListedEnrolled(cfg: Config, es: seq<Event>, i: nat, node: string, n: nat)
    requires i < |es| && ListedBy(cfg, es, i, node, n)
    ensures node in Before(cfg, es, i).nodes
  {
  }

  /** The section forwards a listing of the node. */
  predicate Forwards(cfg: Config, st: State, e: Event, node: string) {
    e.List1? && e.l.nodeId == node && e.c !in st.calls && ListFirst(cfg, st.nodes, e.l).Onward?
  }

  /** A listing forwarded after an earlier one completed carries a larger number. */
  lemma ListingsIncrease(cfg: Config, es: seq<Event>, i: nat, j: nat, node: string, n: nat)
    requires i < j < |es| && ListedBy(cfg, es, i, node, n) && Forwards(cfg, Before(cfg, es, j), es[j], node)
    ensures n < es[j].l.number
  {
    hide Step, Run, Before, ListedBy;
    ListSeqExactly(cfg, es, j, node);
  }

  /** Exactly which listings are forwarded: those of enrolled nodes, signed by the node's key, with a
      number larger than every completed one (and than zero). */
  lemma ForwardsExactly(cfg: Config, es: seq<Event>, j: nat, node: string)
    requires j < |es| && es[j].List1? && es[j].l.nodeId == node && es[j].c !in Before(cfg, es, j).calls
    ensures Forwards(cfg, Before(cfg, es, j), es[j], node) <==>
      && node in Before(cfg, es, j).nodes && cfg.listing(Before(cfg, es, j).nodes[node].pub, es[j].l)
      && es[j].l.number > 0 && forall i: nat, n: nat :: i < j && ListedBy(cfg, es, i, node, n) ==> n < es[j].l.number
  {
    hide Run, Before, ListedBy;
    if node in Before(cfg, es, j).nodes { ListSeqExactly(cfg, es, j, node); }
  }

  /** Before the earlier one completes, the same listing can be forwarded again. */
  lemma RepeatedListing(cfg: Config, pub: Key, l: Listing)
    requires |pub| == KEY_SIZE && l.nodeId != "" && l.number > 0 && cfg.listing(pub, l)
    ensures var es := [Enroll1(0, l.nodeId, pub), Enroll2(0), List1(1, l), List1(2, l)];
      Forwards(cfg, Before(cfg, es, 2), es[2], l.nodeId) && Forwards(cfg, Before(cfg, es, 3), es[3], l.nodeId)
  {
    var es := [Enroll1(0, l.nodeId, pub), Enroll2(0), List1(1, l), List1(2, l)];
    BeforeNext(cfg, es, 0);
    BeforeNext(cfg, es, 1);
    BeforeNext(cfg, es, 2);
    assert es[..0] == [];
  }

  // ------------------------------------------------------------------ heartbeat roll-up

  /** The last section before j that recorded a forwarded heartbeat of the node. */
  ghost function LatestBeat(cfg: Config, es: seq<Event>, j: nat, node: string): (r: Option<nat>)
    requires j <= |es|
    ensures r.Some? ==> r.value < j && Beats(Before(cfg, es, r.value), es[r.value], node)
    ensures forall k :: (if r.Some? then r.value + 1 else 0) <= k < j ==> !Beats(Before(cfg, es, k), es[k], node)
  {
    if j == 0 then None
    else if Beats(Before(cfg, es, j - 1), es[j - 1], node) then Some(j - 1)
    else LatestBeat(cfg, es, j - 1, node)
  }

  /** What the relay remembers about forwarded heartbeats is the latest one, if any. */
  lemma {:induction false} LastBeatExactly(cfg: Config, es: seq<Event>, j: nat, node: string)
    requires j <= |es| && node in Before(cfg, es, j).nodes
    ensures var last := LatestBeat(cfg, es, j, node);
      Before(cfg, es, j).nodes[node].lastBeatUp == if last.None? then None else Some(es[last.value].now)
    decreases j
  {
    hide Step, Run, Before, Processes, Forgets, Settles, BeatTaken, AuthTaken, Beats;
    if j == 0 {
      NothingYet(cfg, es, node);
    } else {
      var st := Before(cfg, es, j - 1);
      BeforeNext(cfg, es, j - 1);
      if node in st.nodes {
        LastBeatExactly(cfg, es, j - 1, node);
        StepOnNode(cfg, st, es[j - 1], node);
        BeatEvent(st, es[j - 1], node);
      } else {
        StepOnNewNode(cfg, st, es[j - 1], node);
        NoBeatYet(cfg, es, j, node);
      }
    }
  }

  lemma BeatEvent(st: State, e: Event, node: string)
    ensures Beats(st, e, node) ==> e.Beat2? && node in st.nodes
    ensures Processes(st, e, node) ==> e.Poll2? && node in st.nodes
  {
  }

  lemma NoBeatYet(cfg: Config, es: seq<Event>, j: nat, node: string)
    requires 0 < j <= |es| && node !in Before(cfg, es, j - 1).nodes
    ensures LatestBeat(cfg, es, j, node).None?
    ensures LatestOffer(cfg, es, j, node).None?
  {
    hide Run, Before, Beats, Processes;
    var i, k := LatestBeat(cfg, es, j, node), LatestOffer(cfg, es, j, node);
    if i.Some? {
      BeatEvent(Before(cfg, es, i.value), es[i.value], node);
      NodePersists(cfg, es, i.value, j - 1, node);
    }
    if k.Some? {
      BeatEvent(Before(cfg, es, k.value), es[k.value], node);
      NodePersists(cfg, es, k.value, j - 1, node);
    }
  }

  /** Roll-up, for every accepted heartbeat: it goes upstream exactly when no forward of the node has
      completed yet, or the last one that did is at least an interval ago. */
  lemma BeatsAreSpaced(cfg: Config, es: seq<Event>, j: nat, node: string)
    requires j < |es| && BeatTaken(cfg, Before(cfg, es, j), es[j], node)
    ensures var last := LatestBeat(cfg, es, j, node);
      Step(cfg, Before(cfg, es, j), es[j]).1.Onward? <==>
        last.None? || es[j].now - es[last.value].now >= if cfg.upstreamBeat > 0 then cfg.upstreamBeat else 60_000_000_000
  {
    hide Run, Before, Beats, LatestBeat;
    LastBeatExactly(cfg, es, j, node);
  }

  predicate Timed(e: Event) {
    e.Beat1? || e.Beat2? || e.Poll1? || e.Poll2? || e.Auth?
  }

  /** The clock the sections read never goes back. */
  predicate ClockRises(es: seq<Event>) {
    forall i, j :: 0 <= i < j < |es| && Timed(es[i]) && Timed(es[j]) ==> es[i].now <= es[j].now
  }

  /** At most one forward per interval, where the code keeps it: on a clock that never goes back, a heartbeat
      forwarded after a forward of an earlier one completed is at least an interval later. */
  lemma BeatsApart(cfg: Config, es: seq<Event>, i: nat, k: nat, j: nat, node: string)
    requires ClockRises(es) && i < k < j < |es|
    requires BeatTaken(cfg, Before(cfg, es, i), es[i], node) && Beats(Before(cfg, es, k), es[k], node)
    requires BeatTaken(cfg, Before(cfg, es, j), es[j], node) && Step(cfg, Before(cfg, es, j), es[j]).1.Onward?
    ensures es[j].now - es[i].now >= BeatEvery(cfg)
  {
    hide Run, Before, Step, LatestBeat;
    BeatsAreSpaced(cfg, es, j, node);
    var last := LatestBeat(cfg, es, j, node);
    BeatEvent(Before(cfg, es, last.value), es[last.value], node);
  }

  /** While a forward is still on its way, a second heartbeat goes upstream at the same instant. */
  lemma BeatRace(cfg: Config, pub: Key, g: Heartbeat, h: Heartbeat, now: int)
    requires |pub| == KEY_SIZE && g.nodeId == h.nodeId != "" && 0 < g.number < h.number
    requires cfg.heartbeat(pub, g) && cfg.heartbeat(pub, h)
    ensures var es := [Enroll1(0, g.nodeId, pub), Enroll2(0), Beat1(1, g, now), Beat1(2, h, now)];
      Step(cfg, Before(cfg, es, 2), es[2]).1.Onward? && Step(cfg, Before(cfg, es, 3), es[3]).1.Onward?
  {
    var es := [Enroll1(0, g.nodeId, pub), Enroll2(0), Beat1(1, g, now), Beat1(2, h, now)];
    BeforeNext(cfg, es, 0);
    BeforeNext(cfg, es, 1);
    BeforeNext(cfg, es, 2);
    assert es[..0] == [];
  }

  // ------------------------------------------------------------------ polls

  /** The last section before j that processed an upstream answer for the node. */
  ghost function LatestOffer(cfg: Config, es: seq<Event>, j: nat, node: string): (r: Option<nat>)
    requires j <= |es|
    ensures r.Some? ==> r.value < j && Processes(Before(cfg, es, r.value), es[r.value], node)
    ensures forall k :: (if r.Some? then r.value + 1 else 0) <= k < j ==> !Processes(Before(cfg, es, k), es[k], node)
  {
    if j == 0 then None
    else if Processes(Before(cfg, es, j - 1), es[j - 1], node) then Some(j - 1)
    else LatestOffer(cfg, es, j - 1, node)
  }

  /** What the relay has cached for a node is the latest processed answer and its time, if any. */
  lemma {:induction false} CacheExactly(cfg: Config, es: seq<Event>, j: nat, node: string)
    requires j <= |es| && node in Before(cfg, es, j).nodes
    ensures var n, last := Before(cfg, es, j).nodes[node], LatestOffer(cfg, es, j, node);
      if last.None? then n.pollAt == None && n.jobs == []
      else es[last.value].Poll2? && n.pollAt == Some(es[last.value].now) && n.jobs == es[last.value].offer
    decreases j
  {
    hide Step, Run, Before, Processes, Forgets, Settles, BeatTaken, AuthTaken, Beats;
    if j == 0 {
      NothingYet(cfg, es, node);
    } else {
      var st := Before(cfg, es, j - 1);
      BeforeNext(cfg, es, j - 1);
      if node in st.nodes {
        CacheExactly(cfg, es, j - 1, node);
        StepOnNode(cfg, st, es[j - 1], node);
        BeatEvent(st, es[j - 1], node);
      } else {
        StepOnNewNode(cfg, st, es[j - 1], node);
        NoBeatYet(cfg, es, j, node);
      }
    }
  }

  /** Roll-up of polls: a poll of an enrolled node goes upstream exactly when no answer for it has been
      processed yet, or the last one was at least an interval ago. */
  lemma PollsAreSpaced(cfg: Config, es: seq<Event>, j: nat, node: string)
    requires j < |es| && es[j].Poll1? && es[j].node == node && es[j].c !in Before(cfg, es, j).calls
    requires node in Before(cfg, es, j).nodes
    ensures var last := LatestOffer(cfg, es, j, node);
      Step(cfg, Before(cfg, es, j), es[j]).1.Onward? <==>
        last.None? || es[j].now - es[last.value].now >= if cfg.upstreamPoll > 0 then cfg.upstreamPoll else 30_000_000_000
  {
    hide Run, Before, Processes, LatestOffer;
    CacheExactly(cfg, es, j, node);
  }

  /** The same for polls: one that goes upstream after the answer to an earlier one was processed is at least
      an interval later. */
  lemma PollsApart(cfg: Config, es: seq<Event>, i: nat, k: nat, j: nat, node: string)
    requires ClockRises(es) && i < k < j < |es| && es[i].Poll1? && Processes(Before(cfg, es, k), es[k], node)
    requires es[j].Poll1? && es[j].node == node && es[j].c !in Before(cfg, es, j).calls
    requires Step(cfg, Before(cfg, es, j), es[j]).1.Onward?
    ensures es[j].now - es[i].now >= PollEvery(cfg)
  {
    NodePersists(cfg, es, k, j, node);
    hide Run, Before, Step, LatestOffer;
    PollsAreSpaced(cfg, es, j, node);
    var last := LatestOffer(cfg, es, j, node);
    BeatEvent(Before(cfg, es, last.value), es[last.value], node);
  }

  /** Until the first answer is processed, two polls of one node go upstream at the same instant. */
  lemma PollRace(cfg: Config, pub: Key, node: string, now: int)
    requires |pub| == KEY_SIZE && node != ""
    ensures var es := [Enroll1(0, node, pub), Enroll2(0), Poll1(1, node, now), Poll1(2, node, now)];
      Step(cfg, Before(cfg, es, 2), es[2]).1.Onward? && Step(cfg, Before(cfg, es, 3), es[3]).1.Onward?
  {
    var es := [Enroll1(0, node, pub), Enroll2(0), Poll1(1, node, now), Poll1(2, node, now)];
    BeforeNext(cfg, es, 0);
    BeforeNext(cfg, es, 1);
    BeforeNext(cfg, es, 2);
    assert es[..0] == [];
  }

  /** Exactly what a poll hands out: the assignments of the last processed answer whose job was not
      settled, or was settled but missing from an answer processed since. */
  lemma HandedOutExactly(cfg: Config, es: seq<Event>, k: nat, node: string, a: Assignment)
    requires k < |es| && Answers(Before(cfg, es, k), es[k], node)
    ensures var last := LatestOffer(cfg, es, k, node);
      Step(cfg, Before(cfg, es, k), es[k]).1.Answer? &&
      (a in Step(cfg, Before(cfg, es, k), es[k]).1.jobs <==>
        && last.Some? && es[last.value].Poll2? && a in es[last.value].offer
        && !exists i :: 0 <= i < k && SettledAt(cfg, es, i, k, node, a.jobId))
  {
    hide Run, Before, Settles, Forgets, Processes, LatestOffer, SettledAt;
    var n := Before(cfg, es, k).nodes[node];
    UnsettledExactly(n.jobs, n.settled, a);
    SettledExactly(cfg, es, k, node, a.jobId);
    CacheExactly(cfg, es, k, node);
  }

  function StaleOffer(pub: Key, m: Settlement, a: Assignment, now: int): seq<Event> {
    [Enroll1(0, m.nodeId, pub), Enroll2(0), Poll1(1, m.nodeId, now), Poll1(2, m.nodeId, now), Settle1(3, m), Settle2(3),
     Poll2(1, [], now), Poll2(2, [a], now), Poll3(2)]
  }

  /** Two polls of the node are on their way and the call named 3 is not. */
  predicate TwoPolls(st: State, node: string, pub: Key) {
    && node in st.nodes && st.nodes[node].pub == pub
    && 1 in st.calls && st.calls[1] == Polling(node) && 2 in st.calls && st.calls[2] == Polling(node)
  }

  lemma StaleOfferPolls(cfg: Config, pub: Key, m: Settlement, a: Assignment, now: int)
    requires |pub| == KEY_SIZE && m.nodeId != ""
    ensures TwoPolls(Before(cfg, StaleOffer(pub, m, a, now), 4), m.nodeId, pub)
    ensures 3 !in Before(cfg, StaleOffer(pub, m, a, now), 4).calls
  {
    hide PollStore;
    var es := StaleOffer(pub, m, a, now);
    assert es[..0] == [];
    BeforeNext(cfg, es, 0);
    BeforeNext(cfg, es, 1);
    BeforeNext(cfg, es, 2);
    BeforeNext(cfg, es, 3);
  }

  lemma StaleOfferSettles(cfg: Config, pub: Key, m: Settlement, a: Assignment, now: int)
    requires |pub| == KEY_SIZE && m.nodeId != "" && cfg.settlement(pub, m)
    ensures Settles(Before(cfg, StaleOffer(pub, m, a, now), 5), Settle2(3), m.nodeId, m.jobId)
    ensures TwoPolls(Before(cfg, StaleOffer(pub, m, a, now), 6), m.nodeId, pub)
  {
    hide Run, Before, PollStore;
    var es := StaleOffer(pub, m, a, now);
    StaleOfferPolls(cfg, pub, m, a, now);
    BeforeNext(cfg, es, 4);
    BeforeNext(cfg, es, 5);
  }

  /** An answer that upstream gave before a settlement can be stored after one that lacks the job: the
      settled job is then handed back. */
  lemma StaleOfferHandsBack(cfg: Config, pub: Key, m: Settlement, a: Assignment, now: int)
    requires |pub| == KEY_SIZE && m.nodeId != "" && cfg.settlement(pub, m) && a.jobId == m.jobId
    ensures var es := StaleOffer(pub, m, a, now);
      && Settles(Before(cfg, es, 5), es[5], m.nodeId, a.jobId)
      && Step(cfg, Before(cfg, es, 8), es[8]).1 == Answer([a])
  {
    hide Run, Before;
    var es := StaleOffer(pub, m, a, now);
    StaleOfferSettles(cfg, pub, m, a, now);
    BeforeNext(cfg, es, 6);
    BeforeNext(cfg, es, 7);
    assert Before(cfg, es, 7).nodes[m.nodeId].settled == {};
    assert Before(cfg, es, 8).nodes[m.nodeId].settled == {};
    assert [a][..0] == [] && Unsettled([], {}) == [];
    assert Unsettled([a], {}) == [a];
  }

  // ------------------------------------------------------------------ calls in flight

  /** A call that has passed its first section is of an enrolled node, so no later section of it is
      skipped for want of one. */
  lemma {:induction false} CallsEnrolled(cfg: Config, es: seq<Event>, j: nat, c: nat)
    requires j <= |es| && c in Before(cfg, es, j).calls && !Before(cfg, es, j).calls[c].Enrolling?
    ensures Before(cfg, es, j).calls[c].node in Before(cfg, es, j).nodes
    decreases j
  {
    hide Run, Before;
    if j == 0 {
      NoCalls(cfg, es);
    } else {
      hide PollStore, Offered;
      var st := Before(cfg, es, j - 1);
      BeforeNext(cfg, es, j - 1);
      var call := Before(cfg, es, j).calls[c];
      if c in st.calls && !st.calls[c].Enrolling? { CallsEnrolled(cfg, es, j - 1, c); }
      if call.node in st.nodes { NodePersists(cfg, es, j - 1, j, call.node); }
    }
  }

  /** The first section of this call carried a message of this kind that the key signed. */
  predicate SignedFirst(cfg: Config, e: Event, c: nat, call: Call, pub: Key) {
    match call
    case Enrolling(node, key) => e == Enroll1(c, node, key) && node != "" && |key| == KEY_SIZE
    case Submitting(node, number) => e.List1? && e.c == c && e.l.nodeId == node && e.l.number == number && cfg.listing(pub, e.l)
    case Beating(node) => e.Beat1? && e.c == c && e.h.nodeId == node && cfg.heartbeat(pub, e.h)
    case Settling(node, job) => e.Settle1? && e.c == c && e.m.nodeId == node && e.m.jobId == job && cfg.settlement(pub, e.m)
    case Polling(node) => e.Poll1? && e.c == c && e.node == node
    case Answering(node) => e.Poll1? && e.c == c && e.node == node
  }

  /** The key that must have signed for a call: its own, or the one its node is enrolled under. */
  function KeyFor(st: State, call: Call): Key {
    if call.Enrolling? || call.node !in st.nodes then [] else st.nodes[call.node].pub
  }

  /** Whatever is on its way upstream, or settles, lists or beats afterwards, goes back to a first section whose
      message the node's enrolled key signed. */
  lemma {:induction false} CallsSigned(cfg: Config, es: seq<Event>, j: nat, c: nat)
    requires j <= |es| && c in Before(cfg, es, j).calls
    ensures var st := Before(cfg, es, j);
      exists i :: 0 <= i < j && SignedFirst(cfg, es[i], c, st.calls[c], KeyFor(st, st.calls[c]))
    decreases j
  {
    hide Run, Before, SignedFirst;
    if j == 0 {
      NoCalls(cfg, es);
    } else {
      hide Step;
      var st, next := Before(cfg, es, j - 1), Before(cfg, es, j);
      BeforeNext(cfg, es, j - 1);
      var call := next.calls[c];
      if call.node in st.nodes { NodePersists(cfg, es, j - 1, j, call.node); }
      CallCameFrom(cfg, st, es[j - 1], c);
      if c in st.calls && (call == st.calls[c] || (call.Answering? && st.calls[c] == Polling(call.node))) {
        CallsSigned(cfg, es, j - 1, c);
        if !st.calls[c].Enrolling? { CallsEnrolled(cfg, es, j - 1, c); }
        var i :| 0 <= i < j - 1 && SignedFirst(cfg, es[i], c, st.calls[c], KeyFor(st, st.calls[c]));
        SameSigned(cfg, es[i], c, st.calls[c], call, KeyFor(st, st.calls[c]), KeyFor(next, call));
      } else {
        assert SignedFirst(cfg, es[j - 1], c, call, KeyFor(st, call));
        SameSigned(cfg, es[j - 1], c, call, call, KeyFor(st, call), KeyFor(next, call));
      }
    }
  }

  lemma SameSigned(cfg: Config, e: Event, c: nat, was: Call, call: Call, a: Key, b: Key)
    requires SignedFirst(cfg, e, c, was, a)
    requires call == was || (call.Answering? && was == Polling(call.node))
    requires a == b || call.Enrolling? || call.Answering? || call.Polling?
    ensures SignedFirst(cfg, e, c, call, b)
  {
  }

  /** Where a call in flight comes from in one step: it was there, or this section began it. */
  lemma CallCameFrom(cfg: Config, st: State, e: Event, c: nat)
    requires c in Step(cfg, st, e).0.calls
    ensures var call := Step(cfg, st, e).0.calls[c];
      || (c in st.calls && (call == st.calls[c] || (call.Answering? && st.calls[c] == Polling(call.node))))
      || (SignedFirst(cfg, e, c, call, KeyFor(st, call)) && (call.Enrolling? || call.node in st.nodes))
  {
    hide PollStore, Offered;
  }

  /** Every enrolled node has a name and a key of the pinned length. */
  lemma EnrolledWellFormed(cfg: Config, es: seq<Event>, j: nat, node: string)
    requires j <= |es| && node in Before(cfg, es, j).nodes
    ensures node != "" && |Before(cfg, es, j).nodes[node].pub| == KEY_SIZE
  {
    hide Run, Before, Step;
    KeyIsFirstStored(cfg, es, j, node);
    var i :| 0 <= i < j && FirstStored(cfg, es, i, node);
    CallsSigned(cfg, es, i, es[i].c);
  }

  lemma NoCalls(cfg: Config, es: seq<Event>)
    ensures Before(cfg, es, 0).calls == map[]
  {
  }
}
