/** The relay object of internal/noderelay: one method per lock-held section. The object carries the run
    it is in, so what is proved of every run holds of it after every section. */
module RelayFrontend {
  import opened Common
  import opened Relay

  lemma RunStep(cfg: Config, es: seq<Event>, e: Event)
    ensures Run(cfg, es + [e]) == Step(cfg, Run(cfg, es), e).0
    ensures Before(cfg, es + [e], |es|) == Run(cfg, es)
  {
    hide Step;
    assert (es + [e])[..|es|] == es;
  }

  lemma SameBefore(cfg: Config, es: seq<Event>, e: Event, i: nat)
    requires i <= |es|
    ensures Before(cfg, es + [e], i) == Before(cfg, es, i)
  {
    hide Run;
    assert (es + [e])[..i] == es[..i];
  }

  /** Every heartbeat the run accepted from the node has a smaller number. */
  ghost predicate NewestBeat(cfg: Config, es: seq<Event>, node: string, number: nat) {
    forall i :: 0 <= i < |es| && BeatTaken(cfg, Before(cfg, es, i), es[i], node) ==> es[i].h.number < number
  }

  /** Every request the run accepted from the node has a smaller timestamp. */
  ghost predicate NewestRequest(cfg: Config, es: seq<Event>, node: string, ts: int) {
    forall i :: 0 <= i < |es| && AuthTaken(cfg, Before(cfg, es, i), es[i], node) ==> es[i].a.ts < ts
  }

  /** Every listing of the node that the run completed has a smaller number. */
  ghost predicate NewestListing(cfg: Config, es: seq<Event>, node: string, number: nat) {
    forall i: nat, n: nat :: i < |es| && ListedBy(cfg, es, i, node, n) ==> n < number
  }

  lemma BeatIsNewest(cfg: Config, es: seq<Event>, e: Event, node: string)
    requires BeatTaken(cfg, Run(cfg, es), e, node)
    ensures NewestBeat(cfg, es, node, e.h.number)
  {
    hide Run, Step, Before;
    RunStep(cfg, es, e);
    forall i | 0 <= i < |es| && BeatTaken(cfg, Before(cfg, es, i), es[i], node) ensures es[i].h.number < e.h.number {
      SameBefore(cfg, es, e, i);
      HeartbeatsIncrease(cfg, es + [e], i, |es|, node);
    }
  }

  lemma RequestIsNewest(cfg: Config, es: seq<Event>, e: Event, node: string)
    requires AuthTaken(cfg, Run(cfg, es), e, node)
    ensures NewestRequest(cfg, es, node, e.a.ts)
  {
    hide Run, Step, Before;
    RunStep(cfg, es, e);
    forall i | 0 <= i < |es| && AuthTaken(cfg, Before(cfg, es, i), es[i], node) ensures es[i].a.ts < e.a.ts {
      SameBefore(cfg, es, e, i);
      TimestampsIncrease(cfg, es + [e], i, |es|, node);
    }
  }

  /** The whole run is its own last prefix. */
  lemma AtEnd(cfg: Config, es: seq<Event>)
    ensures Before(cfg, es, |es|) == Run(cfg, es)
  {
    hide Run;
    assert es[..|es|] == es;
  }

  lemma ListingIsNewest(cfg: Config, es: seq<Event>, node: string, number: nat)
    requires node in Run(cfg, es).nodes && number > Run(cfg, es).nodes[node].listSeq
    ensures NewestListing(cfg, es, node, number)
  {
    hide Run, Before, ListedBy;
    AtEnd(cfg, es);
    ListSeqExactly(cfg, es, |es|, node);
  }

  lemma CallerEnrolled(cfg: Config, es: seq<Event>, c: nat)
    requires c in Run(cfg, es).calls && !Run(cfg, es).calls[c].Enrolling?
    ensures Run(cfg, es).calls[c].node in Run(cfg, es).nodes
  {
    hide Run, Before;
    AtEnd(cfg, es);
    CallsEnrolled(cfg, es, |es|, c);
  }

  lemma BeatDue(cfg: Config, es: seq<Event>, e: Event, node: string)
    requires BeatTaken(cfg, Run(cfg, es), e, node)
    ensures var last := LatestBeat(cfg, es, |es|, node);
      Step(cfg, Run(cfg, es), e).1.Onward? <==> last.None? || e.now - es[last.value].now >= BeatEvery(cfg)
  {
    hide Run, Before, LatestBeat, Beats;
    AtEnd(cfg, es);
    LastBeatExactly(cfg, es, |es|, node);
  }

  class Frontend {
    const cfg: Config
    var nodes: Nodes
    /** The calls that have released the lock, and every section so far. */
    ghost var calls: map<nat, Call>
    ghost var events: seq<Event>

    /** The object is where its run has led. */
    ghost predicate Valid() reads this {
      State(nodes, calls) == Run(cfg, events)
    }

    constructor (cfg: Config)
      ensures Valid() && this.cfg == cfg && events == []
    {
      this.cfg, nodes, calls, events := cfg, map[], map[], [];
    }

    /** The section just executed joins the run. */
    ghost method Log(e: Event, was: Nodes)
      requires State(was, calls) == Run(cfg, events) && nodes == Step(cfg, State(was, calls), e).0.nodes
      modifies this`calls, this`events
      ensures Valid() && events == old(events) + [e]
      ensures calls == Step(cfg, State(was, old(calls)), e).0.calls
    {
      hide Step, Run;
      RunStep(cfg, events, e);
      calls := Step(cfg, State(was, calls), e).0.calls;
      events := events + [e];
    }

    /** An upstream error ends the call. */
    ghost method Abandon(c: nat)
      requires Valid()
      modifies this`calls, this`events
      ensures Valid() && events == old(events) + [Fail(c)] && calls == old(calls) - {c}
    {
      RunStep(cfg, events, Fail(c));
      hide Run;
      events, calls := events + [Fail(c)], calls - {c};
    }

    /** Success at once means the key is in place; going on means the node was unknown. */
    method BeginEnroll(ghost c: nat, node: string, pub: Key) returns (o: Outcome)
      requires Valid() && c !in calls
      modifies this`calls, this`events
      ensures Valid() && events == old(events) + [Enroll1(c, node, pub)]
      ensures o == Step(cfg, Run(cfg, old(events)), Enroll1(c, node, pub)).1
      ensures o == Refused(BadEnroll) <==> node == "" || |pub| != KEY_SIZE
      ensures o.Done? ==> node in nodes && nodes[node].pub == pub
      ensures o == Refused(KeyConflict) ==> node in nodes && nodes[node].pub != pub
      ensures o.Onward? ==> node !in nodes && c in calls && calls[c] == Enrolling(node, pub)
    {
      hide Run;
      if node == "" || |pub| != KEY_SIZE {
        o := Refused(BadEnroll);
      } else if node in nodes {
        o := if nodes[node].pub != pub then Refused(KeyConflict) else Done;
      } else {
        o := Onward;
      }
      Log(Enroll1(c, node, pub), nodes);
    }

    /** The node is then enrolled, under the first key stored for it. */
    method FinishEnroll(ghost c: nat, node: string, pub: Key)
      requires Valid() && c in calls && calls[c] == Enrolling(node, pub)
      modifies this
      ensures Valid() && events == old(events) + [Enroll2(c)]
      ensures node in nodes && nodes[node].pub == if node in old(nodes) then old(nodes)[node].pub else pub
      ensures forall other :: other != node ==> (other in nodes <==> other in old(nodes))
    {
      hide Run;
      ghost var was := nodes;
      if node !in nodes {
        nodes := nodes[node := NodeState(pub, 0, 0, None, None, [], {}, 0)];
      }
      Log(Enroll2(c), was);
    }

    /** A listing goes on only if it is newer than every completed one. */
    method BeginListing(ghost c: nat, l: Listing) returns (o: Outcome)
      requires Valid() && c !in calls
      modifies this`calls, this`events
      ensures Valid() && events == old(events) + [List1(c, l)]
      ensures o == Step(cfg, Run(cfg, old(events)), List1(c, l)).1
      ensures o.Onward? ==> c in calls && calls[c] == Submitting(l.nodeId, l.number)
      ensures o.Onward? ==> NewestListing(cfg, old(events), l.nodeId, l.number)
    {
      hide Run, NewestListing;
      if l.nodeId !in nodes {
        o := Refused(UnknownNode);
      } else if !cfg.listing(nodes[l.nodeId].pub, l) {
        o := Refused(BadSignature);
      } else if l.number <= nodes[l.nodeId].listSeq {
        o := Refused(StaleSeq);
      } else {
        o := Onward;
        ListingIsNewest(cfg, events, l.nodeId, l.number);
      }
      Log(List1(c, l), nodes);
    }

    method FinishListing(ghost c: nat, node: string, number: nat)
      requires Valid() && c in calls && calls[c] == Submitting(node, number)
      modifies this
      ensures Valid() && events == old(events) + [List2(c)]
      ensures node in nodes && nodes[node].listSeq >= number
    {
      hide Run;
      ghost var was := nodes;
      CallerEnrolled(cfg, events, c);
      if number > nodes[node].listSeq {
        nodes := nodes[node := nodes[node].(listSeq := number)];
      }
      Log(List2(c), was);
    }

    /** An accepted heartbeat is newer than every one accepted before, and goes upstream exactly when no
        forward has completed yet or the last one is an interval ago. */
    method BeginHeartbeat(ghost c: nat, h: Heartbeat, now: int) returns (o: Outcome)
      requires Valid() && c !in calls
      modifies this
      ensures Valid() && events == old(events) + [Beat1(c, h, now)]
      ensures o == Step(cfg, Run(cfg, old(events)), Beat1(c, h, now)).1
      ensures o.Onward? ==> c in calls && calls[c] == Beating(h.nodeId)
      ensures !o.Refused? ==> NewestBeat(cfg, old(events), h.nodeId, h.number)
      ensures !o.Refused? ==> var last := LatestBeat(cfg, old(events), |old(events)|, h.nodeId);
        (o.Onward? <==> last.None? || now - old(events)[last.value].now >= BeatEvery(cfg))
    {
      hide Run, NewestBeat, LatestBeat;
      ghost var was := nodes;
      if h.nodeId !in nodes {
        o := Refused(UnknownNode);
      } else {
        var n := nodes[h.nodeId];
        if !cfg.heartbeat(n.pub, h) {
          o := Refused(BadSignature);
        } else if h.number <= n.beatSeq {
          o := Refused(StaleSeq);
        } else {
          BeatIsNewest(cfg, events, Beat1(c, h, now), h.nodeId);
          BeatDue(cfg, events, Beat1(c, h, now), h.nodeId);
          nodes := nodes[h.nodeId := n.(beatSeq := h.number)];
          var forward := n.lastBeatUp.None? || now - n.lastBeatUp.value >= BeatEvery(cfg);
          o := if forward then Onward else Done;
        }
      }
      Log(Beat1(c, h, now), was);
    }

    method FinishHeartbeat(ghost c: nat, node: string, now: int)
      requires Valid() && c in calls && calls[c] == Beating(node)
      modifies this
      ensures Valid() && events == old(events) + [Beat2(c, now)]
      ensures node in nodes && nodes[node].lastBeatUp == Some(now)
    {
      hide Run;
      ghost var was := nodes;
      CallerEnrolled(cfg, events, c);
      nodes := nodes[node := nodes[node].(lastBeatUp := Some(now))];
      Log(Beat2(c, now), was);
    }

    method BeginPoll(ghost c: nat, node: string, now: int) returns (o: Outcome)
      requires Valid() && c !in calls
      modifies this`calls, this`events
      ensures Valid() && events == old(events) + [Poll1(c, node, now)]
      ensures o == Step(cfg, Run(cfg, old(events)), Poll1(c, node, now)).1
      ensures !o.Refused? ==> c in calls && calls[c] == if o.Onward? then Polling(node) else Answering(node)
      ensures !o.Refused? ==> var last := LatestOffer(cfg, old(events), |old(events)|, node);
        (o.Onward? <==> last.None? || now - old(events)[last.value].now >= PollEvery(cfg))
    {
      hide Run, LatestOffer;
      if node !in nodes {
        o := Refused(UnknownNode);
      } else {
        AtEnd(cfg, events);
        CacheExactly(cfg, events, |events|, node);
        var at := nodes[node].pollAt;
        o := if at.Some? && now - at.value < PollEvery(cfg) then Done else Onward;
      }
      Log(Poll1(c, node, now), nodes);
    }

    /** The upstream answer is stored, and settled jobs it no longer offers are forgotten. */
    method StoreOffer(ghost c: nat, node: string, jobs: seq<Assignment>, now: int)
      requires Valid() && c in calls && calls[c] == Polling(node)
      modifies this
      ensures Valid() && events == old(events) + [Poll2(c, jobs, now)]
      ensures node in old(nodes) && nodes == PollStore(old(nodes), node, jobs, now)
      ensures c in calls && calls[c] == Answering(node)
    {
      hide Run, Step;
      CallerEnrolled(cfg, events, c);
      var n := nodes[node];
      var offered := OfferedJobs(jobs);
      var settled := StillOffered(n.settled, offered);
      assert settled == set id | id in n.settled && Offered(jobs, id);
      ghost var was := nodes;
      nodes := nodes[node := n.(jobs := jobs, pollAt := Some(now), settled := settled)];
      StoredBy(cfg, State(was, calls), c, jobs, now);
      Log(Poll2(c, jobs, now), was);
    }

    /** What is handed out: the last processed answer without the jobs settled since one last lacked them. */
    method AnswerPoll(ghost c: nat, node: string) returns (out: seq<Assignment>)
      requires Valid() && c in calls && calls[c] == Answering(node)
      modifies this`calls, this`events
      ensures Valid() && events == old(events) + [Poll3(c)]
      ensures node in nodes && out == PollAnswer(nodes, node)
      ensures forall a :: a in out ==> !exists i :: 0 <= i < |old(events)| && SettledAt(cfg, old(events), i, |old(events)|, node, a.jobId)
    {
      hide Run, Step, SettledAt;
      CallerEnrolled(cfg, events, c);
      var jobs := nodes[node].jobs;
      out := [];
      for i := 0 to |jobs|
        invariant out == Unsettled(jobs[..i], nodes[node].settled)
        invariant Valid() && calls == old(calls) && events == old(events)
      {
        assert jobs[..i + 1][..i] == jobs[..i];
        if jobs[i].jobId !in nodes[node].settled {
          out := out + [jobs[i]];
        }
      }
      assert jobs[..|jobs|] == jobs;
      AtEnd(cfg, events);
      forall a | a in out ensures !exists i :: 0 <= i < |events| && SettledAt(cfg, events, i, |events|, node, a.jobId) {
        UnsettledExactly(jobs, nodes[node].settled, a);
        SettledExactly(cfg, events, |events|, node, a.jobId);
      }
      AnswersOnly(cfg, State(nodes, calls), c);
      Log(Poll3(c), nodes);
    }

    method BeginSettle(ghost c: nat, m: Settlement) returns (o: Outcome)
      requires Valid() && c !in calls
      modifies this`calls, this`events
      ensures Valid() && events == old(events) + [Settle1(c, m)]
      ensures o == Step(cfg, Run(cfg, old(events)), Settle1(c, m)).1
      ensures o.Onward? ==> c in calls && calls[c] == Settling(m.nodeId, m.jobId)
      ensures o.Onward? <==> m.nodeId in nodes && cfg.settlement(nodes[m.nodeId].pub, m)
    {
      hide Run;
      if m.nodeId !in nodes {
        o := Refused(UnknownNode);
      } else {
        o := if !cfg.settlement(nodes[m.nodeId].pub, m) then Refused(BadSignature) else Onward;
      }
      Log(Settle1(c, m), nodes);
    }

    method FinishSettle(ghost c: nat, node: string, job: string)
      requires Valid() && c in calls && calls[c] == Settling(node, job)
      modifies this
      ensures Valid() && events == old(events) + [Settle2(c)]
      ensures Settles(Run(cfg, old(events)), Settle2(c), node, job)
      ensures node in nodes && job in nodes[node].settled
    {
      hide Run;
      ghost var was := nodes;
      CallerEnrolled(cfg, events, c);
      nodes := nodes[node := nodes[node].(settled := nodes[node].settled + {job})];
      Log(Settle2(c), was);
    }

    /** An accepted request is inside the window and newer than every one accepted before from the node. */
    method Authenticated(a: Credential, now: int) returns (o: Outcome)
      requires Valid()
      modifies this
      ensures Valid() && events == old(events) + [Auth(a, now)]
      ensures o == Step(cfg, Run(cfg, old(events)), Auth(a, now)).1
      ensures o.Done? ==> NewestRequest(cfg, old(events), a.nodeId, a.ts) && -AUTH_WINDOW <= now - a.ts <= AUTH_WINDOW
    {
      hide Run, NewestRequest;
      ghost var was := nodes;
      var skew := now - a.ts;
      if skew > AUTH_WINDOW || skew < -AUTH_WINDOW {
        o := Refused(OutsideWindow);
      } else if a.nodeId !in nodes {
        o := Refused(UnknownNode);
      } else if !cfg.request(nodes[a.nodeId].pub, a) {
        o := Refused(BadSignature);
      } else if a.ts <= nodes[a.nodeId].lastAuth {
        o := Refused(Replayed);
      } else {
        RequestIsNewest(cfg, events, Auth(a, now), a.nodeId);
        nodes := nodes[a.nodeId := nodes[a.nodeId].(lastAuth := a.ts)];
        o := Done;
      }
      Log(Auth(a, now), was);
    }
  }

  lemma StoredBy(cfg: Config, st: State, c: nat, jobs: seq<Assignment>, now: int)
    requires c in st.calls && st.calls[c].Polling? && st.calls[c].node in st.nodes
    ensures Step(cfg, st, Poll2(c, jobs, now)).0.nodes == PollStore(st.nodes, st.calls[c].node, jobs, now)
    ensures Step(cfg, st, Poll2(c, jobs, now)).0.calls == st.calls[c := Answering(st.calls[c].node)]
  {
    hide PollStore;
  }

  lemma AnswersOnly(cfg: Config, st: State, c: nat)
    requires c in st.calls && st.calls[c].Answering? && st.calls[c].node in st.nodes
    ensures Step(cfg, st, Poll3(c)).0.nodes == st.nodes
  {
  }

  /** The job IDs of an answer. */
  method OfferedJobs(jobs: seq<Assignment>) returns (offered: set<string>)
    ensures forall id :: id in offered <==> Offered(jobs, id)
  {
    offered := {};
    for i := 0 to |jobs|
      invariant forall id :: id in offered <==> Offered(jobs[..i], id)
    {
      assert jobs[..i + 1] == jobs[..i] + [jobs[i]];
      OfferedAppend(jobs[..i], jobs[i]);
      offered := offered + {jobs[i].jobId};
    }
    assert jobs[..|jobs|] == jobs;
  }

  /** Deletes, in any order, the settled jobs that are not offered. */
  method StillOffered(before: set<string>, offered: set<string>) returns (settled: set<string>)
    ensures forall id :: id in settled <==> id in before && id in offered
  {
    settled := before;
    var left := before;
    while left != {}
      invariant left <= before
      invariant forall id :: id in settled <==> id in before && (id in left || id in offered)
      decreases |left|
    {
      var id :| id in left;
      if id !in offered {
        settled := settled - {id};
      }
      left := left - {id};
    }
  }

  lemma OfferedAppend(jobs: seq<Assignment>, a: Assignment)
    ensures forall id :: Offered(jobs + [a], id) <==> Offered(jobs, id) || id == a.jobId
  {
    forall id ensures Offered(jobs + [a], id) <==> Offered(jobs, id) || id == a.jobId {
      if Offered(jobs, id) {
        var b :| b in jobs && b.jobId == id;
        assert b in jobs + [a];
      }
      if id == a.jobId { assert a in jobs + [a]; }
    }
  }
}
