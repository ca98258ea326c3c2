/** The covenant Book inside the member-facing server: the server's own directory and dialog log answer the
    Book's questions, so what stands in a member's trade standing is backed by the log for good. */
module TradeStanding {
  import opened Common
  import CA = ConsumerApi
  import DL = DialogLog
  import V = Covenant

  datatype Host = Host(server: CA.ServerState, store: V.StoreState, byMember: map<Bytes, Key>)

  const NEW_HOST := Host(CA.FRESH, V.EMPTY, map[])

  /** What the Book is told during a call: the directory, and the two anchor views of the server. */
  ghost function Now(env: CA.Env, operatorMember: Bytes, h: Host): V.Moment {
    V.Moment(
      m => if m in h.byMember then Some(h.byMember[m]) else None,
      (x, a, b) => Sealed(env, h, x, a, b),
      (x, a, b) => Adjudicated(h, operatorMember, x, a, b))
  }

  /** recAnchors.Sealed, as Server.MembersSealed answers it. */
  predicate Sealed(env: CA.Env, h: Host, x: Hash, a: Bytes, b: Bytes) {
    a in h.byMember && b in h.byMember && CA.Anchored(env, h.server, x, h.byMember[a], h.byMember[b])
  }

  /** recAnchors.Adjudicated, as the method of that name answers it. */
  predicate Adjudicated(h: Host, operatorMember: Bytes, x: Hash, a: Bytes, b: Bytes) {
    && b == operatorMember && a in h.byMember
    && exists d :: d in CA.Listed(h.server.byExchange, x) && CA.PartyTo(h.server, d, h.byMember[a])
  }

  /** The locked sections: a handler of the server, a registration, and the two calls on the Book. */
  datatype Event = Handler(c: CA.Call) | Register(member: Bytes, key: Key) | Assess(a: V.Assessment) | Reply(w: V.Answer)

  ghost function Step(env: CA.Env, book: V.Env, operatorMember: Bytes, h: Host, e: Event): Host {
    match e
    case Handler(c) => h.(server := CA.Handle(env, h.server, c))
    case Register(member, key) => h.(byMember := h.byMember[member := key])
    case Assess(a) => h.(store := V.Do(book, h.store, V.Assess(a, Now(env, operatorMember, h))))
    case Reply(w) => h.(store := V.Do(book, h.store, V.Reply(w, Now(env, operatorMember, h))))
  }

  ghost function Run(env: CA.Env, book: V.Env, operatorMember: Bytes, es: seq<Event>): Host {
    if es == [] then NEW_HOST
    else Step(env, book, operatorMember, Run(env, book, operatorMember, es[..|es| - 1]), es[|es| - 1])
  }

  /** Two keys that mint the two members' IDs sealed this exchange in the log. */
  ghost predicate Backed(env: CA.Env, book: V.Env, server: CA.ServerState, a: V.Assessment) {
    exists p: Key, q: Key :: BackedBy(env, book, server, a, p, q)
  }

  predicate BackedBy(env: CA.Env, book: V.Env, server: CA.ServerState, a: V.Assessment, p: Key, q: Key) {
    book.memberIdFor(p) == a.assessor && book.memberIdFor(q) == a.subject && CA.Anchored(env, server, a.exchange, p, q)
  }

  /** Every trade verdict about the subject is backed. */
  ghost predicate SubjectBacked(env: CA.Env, book: V.Env, h: Host, subject: Bytes) {
    forall a :: a in V.About(h.store, subject) && a.relation == V.TRADE ==> Backed(env, book, h.server, a)
  }

  /** A trade verdict is backed at the moment it is admitted. */
  lemma AdmittedIsBacked(env: CA.Env, book: V.Env, operatorMember: Bytes, h: Host, a: V.Assessment)
    requires V.Passes(book, Now(env, operatorMember, h), a) && a.relation == V.TRADE
    ensures Backed(env, book, h.server, a)
  {
    hide CA.Anchored, V.Minted;
    assert BackedBy(env, book, h.server, a, h.byMember[a.assessor], h.byMember[a.subject]);
  }

  lemma ListedAfterAssess(book: V.Env, now: V.Moment, st: V.StoreState, a: V.Assessment, subject: Bytes)
    ensures var next := V.Do(book, st, V.Assess(a, now));
      V.About(next, subject) ==
        V.About(st, subject) + if V.Record(book, now, st, a).Ok? && a.subject == subject then [a] else []
  {
    hide V.Passes, V.KeyOf;
    assert V.About(st, subject) + [] == V.About(st, subject);
  }

  lemma StillBacked(env: CA.Env, book: V.Env, server: CA.ServerState, c: CA.Call, a: V.Assessment)
    requires CA.LogAgrees(env, server) && Backed(env, book, server, a)
    ensures Backed(env, book, CA.Handle(env, server, c), a)
  {
    hide CA.LogAgrees, CA.Anchored, CA.Handle;
    var p, q :| BackedBy(env, book, server, a, p, q);
    CA.AnchoredForGood(env, server, c, a.exchange, p, q);
    assert BackedBy(env, book, CA.Handle(env, server, c), a, p, q);
  }

  lemma StepKeepsBacked(env: CA.Env, book: V.Env, operatorMember: Bytes, h: Host, e: Event, subject: Bytes)
    requires CA.LogAgrees(env, h.server) && SubjectBacked(env, book, h, subject)
    ensures CA.LogAgrees(env, Step(env, book, operatorMember, h, e).server)
    ensures SubjectBacked(env, book, Step(env, book, operatorMember, h, e), subject)
  {
    hide CA.LogAgrees, CA.Handle, Backed, V.About, V.Passes, V.KeyOf;
    var now := Now(env, operatorMember, h);
    match e
    case Handler(c) =>
      CA.AnchoredForGood(env, h.server, c, ZERO_HASH, [], []);
      forall a | a in V.About(h.store, subject) && a.relation == V.TRADE ensures Backed(env, book, CA.Handle(env, h.server, c), a) {
        StillBacked(env, book, h.server, c, a);
      }
    case Register(member, key) =>
    case Assess(a) =>
      ListedAfterAssess(book, now, h.store, a, subject);
      if V.Record(book, now, h.store, a).Ok? && a.relation == V.TRADE {
        AdmittedIsBacked(env, book, operatorMember, h, a);
      }
    case Reply(w) =>
      V.AnswerChangesNoStanding(book, now, h.store, w, subject);
  }

  lemma {:induction false} RunKeepsBacked(env: CA.Env, book: V.Env, operatorMember: Bytes, es: seq<Event>, subject: Bytes)
    ensures CA.LogAgrees(env, Run(env, book, operatorMember, es).server)
    ensures SubjectBacked(env, book, Run(env, book, operatorMember, es), subject)
  {
    if es == [] {
      CA.FreshAgrees(env);
    } else {
      hide CA.LogAgrees, SubjectBacked, Step;
      RunKeepsBacked(env, book, operatorMember, es[..|es| - 1], subject);
      StepKeepsBacked(env, book, operatorMember, Run(env, book, operatorMember, es[..|es| - 1]), es[|es| - 1], subject);
    }
  }

  /** Standing rests on the log: at every point of every run, the exchange of every trade verdict that counts
      for a member is an entry of the dialog log sealed by exactly two keys that mint the two members' IDs. */
  lemma TradeVerdictsAnchored(env: CA.Env, book: V.Env, operatorMember: Bytes, es: seq<Event>, subject: Bytes, a: V.Assessment)
    requires a in V.About(Run(env, book, operatorMember, es).store, subject) && a.relation == V.TRADE
    ensures exists e, p, q :: e in Run(env, book, operatorMember, es).server.entries && SealedBy(env, book, e, a, p, q)
  {
    hide Run, CA.LogAgrees, CA.Anchored, V.About;
    RunKeepsBacked(env, book, operatorMember, es, subject);
    var server := Run(env, book, operatorMember, es).server;
    var p, q :| BackedBy(env, book, server, a, p, q);
    CA.AnchoredExactly(env, server, a.exchange, p, q);
    var e :| e in server.entries && env.log.id(e) == a.exchange && CA.Parties(e, p, q);
    assert SealedBy(env, book, e, a, p, q);
  }

  predicate SealedBy(env: CA.Env, book: V.Env, e: DL.Entry, a: V.Assessment, p: Key, q: Key) {
    && env.log.id(e) == a.exchange && CA.Parties(e, p, q)
    && book.memberIdFor(p) == a.assessor && book.memberIdFor(q) == a.subject
  }
}
