/** internal/covenant: signed verdicts on sealed exchanges, admitted by the Book into an append-only
    store, and read back as count histograms. Go strings are byte strings here. */
module Covenant {
  import opened Common

  /** 64 lowercase-hex characters when minted; any byte string otherwise. */
  type MemberId = Bytes
  type Level = int

  datatype Assessment = Assessment(
    assessor: MemberId, subject: MemberId, exchange: Hash, relation: Bytes, category: Bytes, level: Level,
    commentHash: Hash, issuedAt: Option<int>, signature: Signature)

  datatype Answer = Answer(assessment: Hash, answerer: MemberId, answerHash: Hash, issuedAt: Option<int>, signature: Signature)

  datatype CovenantError = Invalid | Duplicate | UnknownAssessment | StoreViolation

  // "trade", "adjudication-conduct" and "verdict-satisfaction"
  const TRADE: Bytes := [0x74, 0x72, 0x61, 0x64, 0x65]
  const CONDUCT: Bytes :=
    [0x61, 0x64, 0x6a, 0x75, 0x64, 0x69, 0x63, 0x61, 0x74, 0x69, 0x6f, 0x6e, 0x2d, 0x63, 0x6f, 0x6e, 0x64, 0x75, 0x63, 0x74]
  const VERDICT: Bytes :=
    [0x76, 0x65, 0x72, 0x64, 0x69, 0x63, 0x74, 0x2d, 0x73, 0x61, 0x74, 0x69, 0x73, 0x66, 0x61, 0x63, 0x74, 0x69, 0x6f, 0x6e]

  const NO_TRUST: Level := -1

  predicate ValidRelation(r: Bytes) { r == TRADE || r == CONDUCT || r == VERDICT }

  predicate ValidLevel(l: Level) { -1 <= l <= 4 }

  predicate HexDigit(c: uint8) { 0x30 <= c <= 0x39 || 0x61 <= c <= 0x66 }

  predicate Minted(m: MemberId) {
    |m| == 64 && forall i :: 0 <= i < |m| ==> HexDigit(m[i])
  }

  // ------------------------------------------------------------------ the uniqueness key

  /** One verdict per slot. */
  datatype Slot = Slot(assessor: MemberId, exchange: Hash, relation: Bytes, category: Bytes)

  function SlotOf(a: Assessment): Slot {
    Slot(a.assessor, a.exchange, a.relation, a.category)
  }

  /** The joined string both the store and Standing deduplicate on. */
  function KeyOf(a: Assessment): Bytes {
    a.assessor + ([0] + (a.exchange.bytes + ([0] + (a.relation + ([0] + a.category)))))
  }

  /** The separator may occur in the exchange bytes and the category; what keeps the key injective is the
      fixed length of a minted ID and of an exchange, and relations free of the separator. */
  lemma KeyInjective(a: Assessment, b: Assessment)
    requires |a.assessor| == |b.assessor| == 64 && ValidRelation(a.relation) && ValidRelation(b.relation)
    ensures KeyOf(a) == KeyOf(b) <==> SlotOf(a) == SlotOf(b)
  {
    hide ValidRelation;
    if KeyOf(a) == KeyOf(b) {
      var x, y := a.relation + ([0] + a.category), b.relation + ([0] + b.category);
      var p, q := a.exchange.bytes + ([0] + x), b.exchange.bytes + ([0] + y);
      Cut(a.assessor, [0] + p, b.assessor, [0] + q);
      Cut([0], p, [0], q);
      Cut(a.exchange.bytes, [0] + x, b.exchange.bytes, [0] + y);
      Cut([0], x, [0], y);
      RelationNoZero(a.relation);
      RelationNoZero(b.relation);
      CutAtZero(a.relation, a.category, b.relation, b.category);
    }
  }

  lemma Cut(a: Bytes, x: Bytes, b: Bytes, y: Bytes)
    requires |a| == |b| && a + x == b + y
    ensures a == b && x == y
  {
    assert a == (a + x)[..|a|] && b == (b + y)[..|b|];
    assert x == (a + x)[|a|..] && y == (b + y)[|b|..];
  }

  lemma RelationNoZero(r: Bytes)
    requires ValidRelation(r)
    ensures 0 !in r
  {
  }

  lemma CutAtZero(r: Bytes, c: Bytes, s: Bytes, d: Bytes)
    requires 0 !in r && 0 !in s && r + ([0] + c) == s + ([0] + d)
    ensures r == s && c == d
  {
    var x, y := r + ([0] + c), s + ([0] + d);
    assert x[|r|] == 0 && y[|s|] == 0;
    var k := if |r| < |s| then |r| else |s|;
    assert x[k] == y[k];
    Cut(r, [0] + c, s, [0] + d);
    Cut([0], c, [0], d);
  }

  // ------------------------------------------------------------------ standing

  datatype Distribution = Distribution(counts: map<Level, nat>, total: nat)
  datatype RelationStanding = RelationStanding(byCategory: map<Bytes, Distribution>, overall: Distribution)
  type Standing = map<Bytes, RelationStanding>

  const NO_COUNTS := Distribution(map[], 0)
  const NO_STANDING := RelationStanding(map[], NO_COUNTS)

  /** A cell of a standing: one relation, one category or all of them, one level or all of them. */
  datatype Cell = Cell(relation: Bytes, category: Option<Bytes>, level: Option<Level>)

  predicate Matches(q: Cell, a: Assessment) {
    && a.relation == q.relation
    && (q.category.Some? ==> a.category == q.category.value)
    && (q.level.Some? ==> a.level == q.level.value)
  }

  function CountIn(d: Distribution, level: Option<Level>): nat {
    if level.None? then d.total else if level.value in d.counts then d.counts[level.value] else 0
  }

  /** The accessors of Standing: what is absent counts nothing. */
  function Read(s: Standing, q: Cell): nat {
    var rs := if q.relation in s then s[q.relation] else NO_STANDING;
    if q.category.None? then CountIn(rs.overall, q.level)
    else CountIn(if q.category.value in rs.byCategory then rs.byCategory[q.category.value] else NO_COUNTS, q.level)
  }

  function Bumped(d: Distribution, l: Level): Distribution {
    Distribution(d.counts[l := (if l in d.counts then d.counts[l] else 0) + 1], d.total + 1)
  }

  function Added(s: Standing, a: Assessment): Standing {
    var rs := if a.relation in s then s[a.relation] else NO_STANDING;
    var d := if a.category in rs.byCategory then rs.byCategory[a.category] else NO_COUNTS;
    s[a.relation := RelationStanding(rs.byCategory[a.category := Bumped(d, a.level)], Bumped(rs.overall, a.level))]
  }

  lemma AddedReads(s: Standing, a: Assessment, q: Cell)
    ensures Read(Added(s, a), q) == Read(s, q) + if Matches(q, a) then 1 else 0
  {
  }

  /** No earlier assessment of the list has this one's key. */
  predicate First(ads: seq<Assessment>, i: nat)
    requires i < |ads|
  {
    forall j :: 0 <= j < i ==> KeyOf(ads[j]) != KeyOf(ads[i])
  }

  /** The positions below n that a cell counts: the first verdict of each key, when it matches. */
  ghost function Counted(ads: seq<Assessment>, n: nat, q: Cell): set<int>
    requires n <= |ads|
  {
    set i: int | 0 <= i < n && First(ads, i) && Matches(q, ads[i])
  }

  lemma CountedStep(ads: seq<Assessment>, n: nat, q: Cell)
    requires n < |ads|
    ensures |Counted(ads, n + 1, q)| == |Counted(ads, n, q)| + if First(ads, n) && Matches(q, ads[n]) then 1 else 0
  {
    hide Matches, First;
    var before, now := Counted(ads, n, q), Counted(ads, n + 1, q);
    if First(ads, n) && Matches(q, ads[n]) {
      assert now == before + {n as int};
    } else {
      assert now == before;
    }
  }

  lemma NoneCounted(ads: seq<Assessment>, q: Cell)
    ensures |Counted(ads, 0, q)| == 0
  {
    assert Counted(ads, 0, q) == {};
  }

  /** Standing over whatever the store returns, replays and all: every cell holds exactly the number of
      keys whose first verdict matches it; one assessment about somebody else fails the whole query. */
  method StandingOf(subject: MemberId, ads: seq<Assessment>) returns (r: Result<Standing, CovenantError>)
    ensures !Minted(subject) ==> r == Err(Invalid)
    ensures Minted(subject) ==> (r.Ok? <==> forall i :: 0 <= i < |ads| ==> ads[i].subject == subject)
    ensures Minted(subject) && r.Err? ==> r.error == StoreViolation
    ensures r.Ok? ==> forall q :: Read(r.value, q) == |Counted(ads, |ads|, q)|
  {
    hide Read, Added, Counted, KeyOf, Minted;
    if !Minted(subject) {
      return Err(Invalid);
    }
    var s: Standing := map[];
    var seen: set<Bytes> := {};
    forall q ensures Read(s, q) == |Counted(ads, 0, q)| {
      EmptyReads(q);
      NoneCounted(ads, q);
    }
    for i := 0 to |ads|
      invariant forall j :: 0 <= j < i ==> ads[j].subject == subject
      invariant forall k :: k in seen <==> exists j :: 0 <= j < i && KeyOf(ads[j]) == k
      invariant forall q :: Read(s, q) == |Counted(ads, i, q)|
    {
      var a := ads[i];
      if a.subject != subject {
        return Err(StoreViolation);
      }
      var key := KeyOf(a);
      assert First(ads, i) <==> key !in seen;
      ghost var before := s;
      if key !in seen {
        s := Added(s, a);
      }
      seen := seen + {key};
      forall q ensures Read(s, q) == |Counted(ads, i + 1, q)| {
        AddedReads(before, a, q);
        CountedStep(ads, i, q);
      }
    }
    return Ok(s);
  }

  lemma EmptyReads(q: Cell)
    ensures Read(map[], q) == 0
  {
  }

  /** What the Book has admitted: everything an Admitted value can hold but its zero value. */
  predicate Admissible(a: Assessment) {
    Minted(a.assessor) && Minted(a.subject) && ValidRelation(a.relation) && ValidLevel(a.level)
  }

  /** Among admitted verdicts a repeated key is a repeated (assessor, exchange, relation, category), so each
      slot is counted exactly once. */
  lemma FirstOfItsSlot(ads: seq<Assessment>, i: nat)
    requires i < |ads| && forall j :: 0 <= j < |ads| ==> Admissible(ads[j])
    ensures First(ads, i) <==> forall j :: 0 <= j < i ==> SlotOf(ads[j]) != SlotOf(ads[i])
  {
    hide KeyOf, SlotOf, ValidRelation, ValidLevel;
    forall j | 0 <= j < i ensures KeyOf(ads[j]) == KeyOf(ads[i]) <==> SlotOf(ads[j]) == SlotOf(ads[i]) {
      KeyInjective(ads[j], ads[i]);
    }
  }

  ghost function CellSum(ads: seq<Assessment>, q: Cell, cats: seq<Bytes>): nat {
    if cats == [] then 0
    else CellSum(ads, q, cats[..|cats| - 1]) + |Counted(ads, |ads|, q.(category := Some(cats[|cats| - 1])))|
  }

  ghost function CountedIn(ads: seq<Assessment>, q: Cell, cats: seq<Bytes>): set<int> {
    set i | i in Counted(ads, |ads|, q) && ads[i].category in cats
  }

  lemma OneCategory(ads: seq<Assessment>, q: Cell, c: Bytes, i: int)
    requires q.category.None?
    ensures i in Counted(ads, |ads|, q.(category := Some(c))) <==> i in Counted(ads, |ads|, q) && ads[i].category == c
  {
    hide First;
  }

  lemma OneMore(ads: seq<Assessment>, q: Cell, front: seq<Bytes>, c: Bytes, i: int)
    requires q.category.None? && c !in front
    ensures var here := Counted(ads, |ads|, q.(category := Some(c)));
      (i in CountedIn(ads, q, front + [c]) <==> i in CountedIn(ads, q, front) || i in here) &&
      !(i in CountedIn(ads, q, front) && i in here)
  {
    OneCategory(ads, q, c, i);
    hide Counted;
  }

  lemma {:induction false} SumOfCategories(ads: seq<Assessment>, q: Cell, cats: seq<Bytes>)
    requires q.category.None? && forall i, j :: 0 <= i < j < |cats| ==> cats[i] != cats[j]
    ensures |CountedIn(ads, q, cats)| == CellSum(ads, q, cats)
  {
    if cats == [] {
      assert CountedIn(ads, q, cats) == {};
    } else {
      hide Counted, CountedIn;
      var front, c := cats[..|cats| - 1], cats[|cats| - 1];
      SumOfCategories(ads, q, front);
      assert cats == front + [c];
      var all, before, here := CountedIn(ads, q, cats), CountedIn(ads, q, front), Counted(ads, |ads|, q.(category := Some(c)));
      forall i: int ensures (i in all <==> i in before || i in here) && !(i in before && i in here) {
        OneMore(ads, q, front, c, i);
      }
      DisjointSize(all, before, here);
    }
  }

  /** Within a relation the overall counts are the cellwise sum over the category vocabulary. */
  lemma OverallIsSum(ads: seq<Assessment>, q: Cell, cats: seq<Bytes>)
    requires q.category.None? && forall i, j :: 0 <= i < j < |cats| ==> cats[i] != cats[j]
    requires forall i :: 0 <= i < |ads| ==> ads[i].category in cats
    ensures |Counted(ads, |ads|, q)| == CellSum(ads, q, cats)
  {
    hide First, Matches;
    SumOfCategories(ads, q, cats);
    assert CountedIn(ads, q, cats) == Counted(ads, |ads|, q);
  }

  // ------------------------------------------------------------------ the Book over its store

  /** The Book's fixed surroundings on one platform. */
  datatype Env = Env(
    categories: set<Bytes>, memberIdFor: Key -> MemberId,
    signed: (Key, Assessment) -> bool, answerSigned: (Key, Answer) -> bool, id: Assessment -> Hash)

  /** The member directory and the anchors as they answer during one call; both change between calls. */
  datatype Moment = Moment(
    publicKey: MemberId -> Option<Key>,
    sealed: (Hash, MemberId, MemberId) -> bool, adjudicated: (Hash, MemberId, MemberId) -> bool)

  datatype StoreState = StoreState(
    seen: set<Bytes>, bySubject: map<MemberId, seq<Assessment>>, byId: map<Hash, Assessment>, answers: map<Hash, Answer>)

  const EMPTY := StoreState({}, map[], map[], map[])

  function About(st: StoreState, subject: MemberId): seq<Assessment> {
    if subject in st.bySubject then st.bySubject[subject] else []
  }

  /** The directory's key for a member, when it mints the member's ID. */
  function BoundKey(env: Env, now: Moment, m: MemberId): Option<Key> {
    var k := now.publicKey(m);
    if k.None? || |k.value| != KEY_SIZE || env.memberIdFor(k.value) != m then None else k
  }

  /** Every gate of Record before the store. */
  predicate Passes(env: Env, now: Moment, a: Assessment) {
    && Minted(a.assessor) && Minted(a.subject) && a.assessor != a.subject
    && a.exchange != ZERO_HASH && ValidRelation(a.relation) && ValidLevel(a.level)
    && a.category in env.categories
    && (a.level == NO_TRUST ==> a.commentHash != ZERO_HASH)
    && a.issuedAt.Some?
    && BoundKey(env, now, a.assessor).Some?
    && |a.signature| == SIGNATURE_SIZE && env.signed(BoundKey(env, now, a.assessor).value, a)
    && BoundKey(env, now, a.subject).Some?
    && (if a.relation == TRADE then now.sealed(a.exchange, a.assessor, a.subject) else now.adjudicated(a.exchange, a.assessor, a.subject))
  }

  function Appended(env: Env, st: StoreState, a: Assessment): StoreState {
    st.(seen := st.seen + {KeyOf(a)},
        bySubject := st.bySubject[a.subject := About(st, a.subject) + [a]],
        byId := st.byId[env.id(a) := a])
  }

  function Record(env: Env, now: Moment, st: StoreState, a: Assessment): Result<StoreState, CovenantError> {
    if !Passes(env, now, a) then Err(Invalid)
    else if KeyOf(a) in st.seen then Err(Duplicate)
    else Ok(Appended(env, st, a))
  }

  function RecordAnswer(env: Env, now: Moment, st: StoreState, w: Answer): Result<StoreState, CovenantError> {
    if w.assessment == ZERO_HASH || !Minted(w.answerer) || w.answerHash == ZERO_HASH || w.issuedAt.None? then Err(Invalid)
    else if w.assessment !in st.byId then Err(UnknownAssessment)
    else if w.answerer != st.byId[w.assessment].subject || BoundKey(env, now, w.answerer).None? then Err(Invalid)
    else if |w.signature| != SIGNATURE_SIZE || !env.answerSigned(BoundKey(env, now, w.answerer).value, w) then Err(Invalid)
    else if w.assessment in st.answers then Err(Duplicate)
    else Ok(st.(answers := st.answers[w.assessment := w]))
  }

  datatype Op = Assess(a: Assessment, at: Moment) | Reply(answer: Answer, at: Moment)

  /** A refused call leaves the store as it was. */
  function Do(env: Env, st: StoreState, op: Op): StoreState {
    match op
    case Assess(a, now) => (var r := Record(env, now, st, a); if r.Ok? then r.value else st)
    case Reply(w, now) => (var r := RecordAnswer(env, now, st, w); if r.Ok? then r.value else st)
  }

  function Run(env: Env, ops: seq<Op>): StoreState {
    if |ops| == 0 then EMPTY else Do(env, Run(env, ops[..|ops| - 1]), ops[|ops| - 1])
  }

  predicate Admits(env: Env, st: StoreState, op: Op) {
    op.Assess? && Record(env, op.at, st, op.a).Ok?
  }

  /** The verdicts a run admitted, in order. */
  function Admitted(env: Env, ops: seq<Op>): seq<Assessment> {
    if |ops| == 0 then []
    else
      var front, op := ops[..|ops| - 1], ops[|ops| - 1];
      Admitted(env, front) + if Admits(env, Run(env, front), op) then [op.a] else []
  }

  function OfSubject(list: seq<Assessment>, subject: MemberId): seq<Assessment> {
    if list == [] then []
    else OfSubject(list[..|list| - 1], subject) + if list[|list| - 1].subject == subject then [list[|list| - 1]] else []
  }

  /** The store holds, per subject, verdicts about that subject with pairwise different seen keys. */
  ghost predicate SubjectKept(env: Env, st: StoreState, subject: MemberId) {
    var ads := About(st, subject);
    && (forall i :: 0 <= i < |ads| ==> ads[i].subject == subject && Admissible(ads[i]) && ads[i].category in env.categories)
    && (forall i :: 0 <= i < |ads| ==> KeyOf(ads[i]) in st.seen)
    && (forall i, j :: 0 <= i < j < |ads| ==> KeyOf(ads[i]) != KeyOf(ads[j]))
  }

  lemma AppendKeepsSubject(env: Env, now: Moment, st: StoreState, a: Assessment, subject: MemberId)
    requires SubjectKept(env, st, subject) && Record(env, now, st, a).Ok?
    ensures SubjectKept(env, Record(env, now, st, a).value, subject)
    ensures About(Record(env, now, st, a).value, subject) == About(st, subject) + if a.subject == subject then [a] else []
  {
    hide KeyOf, ValidRelation, ValidLevel, Minted, BoundKey;
    var ads, next := About(st, subject), About(Record(env, now, st, a).value, subject);
    assert next == ads + if a.subject == subject then [a] else [];
    forall i, j | 0 <= i < j < |next| ensures KeyOf(next[i]) != KeyOf(next[j]) {
      if j == |ads| { assert KeyOf(next[i]) in st.seen; }
    }
  }

  /** Over every run the store lists, per subject, exactly the admitted verdicts about it in order. */
  lemma {:induction false} StoreIsHistory(env: Env, ops: seq<Op>, subject: MemberId)
    ensures SubjectKept(env, Run(env, ops), subject)
    ensures About(Run(env, ops), subject) == OfSubject(Admitted(env, ops), subject)
  {
    if |ops| > 0 {
      hide SubjectKept, About, Record, RecordAnswer;
      var front, op := ops[..|ops| - 1], ops[|ops| - 1];
      StoreIsHistory(env, front, subject);
      var st, before := Run(env, front), Admitted(env, front);
      if Admits(env, st, op) {
        AppendKeepsSubject(env, op.at, st, op.a, subject);
        assert (before + [op.a])[..|before|] == before;
      } else {
        assert before + [] == before;
        if op.Reply? { AnswerChangesNoStanding(env, op.at, st, op.answer, subject); }
      }
    }
  }

  /** An answer changes no subject's verdicts, so no cell of any standing. */
  lemma AnswerChangesNoStanding(env: Env, now: Moment, st: StoreState, w: Answer, subject: MemberId)
    ensures About(Do(env, st, Reply(w, now)), subject) == About(st, subject)
    ensures SubjectKept(env, st, subject) ==> SubjectKept(env, Do(env, st, Reply(w, now)), subject)
  {
    hide KeyOf, Admissible;
  }

  /** What the standing of a subject shows in one cell after a run. */
  ghost function Shown(env: Env, ops: seq<Op>, subject: MemberId, q: Cell): nat {
    var ads := About(Run(env, ops), subject);
    |Counted(ads, |ads|, q)|
  }

  /** Each admitted verdict adds one to the matching cells of its subject and touches nobody else; a
      refused one, and any answer, changes nothing. */
  lemma EachCallCountsOnce(env: Env, ops: seq<Op>, op: Op, subject: MemberId, q: Cell)
    ensures Shown(env, ops + [op], subject, q) == Shown(env, ops, subject, q) +
      if Admits(env, Run(env, ops), op) && op.a.subject == subject && Matches(q, op.a) then 1 else 0
  {
    hide SubjectKept, About, Record, RecordAnswer, Counted, Matches;
    assert (ops + [op])[..|ops|] == ops;
    var st := Run(env, ops);
    StoreIsHistory(env, ops, subject);
    StoreIsHistory(env, ops + [op], subject);
    match op
    case Assess(a, now) =>
      if Record(env, now, st, a).Ok? {
        AppendKeepsSubject(env, now, st, a, subject);
        if a.subject == subject {
          var ads := About(st, subject);
          LastIsFirst(env, Run(env, ops + [op]), subject);
          CountedStep(ads + [a], |ads|, q);
          CountedOfPrefix(ads, a, q);
        } else {
          assert About(st, subject) + [] == About(st, subject);
        }
      }
    case Reply(w, now) =>
      AnswerChangesNoStanding(env, now, st, w, subject);
  }

  lemma LastIsFirst(env: Env, st: StoreState, subject: MemberId)
    requires SubjectKept(env, st, subject) && |About(st, subject)| > 0
    ensures First(About(st, subject), |About(st, subject)| - 1)
  {
    hide KeyOf, Admissible, About;
  }

  lemma CountedOfPrefix(ads: seq<Assessment>, a: Assessment, q: Cell)
    ensures Counted(ads + [a], |ads|, q) == Counted(ads, |ads|, q)
  {
    hide Matches, KeyOf;
    forall i: int ensures i in Counted(ads + [a], |ads|, q) <==> i in Counted(ads, |ads|, q) {
      if 0 <= i < |ads| {
        assert forall j :: 0 <= j <= i ==> (ads + [a])[j] == ads[j];
        assert First(ads + [a], i) <==> First(ads, i);
      }
    }
  }

  // ------------------------------------------------------------------ who may say what

  /** 64 lowercase hex digits. */
  predicate HexId(m: MemberId) {
    |m| == 64 && forall c :: c in m ==> c in {0x30, 0x31, 0x32, 0x33, 0x34, 0x35, 0x36, 0x37, 0x38, 0x39, 0x61, 0x62, 0x63, 0x64, 0x65, 0x66}
  }

  /** The directory's key for the member, of the pinned length, mints the member's ID on this platform. */
  predicate Known(env: Env, now: Moment, m: MemberId) {
    now.publicKey(m).Some? && |now.publicKey(m).value| == KEY_SIZE && env.memberIdFor(now.publicKey(m).value) == m
  }

  /** Who may render which verdict at a moment: a known member about another known member, in the vocabulary,
      justified when it asserts harm, signed by the assessor's own key, and anchored as its relation calls for. */
  predicate MayAssess(env: Env, now: Moment, a: Assessment) {
    && HexId(a.assessor) && HexId(a.subject) && a.assessor != a.subject && a.exchange != ZERO_HASH
    && a.relation in {TRADE, CONDUCT, VERDICT} && a.level in {-1, 0, 1, 2, 3, 4} && a.category in env.categories
    && (a.level == -1 ==> a.commentHash != ZERO_HASH) && a.issuedAt.Some?
    && Known(env, now, a.assessor) && Known(env, now, a.subject)
    && |a.signature| == SIGNATURE_SIZE && env.signed(now.publicKey(a.assessor).value, a)
    && (a.relation == TRADE ==> now.sealed(a.exchange, a.assessor, a.subject))
    && (a.relation != TRADE ==> now.adjudicated(a.exchange, a.assessor, a.subject))
  }

  lemma MintedIsHex(m: MemberId)
    ensures Minted(m) <==> HexId(m)
  {
    if Minted(m) {
      forall c | c in m ensures c in {0x30, 0x31, 0x32, 0x33, 0x34, 0x35, 0x36, 0x37, 0x38, 0x39, 0x61, 0x62, 0x63, 0x64, 0x65, 0x66} {
        var i :| 0 <= i < |m| && m[i] == c;
        assert HexDigit(m[i]);
      }
    }
    if HexId(m) {
      forall i | 0 <= i < |m| ensures HexDigit(m[i]) {
        assert m[i] in m;
      }
    }
  }

  lemma PassesMeans(env: Env, now: Moment, a: Assessment)
    ensures Passes(env, now, a) <==> MayAssess(env, now, a)
  {
    hide Minted, HexId;
    MintedIsHex(a.assessor);
    MintedIsHex(a.subject);
  }

  lemma {:induction false} SeenIsHistory(env: Env, ops: seq<Op>, key: Bytes)
    ensures key in Run(env, ops).seen <==> exists b :: b in Admitted(env, ops) && KeyOf(b) == key
    ensures forall b :: b in Admitted(env, ops) ==> Admissible(b)
  {
    if |ops| > 0 {
      hide KeyOf, Passes, RecordAnswer, Minted, ValidRelation, ValidLevel;
      var front, op := ops[..|ops| - 1], ops[|ops| - 1];
      SeenIsHistory(env, front, key);
      var st, before := Run(env, front), Admitted(env, front);
      if Admits(env, st, op) {
        AdmittedIsAdmissible(env, op.at, op.a);
        assert op.a in before + [op.a];
        assert forall b :: b in before ==> b in before + [op.a];
      } else {
        assert before + [] == before;
        if op.Reply? { AnswerKeepsSeen(env, op.at, st, op.answer); }
      }
    }
  }

  lemma AdmittedIsAdmissible(env: Env, now: Moment, a: Assessment)
    requires Passes(env, now, a)
    ensures Admissible(a)
  {
    hide Minted, ValidRelation, ValidLevel, BoundKey;
  }

  lemma AnswerKeepsSeen(env: Env, now: Moment, st: StoreState, w: Answer)
    ensures RecordAnswer(env, now, st, w).Ok? ==> RecordAnswer(env, now, st, w).value.seen == st.seen && RecordAnswer(env, now, st, w).value.byId == st.byId
  {
    hide Minted, BoundKey;
  }

  /** Exactly which verdict the Book admits after a run: one its assessor may render now, in a slot of assessor,
      exchange, relation and category that no admitted verdict of the run has taken. */
  lemma VerdictAdmittedExactly(env: Env, ops: seq<Op>, a: Assessment, now: Moment)
    ensures Record(env, now, Run(env, ops), a).Ok? <==>
      MayAssess(env, now, a) && forall b :: b in Admitted(env, ops) ==> SlotOf(b) != SlotOf(a)
  {
    PassesMeans(env, now, a);
    SeenIsHistory(env, ops, KeyOf(a));
    hide Passes, MayAssess, KeyOf, Run, Admitted, SlotOf, ValidLevel;
    if Passes(env, now, a) {
      AdmittedIsAdmissible(env, now, a);
      forall b | b in Admitted(env, ops) ensures KeyOf(b) == KeyOf(a) <==> SlotOf(b) == SlotOf(a) {
        KeyInjective(b, a);
      }
    }
  }

  /** Behind every verdict of a run stands a call at which its assessor could render it. */
  lemma {:induction false} EveryVerdictAuthored(env: Env, ops: seq<Op>, a: Assessment)
    requires a in Admitted(env, ops)
    ensures exists k :: 0 <= k < |ops| && ops[k].Assess? && ops[k].a == a && MayAssess(env, ops[k].at, a)
  {
    hide Passes, MayAssess, KeyOf;
    var n := |ops| - 1;
    var front := ops[..n];
    if a in Admitted(env, front) {
      EveryVerdictAuthored(env, front, a);
      var k :| 0 <= k < |front| && front[k].Assess? && front[k].a == a && MayAssess(env, front[k].at, a);
      assert ops[k] == front[k];
    } else {
      PassesMeans(env, ops[n].at, a);
      assert ops[n].Assess? && ops[n].a == a && MayAssess(env, ops[n].at, a);
    }
  }

  /** The latest admitted verdict with this ID. */
  function Latest(env: Env, list: seq<Assessment>, id: Hash): Option<Assessment> {
    if list == [] then None
    else if env.id(list[|list| - 1]) == id then Some(list[|list| - 1]) else Latest(env, list[..|list| - 1], id)
  }

  lemma {:induction false} ByIdIsHistory(env: Env, ops: seq<Op>, id: Hash)
    ensures var st, last := Run(env, ops), Latest(env, Admitted(env, ops), id);
      (id in st.byId <==> last.Some?) && (last.Some? ==> st.byId[id] == last.value)
  {
    if |ops| > 0 {
      hide KeyOf, Passes, RecordAnswer;
      var front, op := ops[..|ops| - 1], ops[|ops| - 1];
      ByIdIsHistory(env, front, id);
      var st, before := Run(env, front), Admitted(env, front);
      if Admits(env, st, op) {
        assert (before + [op.a])[..|before|] == before;
      } else {
        assert before + [] == before;
        if op.Reply? { AnswerKeepsSeen(env, op.at, st, op.answer); }
      }
    }
  }

  /** Some call of the run got an answer to this assessment admitted. */
  ghost predicate Answered(env: Env, ops: seq<Op>, id: Hash) {
    exists k :: 0 <= k < |ops| && AnswersAt(env, ops, k, id)
  }

  ghost predicate AnswersAt(env: Env, ops: seq<Op>, k: nat, id: Hash)
    requires k < |ops|
  {
    ops[k].Reply? && ops[k].answer.assessment == id && RecordAnswer(env, ops[k].at, Run(env, ops[..k]), ops[k].answer).Ok?
  }

  lemma {:induction false} AnswersAreHistory(env: Env, ops: seq<Op>, id: Hash)
    ensures id in Run(env, ops).answers <==> Answered(env, ops, id)
  {
    if |ops| > 0 {
      hide KeyOf, Passes, Minted, BoundKey, AnswersAt;
      var n := |ops| - 1;
      var front := ops[..n];
      AnswersAreHistory(env, front, id);
      forall k | 0 <= k < n ensures AnswersAt(env, ops, k, id) <==> AnswersAt(env, front, k, id) {
        SameAnswer(env, ops, k, id);
      }
      LastAnswer(env, ops, id);
      if Answered(env, front, id) {
        var k :| 0 <= k < n && AnswersAt(env, front, k, id);
        assert AnswersAt(env, ops, k, id);
      }
      if Answered(env, ops, id) {
        var k :| 0 <= k < |ops| && AnswersAt(env, ops, k, id);
        if k < n { assert AnswersAt(env, front, k, id); }
      }
      assert id in Run(env, ops).answers <==> id in Run(env, front).answers || AnswersAt(env, ops, n, id);
    }
  }

  lemma SameAnswer(env: Env, ops: seq<Op>, k: nat, id: Hash)
    requires k < |ops| - 1
    ensures AnswersAt(env, ops, k, id) <==> AnswersAt(env, ops[..|ops| - 1], k, id)
  {
    hide Run, RecordAnswer;
    assert ops[..|ops| - 1][..k] == ops[..k];
  }

  lemma LastAnswer(env: Env, ops: seq<Op>, id: Hash)
    requires |ops| > 0
    ensures var n := |ops| - 1;
      id in Run(env, ops).answers <==> id in Run(env, ops[..n]).answers || AnswersAt(env, ops, n, id)
  {
    hide KeyOf, Passes, Minted, BoundKey;
  }

  /** Exactly which answer the Book admits after a run: one by a known member who is the subject of the latest
      admitted verdict it names, signed by that member's own key, when no answer to it was admitted before. */
  lemma AnswerAdmittedExactly(env: Env, ops: seq<Op>, w: Answer, now: Moment)
    ensures RecordAnswer(env, now, Run(env, ops), w).Ok? <==>
      var named := Latest(env, Admitted(env, ops), w.assessment);
      && w.assessment != ZERO_HASH && w.answerHash != ZERO_HASH && w.issuedAt.Some? && HexId(w.answerer)
      && named.Some? && named.value.subject == w.answerer
      && Known(env, now, w.answerer) && |w.signature| == SIGNATURE_SIZE && env.answerSigned(now.publicKey(w.answerer).value, w)
      && !Answered(env, ops, w.assessment)
  {
    MintedIsHex(w.answerer);
    ByIdIsHistory(env, ops, w.assessment);
    AnswersAreHistory(env, ops, w.assessment);
    hide Minted, HexId, Run, Admitted, Latest, Answered;
  }

  // ------------------------------------------------------------------ the objects

  class MemStore {
    var seen: set<Bytes>
    var bySubject: map<MemberId, seq<Assessment>>
    var byId: map<Hash, Assessment>
    var answers: map<Hash, Answer>

    function State(): StoreState reads this {
      StoreState(seen, bySubject, byId, answers)
    }

    constructor ()
      ensures State() == EMPTY
    {
      seen, bySubject, byId, answers := {}, map[], map[], map[];
    }

    method Append(env: Env, a: Assessment) returns (r: Option<CovenantError>)
      modifies this
      ensures a.assessor == [] ==> r == Some(Invalid)
      ensures a.assessor != [] ==> (r.None? <==> KeyOf(a) !in old(seen)) && (r.Some? ==> r.value == Duplicate)
      ensures State() == if r.None? then Appended(env, old(State()), a) else old(State())
    {
      if a.assessor == [] {
        return Some(Invalid);
      }
      var key := KeyOf(a);
      if key in seen {
        return Some(Duplicate);
      }
      seen := seen + {key};
      bySubject := bySubject[a.subject := (if a.subject in bySubject then bySubject[a.subject] else []) + [a]];
      byId := byId[env.id(a) := a];
      return None;
    }

    method AppendAnswer(w: Answer) returns (r: Option<CovenantError>)
      modifies this`answers
      ensures w.answerer == [] ==> r == Some(Invalid)
      ensures w.answerer != [] ==> (r.None? <==> w.assessment !in old(answers)) && (r.Some? ==> r.value == Duplicate)
      ensures answers == if r.None? then old(answers)[w.assessment := w] else old(answers)
    {
      if w.answerer == [] {
        return Some(Invalid);
      }
      if w.assessment in answers {
        return Some(Duplicate);
      }
      answers := answers[w.assessment := w];
      return None;
    }
  }

  class Book {
    const env: Env
    const store: MemStore

    constructor (env: Env, store: MemStore)
      ensures this.env == env && this.store == store
    {
      this.env, this.store := env, store;
    }

    /** The gates in the source's order, then the store. */
    method Admit(a: Assessment, now: Moment) returns (r: Option<CovenantError>)
      modifies store
      ensures store.State() == Do(env, old(store.State()), Assess(a, now))
      ensures r.None? <==> Admits(env, old(store.State()), Assess(a, now))
      ensures r.Some? ==> Record(env, now, old(store.State()), a) == Err(r.value)
      ensures r.None? ==> MayAssess(env, now, a)
    {
      PassesMeans(env, now, a);
      hide KeyOf, HexDigit;
      if !Minted(a.assessor) || !Minted(a.subject) || a.assessor == a.subject || a.exchange == ZERO_HASH {
        return Some(Invalid);
      }
      if !ValidRelation(a.relation) || !ValidLevel(a.level) || a.category !in env.categories {
        return Some(Invalid);
      }
      if (a.level == NO_TRUST && a.commentHash == ZERO_HASH) || a.issuedAt.None? {
        return Some(Invalid);
      }
      var pub := BoundKey(env, now, a.assessor);
      if pub.None? || |a.signature| != SIGNATURE_SIZE || !env.signed(pub.value, a) || BoundKey(env, now, a.subject).None? {
        return Some(Invalid);
      }
      var anchored := if a.relation == TRADE then now.sealed(a.exchange, a.assessor, a.subject) else now.adjudicated(a.exchange, a.assessor, a.subject);
      if !anchored {
        return Some(Invalid);
      }
      r := store.Append(env, a);
    }

    method Answer(w: Answer, now: Moment) returns (r: Option<CovenantError>)
      modifies store
      ensures store.State() == Do(env, old(store.State()), Reply(w, now))
      ensures r.None? <==> RecordAnswer(env, now, old(store.State()), w).Ok?
      ensures r.Some? ==> RecordAnswer(env, now, old(store.State()), w) == Err(r.value)
    {
      hide HexDigit;
      if w.assessment == ZERO_HASH || !Minted(w.answerer) || w.answerHash == ZERO_HASH || w.issuedAt.None? {
        return Some(Invalid);
      }
      if w.assessment !in store.byId {
        return Some(UnknownAssessment);
      }
      if w.answerer != store.byId[w.assessment].subject {
        return Some(Invalid);
      }
      var pub := BoundKey(env, now, w.answerer);
      if pub.None? || |w.signature| != SIGNATURE_SIZE || !env.answerSigned(pub.value, w) {
        return Some(Invalid);
      }
      r := store.AppendAnswer(w);
    }

    /** Standing read through the Book's own store: every cell is the exact count, and over a store that
        a run of this Book left, no query for a minted member fails. */
    method GetStanding(subject: MemberId) returns (r: Result<Standing, CovenantError>)
      ensures r.Ok? ==> Minted(subject)
      ensures SubjectKept(env, store.State(), subject) && Minted(subject) ==> r.Ok?
      ensures r.Ok? ==> forall q :: Read(r.value, q) == |Counted(About(store.State(), subject), |About(store.State(), subject)|, q)|
    {
      hide KeyOf, HexDigit, Read, Counted;
      r := StandingOf(subject, About(store.State(), subject));
    }
  }
}
