/** Canonical bytes of the dispute artifacts: opening.go, ruling.go and withdrawal.go of
    internal/dispute over the canon layout. Lengths and counts are uvarints, byte strings carry their
    length, integers and times are eight bytes in big-endian order, a bool is one byte. */
module DisputeBytes {
  import opened Common
  import opened Dispute

  // ------------------------------------------------------------------ the layout of single values

  /** binary.PutUvarint */
  function Uvarint(n: nat): Bytes {
    if n < 128 then [n as uint8] else [(128 + n % 128) as uint8] + Uvarint(n / 128)
  }

  function Fixed(n: nat, k: nat): (r: Bytes)
    ensures |r| == k
  {
    if k == 0 then [] else Fixed(n / 256, k - 1) + [(n % 256) as uint8]
  }

  function U64(n: nat): Bytes { Fixed(n, 8) }

  /** A signed 64-bit value as its two's complement. */
  function I64(x: int): Bytes {
    U64(if 0 <= x then x else if x + TWO_64 >= 0 then x + TWO_64 else 0)
  }

  function Str(p: Bytes): Bytes { Uvarint(|p|) + p }

  function Bool(b: bool): Bytes { if b then [1] else [0] }

  // ------------------------------------------------------------------ reading values back

  datatype Taken<+T> = Taken(value: T, rest: Bytes)

  function TakeUvarint(b: Bytes): Option<Taken<nat>> {
    if b == [] then None
    else if b[0] < 128 then Some(Taken(b[0] as nat, b[1..]))
    else
      var r := TakeUvarint(b[1..]);
      if r.None? then None else Some(Taken(b[0] as nat - 128 + 128 * r.value.value, r.value.rest))
  }

  function TakeBytes(b: Bytes, n: nat): Option<Taken<Bytes>> {
    if n > |b| then None else Some(Taken(b[..n], b[n..]))
  }

  function TakeStr(b: Bytes): Option<Taken<Bytes>> {
    var n := TakeUvarint(b);
    if n.None? then None else TakeBytes(n.value.rest, n.value.value)
  }

  function Value(b: Bytes): nat {
    if b == [] then 0 else 256 * Value(b[..|b| - 1]) + b[|b| - 1] as nat
  }

  function TakeU64(b: Bytes): Option<Taken<nat>> {
    if |b| < 8 then None else Some(Taken(Value(b[..8]), b[8..]))
  }

  function TakeI64(b: Bytes): Option<Taken<int>> {
    var n := TakeU64(b);
    if n.None? then None
    else Some(Taken(if n.value.value < TWO_63 then n.value.value else n.value.value - TWO_64, n.value.rest))
  }

  function TakeBool(b: Bytes): Option<Taken<bool>> {
    if b == [] then None else Some(Taken(b[0] != 0, b[1..]))
  }

  lemma {:induction false} UvarintBack(n: nat, rest: Bytes)
    ensures TakeUvarint(Uvarint(n) + rest) == Some(Taken(n, rest))
  {
    var b := Uvarint(n) + rest;
    if n < 128 {
      assert b[1..] == rest;
    } else {
      UvarintBack(n / 128, rest);
      assert b[1..] == Uvarint(n / 128) + rest;
    }
  }

  lemma StrBack(p: Bytes, rest: Bytes)
    ensures TakeStr(Str(p) + rest) == Some(Taken(p, rest))
  {
    hide Uvarint, TakeUvarint;
    assert Str(p) + rest == Uvarint(|p|) + (p + rest);
    UvarintBack(|p|, p + rest);
    assert (p + rest)[..|p|] == p && (p + rest)[|p|..] == rest;
  }

  function Pow256(k: nat): nat {
    if k == 0 then 1 else 256 * Pow256(k - 1)
  }

  lemma {:induction false} FixedBack(n: nat, k: nat)
    requires n < Pow256(k)
    ensures Value(Fixed(n, k)) == n
  {
    if k > 0 {
      FixedBack(n / 256, k - 1);
      var b := Fixed(n, k);
      assert b[..|b| - 1] == Fixed(n / 256, k - 1);
    }
  }

  lemma EightBytes()
    ensures Pow256(8) == TWO_64
  {
    assert Pow256(4) == 0x1_0000_0000;
  }

  lemma U64Back(n: nat, rest: Bytes)
    requires n < TWO_64
    ensures TakeU64(U64(n) + rest) == Some(Taken(n, rest))
  {
    hide Fixed, Value;
    EightBytes();
    FixedBack(n, 8);
    var b := U64(n) + rest;
    assert b[..8] == U64(n) && b[8..] == rest;
  }

  /** The widths of the source's types. */
  predicate Fits64(n: nat) { n < TWO_64 }
  predicate FitsByte(n: nat) { n < 0x100 }
  predicate FitsTime(x: int) { 0 <= x + TWO_63 && x < TWO_63 }

  lemma I64Back(x: int, rest: Bytes)
    requires FitsTime(x)
    ensures TakeI64(I64(x) + rest) == Some(Taken(x, rest))
  {
    hide U64, TakeU64;
    U64Back(if 0 <= x then x else x + TWO_64, rest);
  }

  lemma BoolBack(x: bool, rest: Bytes)
    ensures TakeBool(Bool(x) + rest) == Some(Taken(x, rest))
  {
    assert (Bool(x) + rest)[1..] == rest;
  }

  function TakeHash(b: Bytes): Option<Taken<Hash>> {
    var p := TakeStr(b);
    if p.None? || |p.value.value| != DIGEST_SIZE then None else Some(Taken(Hash(p.value.value), p.value.rest))
  }

  lemma HashBack(h: Hash, rest: Bytes)
    ensures TakeHash(Str(h.bytes) + rest) == Some(Taken(h, rest))
  {
    hide Str, TakeStr;
    StrBack(h.bytes, rest);
  }

  // ------------------------------------------------------------------ domain tags

  /** The bytes of a string of single-byte characters, as the tags are. */
  function Ascii(s: string): (b: Bytes)
    ensures |b| == |s|
  {
    if s == "" then [] else Ascii(s[..|s| - 1]) + [(s[|s| - 1] as int % 256) as uint8]
  }

  function OpeningTag(): Bytes { Ascii("cloudy/dispute/opening/v0") }
  function RulingTag(): Bytes { Ascii("cloudy/dispute/ruling/v0") }
  function WithdrawalTag(): Bytes { Ascii("cloudy/dispute/withdrawal/v0") }
  function IdTag(): Bytes { Ascii("cloudy/dispute/id/v0") }

  // ------------------------------------------------------------------ remedies

  function EscalationBytes(e: Option<Escalation>): Bytes {
    if e.None? then Bool(false) else Bool(true) + (U64(e.value.action) + U64(e.value.units))
  }

  function RefundBytes(f: Option<nat>): Bytes {
    if f.None? then Bool(false) else Bool(true) + U64(f.value)
  }

  function RemedyBytes(m: Remedy): Bytes {
    EscalationBytes(m.escalation) + (U64(m.harm) + RefundBytes(m.refund))
  }

  predicate RemedyTyped(m: Remedy) {
    && (m.escalation.Some? ==> FitsByte(m.escalation.value.action) && Fits64(m.escalation.value.units))
    && FitsByte(m.harm)
    && (m.refund.Some? ==> Fits64(m.refund.value))
  }

  function TakeEscalation(b: Bytes): Option<Taken<Option<Escalation>>> {
    var p := TakeBool(b);
    if p.None? then None
    else if !p.value.value then Some(Taken(None, p.value.rest))
    else
      var a := TakeU64(p.value.rest);
      if a.None? then None
      else
        var u := TakeU64(a.value.rest);
        if u.None? then None else Some(Taken(Some(Escalation(a.value.value, u.value.value)), u.value.rest))
  }

  function TakeRefund(b: Bytes): Option<Taken<Option<nat>>> {
    var p := TakeBool(b);
    if p.None? then None
    else if !p.value.value then Some(Taken(None, p.value.rest))
    else
      var u := TakeU64(p.value.rest);
      if u.None? then None else Some(Taken(Some(u.value.value), u.value.rest))
  }

  function TakeRemedy(b: Bytes): Option<Taken<Remedy>> {
    var e := TakeEscalation(b);
    if e.None? then None
    else
      var h := TakeU64(e.value.rest);
      if h.None? then None
      else
        var f := TakeRefund(h.value.rest);
        if f.None? then None else Some(Taken(Remedy(e.value.value, h.value.value, f.value.value), f.value.rest))
  }

  lemma Assoc(a: Bytes, b: Bytes, c: Bytes)
    ensures (a + b) + c == a + (b + c)
  {
  }

  lemma EscalationBack(e: Option<Escalation>, rest: Bytes)
    requires e.Some? ==> FitsByte(e.value.action) && Fits64(e.value.units)
    ensures TakeEscalation(EscalationBytes(e) + rest) == Some(Taken(e, rest))
  {
    hide U64, TakeU64, Bool, TakeBool;
    if e.None? {
      BoolBack(false, rest);
    } else {
      var a, u := U64(e.value.action), U64(e.value.units);
      Assoc(Bool(true), a + u, rest);
      Assoc(a, u, rest);
      BoolBack(true, a + (u + rest));
      U64Back(e.value.action, u + rest);
      U64Back(e.value.units, rest);
    }
  }

  lemma RefundBack(f: Option<nat>, rest: Bytes)
    requires f.Some? ==> Fits64(f.value)
    ensures TakeRefund(RefundBytes(f) + rest) == Some(Taken(f, rest))
  {
    hide U64, TakeU64, Bool, TakeBool;
    if f.None? {
      BoolBack(false, rest);
    } else {
      Assoc(Bool(true), U64(f.value), rest);
      BoolBack(true, U64(f.value) + rest);
      U64Back(f.value, rest);
    }
  }

  lemma RemedyBack(m: Remedy, rest: Bytes)
    requires RemedyTyped(m)
    ensures TakeRemedy(RemedyBytes(m) + rest) == Some(Taken(m, rest))
  {
    hide U64, TakeU64, EscalationBytes, TakeEscalation, RefundBytes, TakeRefund;
    var e, h, f := EscalationBytes(m.escalation), U64(m.harm), RefundBytes(m.refund);
    Assoc(e, h + f, rest);
    Assoc(h, f, rest);
    EscalationBack(m.escalation, h + (f + rest));
    U64Back(m.harm, f + rest);
    RefundBack(m.refund, rest);
  }

  // ------------------------------------------------------------------ signed payloads

  function RulingBody(r: Ruling): Bytes {
    Str(r.platform) + (Str(r.dispute.bytes) + (Str(r.exchange.bytes) + (U64(r.mode) + (U64(r.finding) +
    (RemedyBytes(r.remedy) + (Str(r.rationaleHash.bytes) + I64(r.ruledAt)))))))
  }

  function RulingBytes(r: Ruling): Bytes { Str(RulingTag()) + RulingBody(r) }

  predicate RulingTyped(r: Ruling) {
    FitsByte(r.mode) && FitsByte(r.finding) && RemedyTyped(r.remedy) && FitsTime(r.ruledAt)
  }

  function TakeRuling(b: Bytes, sigs: seq<Signature>): Option<Ruling> {
    var p := TakeStr(b);
    if p.None? then None else
    var d := TakeHash(p.value.rest);
    if d.None? then None else
    var x := TakeHash(d.value.rest);
    if x.None? then None else
    var m := TakeU64(x.value.rest);
    if m.None? then None else
    var f := TakeU64(m.value.rest);
    if f.None? then None else
    var y := TakeRemedy(f.value.rest);
    if y.None? then None else
    var h := TakeHash(y.value.rest);
    if h.None? then None else
    var t := TakeI64(h.value.rest);
    if t.None? then None else
    Some(Ruling(p.value.value, d.value.value, x.value.value, m.value.value, f.value.value, y.value.value,
                h.value.value, t.value.value, sigs))
  }

  lemma RulingBack(r: Ruling)
    requires RulingTyped(r)
    ensures TakeRuling(RulingBody(r), r.sigs) == Some(r)
  {
    hide Str, TakeStr, TakeHash, U64, TakeU64, I64, TakeI64, RemedyBytes, TakeRemedy, RemedyTyped;
    var t8 := I64(r.ruledAt);
    assert t8 + [] == t8;
    I64Back(r.ruledAt, []);
    HashBack(r.rationaleHash, t8);
    var t7 := Str(r.rationaleHash.bytes) + t8;
    RemedyBack(r.remedy, t7);
    var t6 := RemedyBytes(r.remedy) + t7;
    U64Back(r.finding, t6);
    var t5 := U64(r.finding) + t6;
    U64Back(r.mode, t5);
    var t4 := U64(r.mode) + t5;
    HashBack(r.exchange, t4);
    var t3 := Str(r.exchange.bytes) + t4;
    HashBack(r.dispute, t3);
    StrBack(r.platform, Str(r.dispute.bytes) + t3);
  }

  function OpeningBody(o: Opening): Bytes {
    Str(o.platform) + (Str(o.complainant) + (Str(o.respondent) + (Str(o.exchange.bytes) +
    (Str(o.reasonHash.bytes) + (Str(o.nonce.bytes) + I64(o.openedAt))))))
  }

  function OpeningBytes(o: Opening): Bytes { Str(OpeningTag()) + OpeningBody(o) }

  function TakeOpening(b: Bytes, sig: Signature): Option<Opening> {
    var p := TakeStr(b);
    if p.None? then None else
    var c := TakeStr(p.value.rest);
    if c.None? then None else
    var r := TakeStr(c.value.rest);
    if r.None? then None else
    var x := TakeHash(r.value.rest);
    if x.None? then None else
    var y := TakeHash(x.value.rest);
    if y.None? then None else
    var n := TakeHash(y.value.rest);
    if n.None? then None else
    var t := TakeI64(n.value.rest);
    if t.None? then None else
    Some(Opening(p.value.value, c.value.value, r.value.value, x.value.value, y.value.value, n.value.value, t.value.value, sig))
  }

  lemma OpeningBack(o: Opening)
    requires FitsTime(o.openedAt)
    ensures TakeOpening(OpeningBody(o), o.signature) == Some(o)
  {
    hide Str, TakeStr, TakeHash, I64, TakeI64;
    var t6 := I64(o.openedAt);
    assert t6 + [] == t6;
    I64Back(o.openedAt, []);
    HashBack(o.nonce, t6);
    var t5 := Str(o.nonce.bytes) + t6;
    HashBack(o.reasonHash, t5);
    var t4 := Str(o.reasonHash.bytes) + t5;
    HashBack(o.exchange, t4);
    var t3 := Str(o.exchange.bytes) + t4;
    StrBack(o.respondent, t3);
    var t2 := Str(o.respondent) + t3;
    StrBack(o.complainant, t2);
    StrBack(o.platform, Str(o.complainant) + t2);
  }

  function WithdrawalBody(w: Withdrawal): Bytes {
    Str(w.platform) + (Str(w.dispute.bytes) + I64(w.withdrawnAt))
  }

  function WithdrawalBytes(w: Withdrawal): Bytes { Str(WithdrawalTag()) + WithdrawalBody(w) }

  function TakeWithdrawal(b: Bytes, sig: Signature): Option<Withdrawal> {
    var p := TakeStr(b);
    if p.None? then None else
    var d := TakeHash(p.value.rest);
    if d.None? then None else
    var t := TakeI64(d.value.rest);
    if t.None? then None else Some(Withdrawal(p.value.value, d.value.value, t.value.value, sig))
  }

  lemma WithdrawalBack(w: Withdrawal)
    requires FitsTime(w.withdrawnAt)
    ensures TakeWithdrawal(WithdrawalBody(w), w.signature) == Some(w)
  {
    hide Str, TakeStr, TakeHash, I64, TakeI64;
    var t2 := I64(w.withdrawnAt);
    assert t2 + [] == t2;
    I64Back(w.withdrawnAt, []);
    HashBack(w.dispute, t2);
    StrBack(w.platform, Str(w.dispute.bytes) + t2);
  }

  /** The tags of the three artifacts are pairwise different. */
  lemma TagsDiffer()
    ensures OpeningTag() != RulingTag() && RulingTag() != WithdrawalTag()
    ensures OpeningTag() != WithdrawalTag()
  {
    assert |OpeningTag()| == 25 && |RulingTag()| == 24 && |WithdrawalTag()| == 28;
  }

  /** Two rulings sign the same bytes exactly when they agree on every field but the signatures,
      optional parts included. */
  lemma RulingBytesDecodable(a: Ruling, b: Ruling)
    requires RulingTyped(a) && RulingTyped(b)
    ensures RulingBytes(a) == RulingBytes(b) <==> a.(sigs := []) == b.(sigs := [])
  {
    hide RulingBody, TakeRuling, Str, TakeStr, RemedyTyped, RulingTag;
    StrBack(RulingTag(), RulingBody(a));
    StrBack(RulingTag(), RulingBody(b));
    var x, y := a.(sigs := []), b.(sigs := []);
    SameBody(a, x);
    SameBody(b, y);
    RulingBack(x);
    RulingBack(y);
  }

  lemma SameBody(a: Ruling, b: Ruling)
    requires b == a.(sigs := b.sigs)
    ensures RulingBody(a) == RulingBody(b)
  {
  }

  // ------------------------------------------------------------------ leaf-ID preimages

  function SigsBytes(sigs: seq<Signature>): Bytes {
    if sigs == [] then [] else SigsBytes(sigs[..|sigs| - 1]) + Str(sigs[|sigs| - 1])
  }

  function TakeStrs(b: Bytes, n: nat): Option<Taken<seq<Bytes>>> {
    if n == 0 then Some(Taken([], b))
    else
      var front := TakeStrs(b, n - 1);
      if front.None? then None
      else
        var p := TakeStr(front.value.rest);
        if p.None? then None else Some(Taken(front.value.value + [p.value.value], p.value.rest))
  }

  lemma {:induction false} SigsBack(sigs: seq<Signature>, rest: Bytes)
    ensures TakeStrs(SigsBytes(sigs) + rest, |sigs|) == Some(Taken(sigs, rest))
  {
    hide Str, TakeStr;
    if sigs == [] {
      assert SigsBytes(sigs) + rest == rest;
    } else {
      var front, s := sigs[..|sigs| - 1], sigs[|sigs| - 1];
      Assoc(SigsBytes(front), Str(s), rest);
      SigsBack(front, Str(s) + rest);
      StrBack(s, rest);
      assert sigs == front + [s];
    }
  }

  /** What sha256 is taken over to give an artifact its leaf ID. */
  function Preimage(a: Artifact): Bytes {
    match a
    case Opened(o) => Str(IdTag()) + (Str(OpeningBytes(o)) + Str(o.signature))
    case Ruled(r) => Str(IdTag()) + (Str(RulingBytes(r)) + (Uvarint(|r.sigs|) + SigsBytes(r.sigs)))
    case Withdrew(w) => Str(IdTag()) + (Str(WithdrawalBytes(w)) + Str(w.signature))
  }

  predicate ArtifactTyped(a: Artifact) {
    match a
    case Opened(o) => FitsTime(o.openedAt)
    case Ruled(r) => RulingTyped(r)
    case Withdrew(w) => FitsTime(w.withdrawnAt)
  }

  /** The payload of a preimage, opened at its tag, and what follows it. */
  datatype Payload = Payload(tag: Bytes, body: Bytes, rest: Bytes)

  function TakePayload(b: Bytes): Option<Payload> {
    var id := TakeStr(b);
    if id.None? then None else
    var payload := TakeStr(id.value.rest);
    if payload.None? then None else
    var tag := TakeStr(payload.value.value);
    if tag.None? then None else Some(Payload(tag.value.value, tag.value.rest, payload.value.rest))
  }

  function TakeRuled(body: Bytes, rest: Bytes): Option<Artifact> {
    var n := TakeUvarint(rest);
    if n.None? then None else
    var sigs := TakeStrs(n.value.rest, n.value.value);
    if sigs.None? then None else
    var r := TakeRuling(body, sigs.value.value);
    if r.None? then None else Some(Ruled(r.value))
  }

  function TakeSigned(tag: Bytes, body: Bytes, rest: Bytes): Option<Artifact> {
    var sig := TakeStr(rest);
    if sig.None? then None
    else if tag == OpeningTag() then
      var o := TakeOpening(body, sig.value.value);
      if o.None? then None else Some(Opened(o.value))
    else if tag == WithdrawalTag() then
      var w := TakeWithdrawal(body, sig.value.value);
      if w.None? then None else Some(Withdrew(w.value))
    else None
  }

  /** Reads a preimage back: the payload, its tag, its fields, and the signatures after it. */
  function Decode(b: Bytes): Option<Artifact> {
    var p := TakePayload(b);
    if p.None? then None
    else if p.value.tag == RulingTag() then TakeRuled(p.value.body, p.value.rest)
    else TakeSigned(p.value.tag, p.value.body, p.value.rest)
  }

  lemma PayloadBack(tag: Bytes, body: Bytes, rest: Bytes)
    ensures TakePayload(Str(IdTag()) + (Str(Str(tag) + body) + rest)) == Some(Payload(tag, body, rest))
  {
    hide Str, TakeStr, IdTag;
    StrBack(IdTag(), Str(Str(tag) + body) + rest);
    StrBack(Str(tag) + body, rest);
    StrBack(tag, body);
  }

  /** Every artifact is read back from its leaf-ID preimage: kind, fields and signatures. */
  lemma DecodePreimage(a: Artifact)
    requires ArtifactTyped(a)
    ensures Decode(Preimage(a)) == Some(a)
  {
    hide Str, TakeStr, OpeningTag, RulingTag, WithdrawalTag, IdTag, Uvarint, TakeUvarint, RulingBody, OpeningBody,
      WithdrawalBody, TakeRuling, TakeOpening, TakeWithdrawal, SigsBytes, TakeStrs, RulingTyped, TakePayload;
    TagsDiffer();
    match a
    case Opened(o) =>
      PayloadBack(OpeningTag(), OpeningBody(o), Str(o.signature));
      StrBack(o.signature, []);
      assert Str(o.signature) + [] == Str(o.signature);
      OpeningBack(o);
    case Ruled(r) =>
      PayloadBack(RulingTag(), RulingBody(r), Uvarint(|r.sigs|) + SigsBytes(r.sigs));
      UvarintBack(|r.sigs|, SigsBytes(r.sigs));
      SigsBack(r.sigs, []);
      assert SigsBytes(r.sigs) + [] == SigsBytes(r.sigs);
      RulingBack(r);
    case Withdrew(w) =>
      PayloadBack(WithdrawalTag(), WithdrawalBody(w), Str(w.signature));
      StrBack(w.signature, []);
      assert Str(w.signature) + [] == Str(w.signature);
      WithdrawalBack(w);
  }

  /** Two different byte strings with one digest. */
  predicate Collide(hash: Bytes -> Hash, x: Bytes, y: Bytes) {
    x != y && hash(x) == hash(y)
  }

  /** Preimages of openings, rulings and withdrawals never coincide, and within a kind they coincide
      only for equal artifacts: equal leaf IDs of different artifacts are a hash collision. */
  lemma LeafIdsBind(hash: Bytes -> Hash, a: Artifact, b: Artifact)
    requires ArtifactTyped(a) && ArtifactTyped(b)
    ensures Preimage(a) == Preimage(b) <==> a == b
    ensures hash(Preimage(a)) == hash(Preimage(b)) && a != b ==> Collide(hash, Preimage(a), Preimage(b))
  {
    hide Preimage, Decode, ArtifactTyped;
    DecodePreimage(a);
    DecodePreimage(b);
  }

  // ------------------------------------------------------------------ the order of the fields

  /** The strings of a payload in order, and what follows them. */
  lemma {:induction false} StringsInOrder(strs: seq<Bytes>, rest: Bytes)
    ensures TakeStrs(SigsBytes(strs) + rest, |strs|) == Some(Taken(strs, rest))
  {
    SigsBack(strs, rest);
  }

  /** An opening's payload: tag, platform, complainant, respondent, exchange, reason, nonce, and then the time. */
  lemma OpeningOrder(o: Opening)
    ensures TakeStrs(OpeningBytes(o), 7) == Some(Taken(
      [OpeningTag(), o.platform, o.complainant, o.respondent, o.exchange.bytes, o.reasonHash.bytes, o.nonce.bytes], I64(o.openedAt)))
  {
    var strs := [OpeningTag(), o.platform, o.complainant, o.respondent, o.exchange.bytes, o.reasonHash.bytes, o.nonce.bytes];
    var t := I64(o.openedAt);
    NoStrings();
    hide Str, TakeStr, I64, OpeningTag, TakeStrs, SigsBytes;
    StringsInOrder(strs, t);
    Joined1(strs, 7, t);
    Joined1(strs, 6, Str(strs[6]) + t);
    Joined1(strs, 5, Str(strs[5]) + (Str(strs[6]) + t));
    Joined1(strs, 4, Str(strs[4]) + (Str(strs[5]) + (Str(strs[6]) + t)));
    Joined1(strs, 3, Str(strs[3]) + (Str(strs[4]) + (Str(strs[5]) + (Str(strs[6]) + t))));
    Joined1(strs, 2, Str(strs[2]) + (Str(strs[3]) + (Str(strs[4]) + (Str(strs[5]) + (Str(strs[6]) + t)))));
    Joined1(strs, 1, Str(strs[1]) + (Str(strs[2]) + (Str(strs[3]) + (Str(strs[4]) + (Str(strs[5]) + (Str(strs[6]) + t))))));
    assert strs[..7] == strs && strs[..0] == [];
    assert [] + OpeningBytes(o) == OpeningBytes(o);
  }

  lemma NoStrings()
    ensures SigsBytes([]) == []
  {
  }

  /** Peels the last string off a prefix. */
  lemma Joined1(strs: seq<Bytes>, n: nat, rest: Bytes)
    requires 0 < n <= |strs|
    ensures SigsBytes(strs[..n]) + rest == SigsBytes(strs[..n - 1]) + (Str(strs[n - 1]) + rest)
  {
    hide Str;
    assert strs[..n][..n - 1] == strs[..n - 1];
    Assoc(SigsBytes(strs[..n - 1]), Str(strs[n - 1]), rest);
  }

  /** A withdrawal's payload: tag, platform, dispute, and then the time. */
  lemma WithdrawalOrder(w: Withdrawal)
    ensures TakeStrs(WithdrawalBytes(w), 3) == Some(Taken([WithdrawalTag(), w.platform, w.dispute.bytes], I64(w.withdrawnAt)))
  {
    var strs, t := [WithdrawalTag(), w.platform, w.dispute.bytes], I64(w.withdrawnAt);
    NoStrings();
    hide Str, TakeStr, I64, WithdrawalTag, TakeStrs, SigsBytes;
    StringsInOrder(strs, t);
    Joined1(strs, 3, t);
    Joined1(strs, 2, Str(strs[2]) + t);
    Joined1(strs, 1, Str(strs[1]) + (Str(strs[2]) + t));
    assert strs[..3] == strs && strs[..0] == [];
    assert [] + WithdrawalBytes(w) == WithdrawalBytes(w);
  }

  /** Fixed-width integers are big-endian, lengths are little-endian base 128, and times are two's complement. */
  lemma ByteOrder()
    ensures U64(0x0102_0304_0506_0708) == [1, 2, 3, 4, 5, 6, 7, 8]
    ensures Uvarint(300) == [0xAC, 0x02] && Uvarint(127) == [0x7F]
    ensures I64(-1) == [255, 255, 255, 255, 255, 255, 255, 255]
  {
    EightOf([1, 2, 3, 4, 5, 6, 7, 8]);
    FixedOf(0x0102_0304_0506_0708, [1, 2, 3, 4, 5, 6, 7, 8]);
    EightOf([255, 255, 255, 255, 255, 255, 255, 255]);
    FixedOf(TWO_64 - 1, [255, 255, 255, 255, 255, 255, 255, 255]);
    assert Uvarint(300) == [0xAC] + Uvarint(2);
  }

  lemma EightOf(s: Bytes)
    requires |s| == 8
    ensures Value(s) == ((((((s[0] as nat * 256 + s[1] as nat) * 256 + s[2] as nat) * 256 + s[3] as nat) * 256 + s[4] as nat) * 256 + s[5] as nat) * 256 + s[6] as nat) * 256 + s[7] as nat
  {
    assert Value(s[..0]) == 0;
    hide Value;
    forall i | 0 <= i < 8 ensures Value(s[..i + 1]) == 256 * Value(s[..i]) + s[i] as nat {
      ValueStep(s[..i], s[i]);
      assert s[..i + 1] == s[..i] + [s[i]];
    }
    assert s[..8] == s;
    assert Value(s[..1]) == s[0] as nat;
    assert Value(s[..2]) == 256 * Value(s[..1]) + s[1] as nat;
    assert Value(s[..3]) == 256 * Value(s[..2]) + s[2] as nat;
    assert Value(s[..4]) == 256 * Value(s[..3]) + s[3] as nat;
    assert Value(s[..5]) == 256 * Value(s[..4]) + s[4] as nat;
    assert Value(s[..6]) == 256 * Value(s[..5]) + s[5] as nat;
    assert Value(s[..7]) == 256 * Value(s[..6]) + s[6] as nat;
  }

  lemma OneMoreByte(n: nat, k: nat, b: uint8)
    ensures Fixed(256 * n + b as nat, k + 1) == Fixed(n, k) + [b]
  {
  }

  lemma FixedOf(n: nat, s: Bytes)
    requires Value(s) == n
    ensures Fixed(n, |s|) == s
    decreases |s|
  {
    if s != [] {
      var m := |s| - 1;
      FixedOf(Value(s[..m]), s[..m]);
      OneMoreByte(Value(s[..m]), m, s[m]);
      assert s == s[..m] + [s[m]];
    }
  }

  lemma ValueStep(s: Bytes, b: uint8)
    ensures Value(s + [b]) == 256 * Value(s) + b as nat
  {
    assert (s + [b])[..|s|] == s;
  }

  // ------------------------------------------------------------------ the encoder's buffer

  lemma Nested(t: Bytes, p: Bytes, d: Bytes, x: Bytes, m: Bytes, f: Bytes, y: Bytes, h: Bytes, w: Bytes)
    ensures t + p + d + x + m + f + y + h + w == t + (p + (d + (x + (m + (f + (y + (h + w)))))))
  {
    Assoc(t + p + d + x + m + f + y, h, w);
    Assoc(t + p + d + x + m + f, y, h + w);
    Assoc(t + p + d + x + m, f, y + (h + w));
    Assoc(t + p + d + x, m, f + (y + (h + w)));
    Assoc(t + p + d, x, m + (f + (y + (h + w))));
    Assoc(t + p, d, x + (m + (f + (y + (h + w)))));
    Assoc(t, p, d + (x + (m + (f + (y + (h + w))))));
  }

  /** Remedy fields appended to a buffer. */
  method AppendRemedy(head: Bytes, m: Remedy) returns (b: Bytes)
    ensures b == head + RemedyBytes(m)
  {
    hide U64, Bool;
    b := head;
    if m.escalation.Some? {
      b := b + Bool(true);
      b := b + U64(m.escalation.value.action);
      b := b + U64(m.escalation.value.units);
      Assoc(head + Bool(true), U64(m.escalation.value.action), U64(m.escalation.value.units));
      Assoc(head, Bool(true), U64(m.escalation.value.action) + U64(m.escalation.value.units));
    } else {
      b := b + Bool(false);
    }
    assert b == head + EscalationBytes(m.escalation);
    b := b + U64(m.harm);
    ghost var middle := b;
    if m.refund.Some? {
      b := b + Bool(true);
      b := b + U64(m.refund.value);
      Assoc(middle, Bool(true), U64(m.refund.value));
    } else {
      b := b + Bool(false);
    }
    assert b == middle + RefundBytes(m.refund);
    Assoc(head + EscalationBytes(m.escalation), U64(m.harm), RefundBytes(m.refund));
    Assoc(head, EscalationBytes(m.escalation), U64(m.harm) + RefundBytes(m.refund));
  }

  /** Ruling.CanonicalBytes, field by field into one buffer. */
  method RulingCanonicalBytes(r: Ruling) returns (b: Bytes)
    ensures b == RulingBytes(r)
  {
    hide Str, U64, I64, RemedyBytes, RulingTag;
    b := Str(RulingTag());
    b := b + Str(r.platform);
    b := b + Str(r.dispute.bytes);
    b := b + Str(r.exchange.bytes);
    b := b + U64(r.mode);
    b := b + U64(r.finding);
    b := AppendRemedy(b, r.remedy);
    b := b + Str(r.rationaleHash.bytes);
    b := b + I64(r.ruledAt);
    Nested(Str(RulingTag()), Str(r.platform), Str(r.dispute.bytes), Str(r.exchange.bytes), U64(r.mode), U64(r.finding),
           RemedyBytes(r.remedy), Str(r.rationaleHash.bytes), I64(r.ruledAt));
  }

  /** The buffer Ruling.ID hashes. */
  method RulingPreimage(r: Ruling) returns (b: Bytes)
    ensures b == Preimage(Ruled(r))
  {
    hide Str, Uvarint, IdTag, RulingTag, RulingBody;
    var payload := RulingCanonicalBytes(r);
    b := Str(IdTag()) + Str(payload);
    b := b + Uvarint(|r.sigs|);
    ghost var head := b;
    for i := 0 to |r.sigs|
      invariant b == head + SigsBytes(r.sigs[..i])
    {
      assert r.sigs[..i + 1][..i] == r.sigs[..i];
      Assoc(head, SigsBytes(r.sigs[..i]), Str(r.sigs[i]));
      b := b + Str(r.sigs[i]);
    }
    assert r.sigs[..|r.sigs|] == r.sigs;
    Assoc(Str(IdTag()), Str(payload), Uvarint(|r.sigs|));
    Assoc(Str(IdTag()), Str(payload) + Uvarint(|r.sigs|), SigsBytes(r.sigs));
    Assoc(Str(payload), Uvarint(|r.sigs|), SigsBytes(r.sigs));
  }
}
