/** The persisted ledger: newline framing, the hash chain the producer builds, and the
    verifier that re-reads it. */
module Ledger {
  import opened Json
  import opened Records

  const GENESIS := "GENESIS"

  // ---------------------------------------------------------------- framing

  /** The ASCII characters on which `str.splitlines` breaks. */
  predicate BreaksLine(c: char) {
    10 <= c as int <= 13 || 28 <= c as int <= 30
  }

  function LineLength(s: string): (n: nat)
    ensures n <= |s|
    ensures forall i :: 0 <= i < n ==> !BreaksLine(s[i])
    ensures n < |s| ==> BreaksLine(s[n])
  {
    if s == "" || BreaksLine(s[0]) then 0 else 1 + LineLength(s[1..])
  }

  /** `str.splitlines` on ASCII text; a carriage return and line feed break once. */
  function SplitLines(s: string): seq<string>
    decreases |s|
  {
    if s == "" then []
    else
      var n := LineLength(s);
      if n == |s| then [s]
      else if s[n] == '\r' && n + 1 < |s| && s[n + 1] == '\n' then [s[..n]] + SplitLines(s[n + 2..])
      else [s[..n]] + SplitLines(s[n + 1..])
  }

  function Frame(lines: seq<string>): string {
    if lines == [] then "" else lines[0] + "\n" + Frame(lines[1..])
  }

  predicate OneLine(s: string) {
    forall c <- s :: !BreaksLine(c)
  }

  lemma {:induction false} SplitFrame(lines: seq<string>)
    requires forall line <- lines :: OneLine(line)
    ensures SplitLines(Frame(lines)) == lines
  {
    if lines != [] {
      var text, n := Frame(lines), |lines[0]|;
      assert text[n] == '\n' && text[..n] == lines[0] && text[n + 1..] == Frame(lines[1..]);
      assert OneLine(lines[0]);
      FirstBreak(text, n);
      SplitFrame(lines[1..]);
    }
  }

  lemma {:induction false} FirstBreak(s: string, n: nat)
    requires n < |s| && BreaksLine(s[n]) && OneLine(s[..n])
    ensures LineLength(s) == n
  {
    forall i | 0 <= i < n ensures !BreaksLine(s[i]) {
      assert s[..n][i] in s[..n];
    }
  }

  // ---------------------------------------------------------------- verifier

  datatype Verdict = ValidChain | ChainMismatch | ContentMismatch | RecordIdMismatch | InvalidLedger

  /** `json.loads` on one line. */
  function Decode(h: Runtime, line: string): (r: Parsed<Value>)
    ensures r.Parsed? <==> Parse(line).Parsed?
  {
    match Parse(line)
    case Malformed => Malformed
    case Parsed(v, rest) => Parsed(Settle(h.canon, v), rest)
  }

  /** Python compares booleans as the integers 0 and 1, and a floating-point number with an
      integer by value. */
  predicate EqualsInt(h: Runtime, v: Value, n: nat) {
    match v
    case Num(m) => m == n
    case Bool(b) => n == if b then 1 else 0
    case Float(text) => h.whole(text) == Some(n)
    case _ => false
  }

  function Field(record: Value, key: string): Option<Value> {
    if record.Obj? && key in record.fields then Some(record.fields[key]) else None
  }

  /** The body of the verifier's loop for one decoded line; a missing field is an exception. */
  function CheckRecord(h: Runtime, record: Value, sequence: nat, prev: string): Verdict {
    match Field(record, "sequence")
    case None => InvalidLedger
    case Some(number) =>
      if !EqualsInt(h, number, sequence) then ChainMismatch else
      match Field(record, "prev_record_hash")
      case None => InvalidLedger
      case Some(link) =>
        if link != Str(prev) then ChainMismatch else
        CheckContent(h, sequence, Field(record, "payload"), Field(record, "content_hash"),
          Field(record, "record_type"), Field(record, "run_id"), Field(record, "record_id"))
  }

  function CheckContent(h: Runtime, sequence: nat, payload: Option<Value>, contentHash: Option<Value>,
                        recordType: Option<Value>, runId: Option<Value>, recordId: Option<Value>): Verdict {
    if payload.None? || contentHash.None? then InvalidLedger
    else if Str(h.digest(payload.value)) != contentHash.value then ContentMismatch
    else if recordType.None? || runId.None? || recordId.None? then InvalidLedger
    else if recordId.value != Str(RecordId(h, IdentityJson(recordType.value, runId.value, sequence, contentHash.value)))
      then RecordIdMismatch
    else ValidChain
  }

  function VerifyLines(h: Runtime, lines: seq<string>, sequence: nat, prev: string): Verdict
    decreases |lines|
  {
    if lines == [] then ValidChain
    else
      var decoded := Decode(h, lines[0]);
      if decoded.Malformed? then InvalidLedger
      else
        var verdict := CheckRecord(h, decoded.value, sequence, prev);
        if verdict != ValidChain then verdict
        else VerifyLines(h, lines[1..], sequence + 1, h.digest(decoded.value))
  }

  /** Reading what was printed gives back every value whose floating-point texts are canonical,
      and no other. */
  lemma {:induction false} DecodePrinted(h: Runtime, v: Value)
    ensures Decode(h, Print(v)) == Parsed(v, "") <==> Settle(h.canon, v) == v
  {
    DecodeEncode(v);
  }

  predicate Ascii(text: string) {
    forall c <- text :: c as int < 128
  }

  function LedgerVerdict(h: Runtime, text: string): Verdict {
    if Ascii(text) then VerifyLines(h, SplitLines(text), 0, GENESIS) else InvalidLedger
  }

  /** `verify_ledger` on the contents of the ledger file. */
  method VerifyLedger(h: Runtime, text: string) returns (verdict: Verdict)
    ensures verdict == LedgerVerdict(h, text)
    ensures verdict == ValidChain <==>
      Ascii(text) && Decodable(SplitLines(text)) && Accepts(h, Decoded(h, SplitLines(text)))
  {
    if !Ascii(text) {
      return InvalidLedger;
    }
    var lines := SplitLines(text);
    VerifyLinesMeaning(h, lines);
    var prev := GENESIS;
    for sequence := 0 to |lines|
      invariant VerifyLines(h, lines[sequence..], sequence, prev) == LedgerVerdict(h, text)
    {
      assert lines[sequence..][1..] == lines[sequence + 1..];
      var decoded := Decode(h, lines[sequence]);
      if decoded.Malformed? {
        return InvalidLedger;
      }
      verdict := CheckRecord(h, decoded.value, sequence, prev);
      if verdict != ValidChain {
        return;
      }
      prev := h.digest(decoded.value);
    }
    verdict := ValidChain;
  }

  // ---------------------------------------------------------------- what acceptance means

  function PrevOf(h: Runtime, records: seq<Value>, i: nat): string
    requires i <= |records|
  {
    if i == 0 then GENESIS else h.digest(records[i - 1])
  }

  predicate Linked(h: Runtime, records: seq<Value>, i: nat)
    requires i < |records|
  {
    CheckRecord(h, records[i], i, PrevOf(h, records, i)) == ValidChain
  }

  predicate AcceptsFrom(h: Runtime, records: seq<Value>, k: nat) {
    forall i: nat :: k <= i < |records| ==> Linked(h, records, i)
  }

  /** Every record passes its own checks against its position and its predecessor. */
  predicate Accepts(h: Runtime, records: seq<Value>) {
    AcceptsFrom(h, records, 0)
  }

  predicate Decodable(lines: seq<string>) {
    forall line <- lines :: Parse(line).Parsed?
  }

  function Decoded(h: Runtime, lines: seq<string>): (r: seq<Value>)
    requires Decodable(lines)
    ensures |r| == |lines| && forall i :: 0 <= i < |r| ==> Decode(h, lines[i]) == Parsed(r[i], "")
  {
    seq(|lines|, i requires 0 <= i < |lines| => assert lines[i] in lines; Decode(h, lines[i]).value)
  }

  lemma {:induction false} VerifyLinesMeaning(h: Runtime, lines: seq<string>)
    ensures VerifyLines(h, lines, 0, GENESIS) == ValidChain <==> Decodable(lines) && Accepts(h, Decoded(h, lines))
  {
    VerifyFrom(h, lines, 0, GENESIS);
    if Decodable(lines) {
      assert lines[0..] == lines;
    }
  }

  lemma {:induction false} DecodedPrefix(h: Runtime, lines: seq<string>, k: nat)
    requires k <= |lines| && Decodable(lines)
    ensures Decodable(lines[..k]) && Decoded(h, lines[..k]) == Decoded(h, lines)[..k]
  {
    assert forall i :: 0 <= i < k ==> lines[..k][i] == lines[i];
  }

  lemma {:induction false} DecodedOneMore(h: Runtime, lines: seq<string>, k: nat)
    requires k < |lines| && Decodable(lines[..k]) && Decode(h, lines[k]).Parsed?
    ensures Decodable(lines[..k + 1])
      && Decoded(h, lines[..k + 1]) == Decoded(h, lines[..k]) + [Decode(h, lines[k]).value]
  {
    assert lines[..k + 1] == lines[..k] + [lines[k]];
  }

  lemma {:induction false} AcceptsFromStep(h: Runtime, records: seq<Value>, k: nat)
    requires k < |records|
    ensures AcceptsFrom(h, records, k) <==>
            CheckRecord(h, records[k], k, PrevOf(h, records, k)) == ValidChain && AcceptsFrom(h, records, k + 1)
  {
    assert Linked(h, records, k) <==> CheckRecord(h, records[k], k, PrevOf(h, records, k)) == ValidChain;
  }

  /** Acceptance of the lines from position `k` on. */
  lemma {:induction false} VerifyFrom(h: Runtime, lines: seq<string>, k: nat, prev: string)
    requires k <= |lines| && Decodable(lines[..k])
    requires prev == PrevOf(h, Decoded(h, lines[..k]), k)
    ensures VerifyLines(h, lines[k..], k, prev) == ValidChain <==>
      Decodable(lines) && AcceptsFrom(h, Decoded(h, lines), k)
    decreases |lines| - k
  {
    if k == |lines| {
      assert lines[..k] == lines;
    } else if Decode(h, lines[k]).Malformed? {
      assert lines[k] in lines;
    } else {
      var record := Decode(h, lines[k]).value;
      assert lines[k..][0] == lines[k] && lines[k..][1..] == lines[k + 1..];
      DecodedOneMore(h, lines, k);
      VerifyFrom(h, lines, k + 1, h.digest(record));
      if Decodable(lines) {
        DecodedPrefix(h, lines, k);
        assert PrevOf(h, Decoded(h, lines), k) == prev && Decoded(h, lines)[k] == record;
        AcceptsFromStep(h, Decoded(h, lines), k);
      }
    }
  }

  // ---------------------------------------------------------------- tamper evidence

  lemma {:induction false} PrefixAccepted(h: Runtime, records: seq<Value>, k: nat)
    requires Accepts(h, records) && k <= |records|
    ensures Accepts(h, records[..k])
  {
    forall i | 0 <= i < k ensures Linked(h, records[..k], i) {
      assert Linked(h, records, i);
    }
  }

  /** A ledger is determined by its last record: two accepted ledgers that end alike are
      the same ledger, or two different values with one digest are exhibited. */
  lemma {:induction false} LastRecordDeterminesLedger(h: Runtime, a: seq<Value>, b: seq<Value>) returns (x: Value,
      y: Value)
    requires Accepts(h, a) && Accepts(h, b)
    requires a != [] && b != [] && a[|a| - 1] == b[|b| - 1]
    ensures a == b || Collision(h, x, y)
  {
    x, y := Null, Null;
    var n := |a| - 1;
    SameLastLink(h, a, b);
    assert a == a[..n] + [a[n]] && b == b[..n] + [b[n]];
    if n > 0 {
      x, y := a[n - 1], b[n - 1];
      if !Collision(h, x, y) {
        PrefixAccepted(h, a, n);
        PrefixAccepted(h, b, n);
        x, y := LastRecordDeterminesLedger(h, a[..n], b[..n]);
      }
    }
  }

  /** The last record fixes the number of records and the digest of the one before it. */
  lemma {:induction false} SameLastLink(h: Runtime, a: seq<Value>, b: seq<Value>)
    requires Accepts(h, a) && Accepts(h, b)
    requires a != [] && b != [] && a[|a| - 1] == b[|b| - 1]
    ensures |a| == |b|
    ensures |a| > 1 ==> h.digest(a[|a| - 2]) == h.digest(b[|b| - 2])
  {
    assert Linked(h, a, |a| - 1) && Linked(h, b, |b| - 1);
  }

  /** Replacing a record that is not the last one, in any field, and leaving the rest of an
      accepted ledger alone is rejected, or the two records collide. */
  lemma {:induction false} EditIsDetected(h: Runtime, records: seq<Value>, i: nat, edited: Value)
    requires Accepts(h, records) && i + 1 < |records| && edited != records[i]
    ensures Accepts(h, records[i := edited]) ==> Collision(h, records[i], edited)
  {
    var changed := records[i := edited];
    assert Linked(h, records, i + 1);
    if Linked(h, changed, i + 1) {
      assert changed[i + 1] == records[i + 1];
    }
  }

  /** Two accepted ledgers that agree at one position agree on everything up to it, or two
      different values with one digest are exhibited. */
  lemma {:induction false} AgreementReachesBack(h: Runtime, a: seq<Value>, b: seq<Value>, k: nat) returns (x: Value,
      y: Value)
    requires Accepts(h, a) && Accepts(h, b)
    requires k < |a| && k < |b| && a[k] == b[k]
    ensures a[..k + 1] == b[..k + 1] || Collision(h, x, y)
  {
    PrefixAccepted(h, a, k + 1);
    PrefixAccepted(h, b, k + 1);
    x, y := LastRecordDeterminesLedger(h, a[..k + 1], b[..k + 1]);
  }

  /** Whatever was done to an accepted ledger to obtain another: without a collision the two
      share a prefix and differ in every record after it. */
  lemma {:induction false} AcceptedLedgersFork(h: Runtime, a: seq<Value>, b: seq<Value>) returns (p: nat, x: Value,
      y: Value)
    requires Accepts(h, a) && Accepts(h, b)
    ensures p <= |a| && p <= |b| && a[..p] == b[..p]
    ensures Collision(h, x, y) || forall k :: p <= k < |a| && k < |b| ==> a[k] != b[k]
  {
    var n := if |a| <= |b| then |a| else |b|;
    p, x, y := AgreementUpTo(h, a, b, n);
  }

  lemma {:induction false} AgreementUpTo(h: Runtime, a: seq<Value>, b: seq<Value>, n: nat) returns (p: nat, x: Value,
      y: Value)
    requires Accepts(h, a) && Accepts(h, b) && n <= |a| && n <= |b|
    ensures p <= n && a[..p] == b[..p]
    ensures Collision(h, x, y) || forall k :: p <= k < n ==> a[k] != b[k]
  {
    if n == 0 {
      p, x, y := 0, Null, Null;
    } else if a[n - 1] == b[n - 1] {
      x, y := AgreementReachesBack(h, a, b, n - 1);
      p := if Collision(h, x, y) then 0 else n;
    } else {
      p, x, y := AgreementUpTo(h, a, b, n - 1);
    }
  }

  const CHECKED_FIELDS: set<string> :=
    {"sequence", "prev_record_hash", "payload", "content_hash", "record_type", "run_id", "record_id"}

  predicate AgreeOnCheckedFields(a: Value, b: Value) {
    forall k <- CHECKED_FIELDS :: Field(a, k) == Field(b, k)
  }

  lemma {:induction false} SameCheckedFieldsSameVerdict(h: Runtime, a: Value, b: Value, sequence: nat, prev: string)
    requires AgreeOnCheckedFields(a, b)
    ensures CheckRecord(h, a, sequence, prev) == CheckRecord(h, b, sequence, prev)
  {
    assert "sequence" in CHECKED_FIELDS && "prev_record_hash" in CHECKED_FIELDS && "payload" in CHECKED_FIELDS
        && "content_hash" in CHECKED_FIELDS && "record_type" in CHECKED_FIELDS && "run_id" in CHECKED_FIELDS
        && "record_id" in CHECKED_FIELDS;
  }

  /** The limits of the chain: truncation is accepted at every point, and the last record may
      be exchanged for exactly those that pass the verifier's checks at its place, among them
      all that agree on the seven checked fields. */
  lemma {:induction false} LastRecordIsUnanchored(h: Runtime, records: seq<Value>, last: Value)
    requires records != [] && Accepts(h, records)
    ensures forall k :: 0 <= k <= |records| ==> Accepts(h, records[..k])
    ensures var n := |records| - 1;
      Accepts(h, records[n := last]) <==> CheckRecord(h, last, n, PrevOf(h, records, n)) == ValidChain
    ensures AgreeOnCheckedFields(records[|records| - 1], last) ==> Accepts(h, records[|records| - 1 := last])
  {
    forall k | 0 <= k <= |records| ensures Accepts(h, records[..k]) { PrefixAccepted(h, records, k); }
    var n := |records| - 1;
    var changed := records[n := last];
    assert Linked(h, records, n);
    if AgreeOnCheckedFields(records[n], last) {
      SameCheckedFieldsSameVerdict(h, records[n], last, n, PrevOf(h, records, n));
    }
    assert Linked(h, changed, n) <==> CheckRecord(h, last, n, PrevOf(h, records, n)) == ValidChain;
    forall i | 0 <= i < n ensures Linked(h, changed, i) {
      assert Linked(h, records, i);
      assert changed[i] == records[i] && (i > 0 ==> changed[i - 1] == records[i - 1]);
    }
  }

  // ---------------------------------------------------------------- producer

  function Stored(records: seq<Record>): (r: seq<Value>)
    ensures |r| == |records| && forall i :: 0 <= i < |r| ==> r[i] == RecordJson(records[i])
  {
    RecordsJson(records).items
  }

  /** The `prev` value the append loops carry after `records`. */
  function Tip(h: Runtime, records: seq<Record>): string {
    if records == [] then GENESIS else h.digest(RecordJson(records[|records| - 1]))
  }

  /** One append, as both append loops do it. */
  function Append(h: Runtime, records: seq<Record>, runId: string, payload: Payload): (r: seq<Record>)
    ensures Extension(records, [payload], runId, r)
  {
    records + [MakeRecord(h, runId, |records|, payload, Tip(h, records))]
  }

  /** The records of an append loop carry the given payloads in order, their positions, the
      run identifier and well-formed record identifiers; earlier records stay. */
  ghost predicate Extension(records: seq<Record>, payloads: seq<Payload>, runId: string, r: seq<Record>) {
    && |r| == |records| + |payloads| && records <= r
    && forall j {:trigger payloads[j]} :: 0 <= j < |payloads| ==>
         var x := r[|records| + j];
         x.payload == payloads[j] && x.sequence == |records| + j && x.runId == runId && IsRecordId(x.recordId)
  }

  lemma {:induction false} ExtensionJoin(a: seq<Record>, p: seq<Payload>, b: seq<Record>, q: seq<Payload>,
      c: seq<Record>, runId: string)
    requires Extension(a, p, runId, b) && Extension(b, q, runId, c)
    ensures Extension(a, p + q, runId, c)
  {
    var pq := p + q;
    forall j | 0 <= j < |pq|
      ensures var x := c[|a| + j];
        x.payload == pq[j] && x.sequence == |a| + j && x.runId == runId && IsRecordId(x.recordId)
    {
      if j < |p| {
        assert p[j] == pq[j] && c[|a| + j] == b[|a| + j];
      } else {
        assert q[j - |p|] == pq[j];
      }
    }
  }

  function AppendAll(h: Runtime, records: seq<Record>, runId: string, payloads: seq<Payload>): (r: seq<Record>)
    ensures Extension(records, payloads, runId, r)
    decreases |payloads|
  {
    if payloads == [] then records
    else
      var next := Append(h, records, runId, payloads[0]);
      var r := AppendAll(h, next, runId, payloads[1..]);
      ExtensionJoin(records, [payloads[0]], next, payloads[1..], r, runId);
      assert [payloads[0]] + payloads[1..] == payloads;
      r
  }

  function PayloadsOf(records: seq<Record>): (r: seq<Payload>)
    ensures |r| == |records|
  {
    seq(|records|, i requires 0 <= i < |records| => records[i].payload)
  }

  lemma {:induction false} StoredLinks(r: Record)
    ensures Field(RecordJson(r), "sequence") == Some(Num(r.sequence))
    ensures Field(RecordJson(r), "prev_record_hash") == Some(Str(r.prev))
    ensures Field(RecordJson(r), "payload") == Some(PayloadJson(r.payload))
  {}

  lemma {:induction false} StoredIdentity(r: Record)
    ensures Field(RecordJson(r), "content_hash") == Some(Str(r.contentHash))
    ensures Field(RecordJson(r), "record_type") == Some(Str(r.payload.TypeText()))
    ensures Field(RecordJson(r), "run_id") == Some(Str(r.runId))
    ensures Field(RecordJson(r), "record_id") == Some(Str(r.recordId))
  {}

  lemma {:induction false} MadeIdentity(h: Runtime, runId: string, sequence: nat, payload: Payload, prev: string)
    ensures Identified(h, MakeRecord(h, runId, sequence, payload, prev))
  {}

  /** The hash of the content, and the identifier of the identity. */
  predicate Identified(h: Runtime, r: Record) {
    && r.contentHash == h.digest(PayloadJson(r.payload))
    && r.recordId
      == RecordId(h, IdentityJson(Str(r.payload.TypeText()), Str(r.runId), r.sequence, Str(r.contentHash)))
  }

  lemma {:induction false} FieldsPass(h: Runtime, stored: Value, r: Record)
    requires Field(stored, "sequence") == Some(Num(r.sequence))
    requires Field(stored, "prev_record_hash") == Some(Str(r.prev))
    requires Field(stored, "payload") == Some(PayloadJson(r.payload))
    requires Field(stored, "content_hash") == Some(Str(r.contentHash))
    requires Field(stored, "record_type") == Some(Str(r.payload.TypeText()))
    requires Field(stored, "run_id") == Some(Str(r.runId)) && Field(stored, "record_id") == Some(Str(r.recordId))
    requires Identified(h, r)
    ensures CheckRecord(h, stored, r.sequence, r.prev) == ValidChain
  {}

  lemma {:induction false} MadeRecordPasses(h: Runtime, runId: string, sequence: nat, payload: Payload, prev: string)
    ensures CheckRecord(h, RecordJson(MakeRecord(h, runId, sequence, payload, prev)), sequence, prev) == ValidChain
  {
    var r := MakeRecord(h, runId, sequence, payload, prev);
    StoredLinks(r);
    StoredIdentity(r);
    MadeIdentity(h, runId, sequence, payload, prev);
    FieldsPass(h, RecordJson(r), r);
  }

  /** Any accepted ledger can be extended by one envelope, whatever its payload and run. */
  lemma {:induction false} AppendAccepted(h: Runtime, records: seq<Record>, runId: string, payload: Payload)
    requires Accepts(h, Stored(records))
    ensures Accepts(h, Stored(Append(h, records, runId, payload)))
  {
    var made := MakeRecord(h, runId, |records|, payload, Tip(h, records));
    MadeRecordPasses(h, runId, |records|, payload, Tip(h, records));
    ExtendedAccepts(h, Stored(records), RecordJson(made));
    StoredOneMore(records, made);
  }

  lemma {:induction false} StoredOneMore(records: seq<Record>, r: Record)
    ensures Stored(records + [r]) == Stored(records) + [RecordJson(r)]
  {}

  lemma {:induction false} ExtendedAccepts(h: Runtime, before: seq<Value>, last: Value)
    requires Accepts(h, before)
    requires CheckRecord(h, last, |before|, if before == [] then GENESIS else h.digest(before[|before| - 1]))
      == ValidChain
    ensures Accepts(h, before + [last])
  {
    var after := before + [last];
    forall i | 0 <= i < |after| ensures Linked(h, after, i) {
      assert i < |before| ==> Linked(h, before, i);
      assert i > 0 ==> after[i - 1] == before[i - 1];
    }
  }

  /** So the payload of the last record is free: an envelope of any other, in any run, is
      accepted in its place. */
  lemma {:induction false} LastPayloadIsFree(h: Runtime, records: seq<Record>, runId: string, payload: Payload)
    requires records != [] && Accepts(h, Stored(records))
    ensures var n := |records| - 1;
      var changed := Append(h, records[..n], runId, payload);
      |changed| == |records| && changed[..n] == records[..n] && changed[n].payload == payload
          && Accepts(h, Stored(changed))
  {
    var n := |records| - 1;
    PrefixAccepted(h, Stored(records), n);
    assert Stored(records[..n]) == Stored(records)[..n];
    AppendAccepted(h, records[..n], runId, payload);
  }

  lemma {:induction false} AppendAllAccepted(h: Runtime, records: seq<Record>, runId: string, payloads: seq<Payload>)
    requires Accepts(h, Stored(records))
    ensures Accepts(h, Stored(AppendAll(h, records, runId, payloads)))
    decreases |payloads|
  {
    if payloads != [] {
      AppendAccepted(h, records, runId, payloads[0]);
      AppendAllAccepted(h, Append(h, records, runId, payloads[0]), runId, payloads[1..]);
    }
  }

  /** The bytes `write_ledger` persists. */
  function LedgerText(records: seq<Record>): string {
    Frame(Lines(records))
  }

  function Lines(records: seq<Record>): (r: seq<string>)
    ensures |r| == |records| && forall i :: 0 <= i < |r| ==> r[i] == Print(RecordJson(records[i]))
  {
    seq(|records|, i requires 0 <= i < |records| => Print(RecordJson(records[i])))
  }

  lemma {:induction false} FrameStep(text: string, lines: seq<string>, i: nat, line: string)
    requires i < |lines| && line == lines[i] && text + Frame(lines[i..]) == Frame(lines)
    ensures text + line + "\n" + Frame(lines[i + 1..]) == Frame(lines)
  {
    assert lines[i..][1..] == lines[i + 1..];
  }

  lemma {:induction false} WrittenReads(h: Runtime, records: seq<Record>)
    ensures var text := LedgerText(records);
      Ascii(text) && Decodable(SplitLines(text)) && Decoded(h, SplitLines(text)) == Stored(records)
  {
    ReadBack(h, records);
  }

  /** `write_ledger` on an absent path. */
  method WriteLedger(h: Runtime, records: seq<Record>) returns (text: string)
    ensures text == LedgerText(records)
    ensures Ascii(text)
    ensures Decodable(SplitLines(text)) && Decoded(h, SplitLines(text)) == Stored(records)
  {
    text := "";
    ghost var lines := Lines(records);
    for i := 0 to |records|
      invariant text + Frame(lines[i..]) == Frame(lines)
    {
      var line := Print(RecordJson(records[i]));
      FrameStep(text, lines, i, line);
      text := text + line + "\n";
    }
    assert text + "" == text;
    WrittenReads(h, records);
  }

  lemma {:induction false} FrameAscii(lines: seq<string>)
    requires forall line <- lines :: AllPrintable(line)
    ensures Ascii(Frame(lines))
  {
    if lines != [] {
      assert AllPrintable(lines[0]);
      FrameAscii(lines[1..]);
    }
  }

  /** Splitting and decoding the written bytes gives back exactly the records written. */
  lemma {:induction false} ReadBack(h: Runtime, records: seq<Record>)
    ensures Ascii(LedgerText(records))
    ensures SplitLines(LedgerText(records)) == Lines(records)
    ensures Decodable(Lines(records)) && Decoded(h, Lines(records)) == Stored(records)
  {
    forall i | 0 <= i < |records|
      ensures AllPrintable(Lines(records)[i]) && OneLine(Lines(records)[i])
      ensures Decode(h, Lines(records)[i]) == Parsed(RecordJson(records[i]), "")
    {
      PrintPrintable(RecordJson(records[i]));
      DecodeEncode(RecordJson(records[i]));
      RecordFloatFree(records[i]);
      FloatFreeSettles(h.canon, RecordJson(records[i]));
    }
    FrameAscii(Lines(records));
    SplitFrame(Lines(records));
  }

  /** The verifier accepts a written ledger exactly when its records are linked. */
  lemma {:induction false} WrittenLedgerVerdict(h: Runtime, records: seq<Record>)
    ensures LedgerVerdict(h, LedgerText(records)) == ValidChain <==> Accepts(h, Stored(records))
  {
    ReadBack(h, records);
    VerifyLinesMeaning(h, Lines(records));
  }

  /** Producer meets verifier: whatever payloads are appended, in whatever order, the
      written bytes verify. */
  lemma {:induction false} ProducedLedgerVerifies(h: Runtime, runId: string, payloads: seq<Payload>)
    ensures LedgerVerdict(h, LedgerText(AppendAll(h, [], runId, payloads))) == ValidChain
  {
    AppendAllAccepted(h, [], runId, payloads);
    WrittenLedgerVerdict(h, AppendAll(h, [], runId, payloads));
  }
}
