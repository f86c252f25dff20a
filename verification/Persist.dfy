// The persist stage: a worker parses result messages, writes them to the database in one
// transaction per commit, and only then deletes them from the result queue.
module Persist {
  import opened Wrappers
  import opened Wire
  import opened Divisors
  import opened Process
  import opened Sequences
  import opened Store
  import Sums
  import Uuid7

  // What `_parse_message` reads from the outside: the clock at its three places, the
  // elapsed milliseconds, and the two random draws of the key.
  datatype Readings = Readings(
    pulledAtMs: int, elapsedMs: int, persistedAtMs: int, rereadMs: int, draw: Uuid7.Draw)

  predicate Given(o: Option<string>) {
    o.Some? && o.value != ""
  }

  predicate GivenDigits(o: Option<string>) {
    o.Some? && IsDigitText(o.value)
  }

  // A number in the stored JSON text: JSON.stringify writes NaN as null.
  function Stored(n: Numeral): Option<int> {
    if n.Number? then Some(n.value) else None
  }

  function RowFrom(d: Dialect, m: Message, c: Readings, factor: Numeral, scheme: Numeral,
                   result: seq<int>): Row
  {
    var sequence := Attribute(m.attrs, "Sequence");
    var sent := Attribute(m.attrs, "SentTime");
    var pulled := Attribute(m.attrs, "PulledTime");
    var factorTime := Attribute(m.attrs, "FactorTime");
    var runtime := Attribute(m.attrs, "Runtime");
    var elapsed := if d.Python? then c.elapsedMs else 0;
    Row(
      Stored(factor), result, Stored(scheme), elapsed, c.pulledAtMs, c.persistedAtMs,
      if GivenDigits(pulled) then c.persistedAtMs - Value(pulled.value)
      else if d.Python? then c.persistedAtMs - c.pulledAtMs else 0,
      if runtime.Some? then runtime.value else DefaultRuntime(d),
      if GivenDigits(factorTime) then Some(Value(factorTime.value)) else None,
      if Given(sequence) then sequence else None,
      if Given(sent) then sent else None,
      if GivenDigits(sent) then Some(c.rereadMs - Value(sent.value)) else None,
      if Given(pulled) then pulled else None)
  }

  // The millisecond that goes into the key.
  function KeyTime(m: Message): int {
    var sent := Attribute(m.attrs, "SentTime");
    if GivenDigits(sent) then Value(sent.value) else m.sentAtMs
  }

  function ParsedFrom(d: Dialect, m: Message, c: Readings, factor: Numeral, scheme: Numeral,
                      result: seq<int>): Parsed
  {
    var tsMs := if GivenDigits(Attribute(m.attrs, "SentTime")) then c.rereadMs else c.persistedAtMs;
    Parsed(Uuid7.Generate(KeyTime(m), c.draw), RowFrom(d, m, c, factor, scheme, result), m.id,
           PrintNumeral(scheme), tsMs)
  }

  // `_parse_message` / parseMessage; None is an exception.
  function Parse(d: Dialect, m: Message, c: Readings): Option<Parsed> {
    var factor := IntAttribute(d, m.attrs, "Factor");
    var scheme := IntAttribute(d, m.attrs, "Scheme");
    var result := if "Result" in m.attrs then ReadList(d, m.attrs["Result"]) else None;
    if factor.None? || scheme.None? || result.None? then None
    else
      Some(ParsedFrom(d, m, c, factor.value, scheme.value, result.value))
  }

  // A parsed message that carries the factor message src.
  ghost predicate Carries(d: Dialect, p: Parsed, src: Message) {
    && Readable(d, src)
    && p.row.factor == Stored(Factor(d, src))
    && p.row.scheme == Stored(Scheme(d, src)) && p.scheme == PrintNumeral(Scheme(d, src))
    && p.row.result == FactorList(Factor(d, src))
    && p.row.sequenceRaw == Some(src.id)
    && exists draw: Uuid7.Draw :: draw.Valid() && p.sequence == Uuid7.Generate(src.sentAtMs, draw)
  }

  lemma SpeakingParses(d: Dialect, m: Message, src: Message, c: Readings)
    requires SpeaksFor(d, m.attrs, src)
    ensures Parse(d, m, c)
      == Some(ParsedFrom(d, m, c, Factor(d, src), Scheme(d, src), FactorList(Factor(d, src))))
  {
    ListRoundTrip(d, FactorList(Factor(d, src)));
  }

  // From stage to stage: whatever the clocks and the draws, a result message that speaks
  // for a factor message parses, and the parsed document carries that factor message. The
  // printed SentTime takes the all-digits branch, so the key holds the original time.
  lemma ParseOfResult(d: Dialect, m: Message, src: Message, c: Readings)
    requires SpeaksFor(d, m.attrs, src) && src.id != "" && c.draw.Valid()
    ensures KeyTime(m) == src.sentAtMs
    ensures Parse(d, m, c).Some? && Carries(d, Parse(d, m, c).value, src)
    ensures Parse(d, m, c).value.receipt == m.id && Parse(d, m, c).value.tsMs == c.rereadMs
    ensures Parse(d, m, c).value.sequence == Uuid7.Generate(src.sentAtMs, c.draw)
  {
    SpeakingParses(d, m, src, c);
    PrintedNatIsDigitText(src.sentAtMs);
  }

  function RuntimeOf(d: Dialect, src: Message): string {
    if "Runtime" in src.attrs then src.attrs["Runtime"] else DefaultRuntime(d)
  }

  ghost predicate SpeaksTimes(d: Dialect, attrs: map<string, string>, src: Message, pulledAtMs: nat,
                              factorMs: nat)
  {
    && Attribute(attrs, "SentTime") == Some(PrintInt(src.sentAtMs))
    && Attribute(attrs, "PulledTime") == Some(PrintInt(pulledAtMs))
    && Attribute(attrs, "FactorTime") == Some(PrintInt(factorMs))
    && Attribute(attrs, "Runtime") == Some(RuntimeOf(d, src))
  }

  ghost predicate ReportsTimes(d: Dialect, row: Row, src: Message, pulledAtMs: nat, factorMs: nat, c: Readings)
  {
    && row.pullToPersistMs == c.persistedAtMs - pulledAtMs
    && row.sentToPersistMs == Some(c.rereadMs - src.sentAtMs)
    && row.factorTimeMs == Some(factorMs)
    && row.sentTime == Some(PrintInt(src.sentAtMs))
    && row.pulledTime == Some(PrintInt(pulledAtMs))
    && row.runtime == RuntimeOf(d, src)
  }

  lemma TimesFrom(d: Dialect, m: Message, src: Message, pulledAtMs: nat, factorMs: nat, c: Readings,
                  factor: Numeral, scheme: Numeral, result: seq<int>)
    requires SpeaksTimes(d, m.attrs, src, pulledAtMs, factorMs)
    ensures ReportsTimes(d, RowFrom(d, m, c, factor, scheme, result), src, pulledAtMs, factorMs, c)
  {
    PrintedNatIsDigitText(src.sentAtMs);
    PrintedNatIsDigitText(pulledAtMs);
    PrintedNatIsDigitText(factorMs);
  }

  lemma TimeAttributes(d: Dialect, src: Message, factors: seq<int>, pulledAtMs: nat, factorMs: nat)
    requires Readable(d, src)
    ensures SpeaksTimes(d, ResultAttributes(d, src, factors, pulledAtMs, factorMs), src,
                        pulledAtMs, factorMs)
  {
  }

  // The times and the runtime that one stage reports arrive in the document of the next: the
  // durations are measured from the printed times, not from the fallbacks.
  lemma TimesOfResult(d: Dialect, m: Message, src: Message, pulledAtMs: nat, factorMs: nat, c: Readings)
    requires Readable(d, src)
    requires m.attrs == ResultAttributes(d, src, FactorList(Factor(d, src)), pulledAtMs, factorMs)
    ensures Parse(d, m, c).Some?
    ensures ReportsTimes(d, Parse(d, m, c).value.row, src, pulledAtMs, factorMs, c)
  {
    ResultSpeaksForSource(d, src, pulledAtMs, factorMs);
    TimeAttributes(d, src, FactorList(Factor(d, src)), pulledAtMs, factorMs);
    SpeakingParses(d, m, src, c);
    TimesFrom(d, m, src, pulledAtMs, factorMs, c,
              Factor(d, src), Scheme(d, src), FactorList(Factor(d, src)));
  }

  // ---------------------------------------------------------------------
  // Buffers
  // ---------------------------------------------------------------------

  // One receive: the messages, each with the readings of its parse.
  type Poll = seq<(Message, Readings)>

  // How one message is parsed; the workers use Parse.
  type Parser = (Message, Readings) -> Option<Parsed>

  function Parsing(d: Dialect): Parser {
    (m, c) => Parse(d, m, c)
  }

  function Success(parsed: Option<Parsed>): seq<Parsed> {
    if parsed.Some? then [parsed.value] else []
  }

  // The first k messages of a poll that parse, in order; the others are logged and skipped.
  function ParseFirst(parse: Parser, poll: Poll, k: nat): seq<Parsed>
    requires k <= |poll|
  {
    if k == 0 then []
    else ParseFirst(parse, poll, k - 1) + Success(parse(poll[k - 1].0, poll[k - 1].1))
  }

  function ParsePoll(parse: Parser, poll: Poll): seq<Parsed> {
    ParseFirst(parse, poll, |poll|)
  }

  // The parsed messages of the first k polls.
  function ParseAll(parse: Parser, polls: seq<Poll>, k: nat): seq<Parsed>
    requires k <= |polls|
  {
    if k == 0 then [] else ParseAll(parse, polls, k - 1) + ParsePoll(parse, polls[k - 1])
  }

  ghost function Counts(m: Summaries): map<string, int> {
    map k | k in m :: m[k].count
  }

  lemma {:induction false} BatchCountsAddUp(ps: seq<Parsed>)
    ensures Sums.Sum(Counts(Batches(ps))) == |ps|
  {
    if ps != [] {
      var n := |ps| - 1;
      BatchCountsAddUp(ps[..n]);
      var b := Batches(ps[..n]);
      var k := ps[n].scheme;
      var v := Batches(ps)[k].count;
      assert Counts(Batches(ps)) == Counts(b)[k := v];
      Sums.SumUpdate(Counts(b), k, v);
    }
  }

  // At every loop head the three buffers describe the same messages.
  ghost predicate Buffered(rows: seq<(string, Row)>, receipts: seq<string>, batches: Summaries,
                           ps: seq<Parsed>)
  {
    rows == Rows(ps) && receipts == Receipts(ps) && batches == Batches(ps)
  }

  lemma BufferedMeaning(rows: seq<(string, Row)>, receipts: seq<string>, batches: Summaries,
                        ps: seq<Parsed>)
    requires Buffered(rows, receipts, batches, ps)
    ensures |rows| == |receipts| == |ps| == Sums.Sum(Counts(batches))
    ensures forall k :: k in batches <==> exists p :: p in ps && p.scheme == k
    ensures forall k :: k in batches ==> Describes(batches[k], ps, k)
  {
    BatchCountsAddUp(ps);
    BatchesAreLoadedSummary(ps);
    forall k
      ensures k in batches <==> exists p :: p in ps && p.scheme == k
      ensures k in batches ==> Describes(batches[k], ps, k)
    {
      SummaryExact(ps, k);
    }
  }

  lemma BufferOne(ps: seq<Parsed>, p: Parsed)
    ensures Rows(ps + [p]) == Rows(ps) + [(p.sequence, p.row)]
    ensures Receipts(ps + [p]) == Receipts(ps) + [p.receipt]
    ensures Batches(ps + [p]) == Upsert(Batches(ps), p.scheme, Single(p.tsMs))
  {
    assert (ps + [p])[..|ps|] == ps;
  }

  // One parsed message joins the buffers.
  method BufferMessage(p: Parsed, rows0: seq<(string, Row)>, receipts0: seq<string>,
                       batches0: Summaries, ghost ps: seq<Parsed>)
    returns (rows: seq<(string, Row)>, receipts: seq<string>, batches: Summaries)
    requires Buffered(rows0, receipts0, batches0, ps)
    ensures Buffered(rows, receipts, batches, ps + [p])
  {
    rows := rows0 + [(p.sequence, p.row)];
    receipts := receipts0 + [p.receipt];
    if p.scheme !in batches0 {
      batches := batches0[p.scheme := Summary(1, p.tsMs, p.tsMs)];
    } else {
      var sb := batches0[p.scheme];
      sb := sb.(count := sb.count + 1);
      if p.tsMs < sb.first {
        sb := sb.(first := p.tsMs);
      }
      if p.tsMs > sb.last {
        sb := sb.(last := p.tsMs);
      }
      batches := batches0[p.scheme := sb];
    }
    BufferOne(ps, p);
  }

  // The `for msg in messages` loop. A message that does not parse touches no buffer.
  method ParseInto(parse: Parser, poll: Poll, rows0: seq<(string, Row)>, receipts0: seq<string>,
                   batches0: Summaries, ghost ps0: seq<Parsed>)
    returns (rows: seq<(string, Row)>, receipts: seq<string>, batches: Summaries)
    requires Buffered(rows0, receipts0, batches0, ps0)
    ensures Buffered(rows, receipts, batches, ps0 + ParsePoll(parse, poll))
  {
    rows, receipts, batches := rows0, receipts0, batches0;
    ghost var ps := ps0;
    for i := 0 to |poll|
      invariant ps == ps0 + ParseFirst(parse, poll, i)
      invariant Buffered(rows, receipts, batches, ps)
    {
      var parsed := parse(poll[i].0, poll[i].1);
      Regroup(ps0, ParseFirst(parse, poll, i), Success(parsed));
      if parsed.Some? {
        rows, receipts, batches := BufferMessage(parsed.value, rows, receipts, batches, ps);
        ps := ps + [parsed.value];
      }
    }
  }

  // ---------------------------------------------------------------------
  // The database connection and the delete requests
  // ---------------------------------------------------------------------

  datatype Event = Committed(db: Db) | Deleted(entries: seq<DeleteEntry>)

  // A connection with autocommit off, and the log of the effects others can see.
  class Session {
    var durable: Db
    var pending: Db
    var log: seq<Event>

    constructor (db: Db)
      ensures durable == pending == db && log == []
    {
      durable, pending, log := db, db, [];
    }

    method InsertValues(rows: seq<(string, Row)>)
      modifies this`pending
      ensures pending == old(pending).(factors := InsertRows(old(pending.factors), rows))
    {
      var f := pending.factors;
      for i := 0 to |rows|
        invariant f == InsertRows(pending.factors, rows[..i])
        invariant pending == old(pending)
      {
        assert rows[..i + 1][..i] == rows[..i];
        if rows[i].0 !in f {
          f := f[rows[i].0 := rows[i].1];
        }
      }
      assert rows[..|rows|] == rows;
      pending := pending.(factors := f);
    }

    method SummaryUpsert(scheme: string, b: Summary)
      modifies this`pending
      ensures pending == old(pending).(summary := Upsert(old(pending.summary), scheme, b))
    {
      pending := pending.(summary := Upsert(pending.summary, scheme, b));
    }

    method Commit()
      modifies this`durable, this`log
      ensures durable == pending && log == old(log) + [Committed(pending)]
    {
      durable := pending;
      log := log + [Committed(pending)];
    }

    method DeleteBatch(entries: seq<DeleteEntry>)
      modifies this`log
      ensures log == old(log) + [Deleted(entries)]
    {
      log := log + [Deleted(entries)];
    }
  }

  // The entries of one delete request: the receipts with their positions as Ids.
  function DeleteRequest(receipts: seq<string>): (es: seq<DeleteEntry>)
    ensures |es| == |receipts|
    ensures forall i :: 0 <= i < |es| ==> es[i] == DeleteEntry(PrintNat(i), receipts[i])
  {
    seq(|receipts|, i requires 0 <= i < |receipts| => DeleteEntry(PrintNat(i), receipts[i]))
  }

  // The delete requests for a list of receipts: ten at a time.
  function DeleteEvents(receipts: seq<string>): seq<Event> {
    if receipts == [] then []
    else
      var k := if |receipts| < 10 then |receipts| else 10;
      [Deleted(DeleteRequest(receipts[..k]))] + DeleteEvents(receipts[k..])
  }

  function FlushEvents(db: Db, ps: seq<Parsed>): seq<Event> {
    if ps == [] then [] else [Committed(Load(db, ps))] + DeleteEvents(Receipts(ps))
  }

  function EntryReceipts(es: seq<DeleteEntry>): (rs: seq<string>)
    ensures |rs| == |es|
  {
    seq(|es|, i requires 0 <= i < |es| => es[i].receipt)
  }

  // The receipts that a log deletes, in order.
  function DeletedReceipts(log: seq<Event>): seq<string> {
    if log == [] then []
    else if log[0].Committed? then DeletedReceipts(log[1..])
    else EntryReceipts(log[0].entries) + DeletedReceipts(log[1..])
  }

  // A request the queue accepts: one to ten entries with distinct Ids.
  predicate GoodRequest(es: seq<DeleteEntry>) {
    1 <= |es| <= 10 && forall i, j :: 0 <= i < j < |es| ==> es[i].id != es[j].id
  }

  lemma RequestIsGood(receipts: seq<string>)
    requires 1 <= |receipts| <= 10
    ensures GoodRequest(DeleteRequest(receipts))
    ensures EntryReceipts(DeleteRequest(receipts)) == receipts
  {
    var es := DeleteRequest(receipts);
    forall i, j | 0 <= i < j < |es| ensures es[i].id != es[j].id {
      ValueOfPrintNat(i);
      ValueOfPrintNat(j);
    }
  }

  // The ten-wide chunks are acceptable requests and concatenate back to the receipts.
  lemma {:induction false} ChunksCoverReceipts(receipts: seq<string>)
    ensures DeletedReceipts(DeleteEvents(receipts)) == receipts
    ensures forall e :: e in DeleteEvents(receipts) ==> e.Deleted? && GoodRequest(e.entries)
  {
    if receipts != [] {
      var k := if |receipts| < 10 then |receipts| else 10;
      RequestIsGood(receipts[..k]);
      ChunksCoverReceipts(receipts[k..]);
      assert DeleteEvents(receipts)[1..] == DeleteEvents(receipts[k..]);
      assert receipts[..k] + receipts[k..] == receipts;
    }
  }

  lemma {:induction false} DeletedReceiptsAppend(a: seq<Event>, b: seq<Event>)
    ensures DeletedReceipts(a + b) == DeletedReceipts(a) + DeletedReceipts(b)
  {
    if a == [] {
      assert a + b == b;
    } else {
      assert (a + b)[1..] == a[1..] + b;
      DeletedReceiptsAppend(a[1..], b);
    }
  }

  // ---------------------------------------------------------------------
  // Flushing
  // ---------------------------------------------------------------------

  lemma UpsertNext(m: Summaries, batches: Summaries, todo: set<string>, k: string)
    requires todo <= batches.Keys && k in todo
    ensures Upsert(UpsertAll(m, batches - todo), k, batches[k]) == UpsertAll(m, batches - (todo - {k}))
  {
  }

  // One upsert for each scheme of the batches, in whatever order the dictionary gives them.
  method UpsertEach(s: Session, batches: Summaries)
    modifies s`pending
    ensures s.pending == old(s.pending).(summary := UpsertAll(old(s.pending.summary), batches))
  {
    var todo := batches.Keys;
    while todo != {}
      invariant todo <= batches.Keys
      invariant s.pending == old(s.pending).(summary :=
        UpsertAll(old(s.pending.summary), batches - todo))
      decreases todo
    {
      var k :| k in todo;
      s.SummaryUpsert(k, batches[k]);
      UpsertNext(old(s.pending.summary), batches, todo, k);
      todo := todo - {k};
    }
    assert batches - {} == batches;
  }

  lemma NextChunk(receipts: seq<string>, i: nat, k: nat)
    requires i < |receipts| && k == if i + 10 < |receipts| then i + 10 else |receipts|
    ensures DeleteEvents(receipts[i..])
      == [Deleted(DeleteRequest(receipts[i..k]))] + DeleteEvents(receipts[k..])
  {
    assert receipts[i..][..k - i] == receipts[i..k] && receipts[i..][k - i..] == receipts[k..];
  }

  method DeleteAll(s: Session, receipts: seq<string>)
    modifies s`log
    ensures s.log == old(s.log) + DeleteEvents(receipts)
  {
    var i := 0;
    while i < |receipts|
      invariant 0 <= i <= |receipts|
      invariant s.log + DeleteEvents(receipts[i..]) == old(s.log) + DeleteEvents(receipts)
    {
      var k := if i + 10 < |receipts| then i + 10 else |receipts|;
      NextChunk(receipts, i, k);
      s.DeleteBatch(DeleteRequest(receipts[i..k]));
      i := k;
    }
  }

  // The transaction: all rows, one upsert for each scheme, and the commit.
  method CommitBuffers(s: Session, rows: seq<(string, Row)>, batches: Summaries, ghost ps: seq<Parsed>)
    requires s.pending == s.durable && rows == Rows(ps) && batches == Batches(ps)
    modifies s
    ensures s.pending == s.durable == Load(old(s.durable), ps)
    ensures s.log == old(s.log) + [Committed(Load(old(s.durable), ps))]
  {
    BatchIsOneByOne(s.durable, ps);
    s.InsertValues(rows);
    UpsertEach(s, batches);
    s.Commit();
  }

  method Flush(s: Session, rows: seq<(string, Row)>, receipts: seq<string>, batches: Summaries,
               ghost ps: seq<Parsed>)
    requires s.pending == s.durable && Buffered(rows, receipts, batches, ps)
    modifies s
    ensures s.pending == s.durable == Load(old(s.durable), ps)
    ensures s.log == old(s.log) + FlushEvents(old(s.durable), ps)
  {
    if rows == [] {
      return;
    }
    ghost var committed := Committed(Load(s.durable, ps));
    CommitBuffers(s, rows, batches, ps);
    Regroup(old(s.log), [committed], DeleteEvents(receipts));
    DeleteAll(s, receipts);
  }

  // What a worker that found the tables db and the log log0 has made of the messages ps:
  // they are durable, and the log has gone on with the deletion of exactly them, in order.
  ghost predicate Persisted(s: Session, db: Db, log0: seq<Event>, ps: seq<Parsed>)
    reads s
  {
    && s.pending == s.durable == Load(db, ps)
    && log0 <= s.log && DeletedReceipts(s.log[|log0|..]) == Receipts(ps)
  }

  lemma FlushDeletes(db: Db, ps: seq<Parsed>)
    ensures DeletedReceipts(FlushEvents(db, ps)) == Receipts(ps)
  {
    if ps != [] {
      ChunksCoverReceipts(Receipts(ps));
      assert FlushEvents(db, ps)[1..] == DeleteEvents(Receipts(ps));
    }
  }

  lemma {:induction false} DeletedReceiptsInclude(log: seq<Event>, i: nat)
    requires i < |log| && log[i].Deleted?
    ensures forall r :: r in EntryReceipts(log[i].entries) ==> r in DeletedReceipts(log)
  {
    if i > 0 { DeletedReceiptsInclude(log[1..], i - 1); }
  }

  // In the log of a flush no delete comes before the commit that holds its message.
  lemma FlushCommitsFirst(db: Db, ps: seq<Parsed>, i: nat)
    requires i < |FlushEvents(db, ps)| && FlushEvents(db, ps)[i].Deleted?
    ensures i > 0 && FlushEvents(db, ps)[0] == Committed(Load(db, ps))
    ensures GoodRequest(FlushEvents(db, ps)[i].entries)
    ensures forall r :: r in EntryReceipts(FlushEvents(db, ps)[i].entries) ==> r in Receipts(ps)
  {
    var ev := FlushEvents(db, ps);
    var es := DeleteEvents(Receipts(ps));
    assert ev[i] == es[i - 1];
    ChunksCoverReceipts(Receipts(ps));
    DeletedReceiptsInclude(es, i - 1);
  }

  // The number of commits in a log.
  function Commits(log: seq<Event>): nat {
    if log == [] then 0 else (if log[0].Committed? then 1 else 0) + Commits(log[1..])
  }

  lemma {:induction false} CommitsAppend(a: seq<Event>, b: seq<Event>)
    ensures Commits(a + b) == Commits(a) + Commits(b)
  {
    if a == [] {
      assert a + b == b;
    } else {
      assert (a + b)[1..] == a[1..] + b && (a + b)[0] == a[0];
      CommitsAppend(a[1..], b);
    }
  }

  lemma {:induction false} NoCommits(log: seq<Event>)
    requires forall e :: e in log ==> e.Deleted?
    ensures Commits(log) == 0
  {
    if log != [] {
      assert log[0] in log;
      NoCommits(log[1..]);
    }
  }

  lemma FlushCommitsOnce(db: Db, ps: seq<Parsed>)
    ensures Commits(FlushEvents(db, ps)) == (if ps == [] then 0 else 1)
  {
    if ps != [] {
      ChunksCoverReceipts(Receipts(ps));
      NoCommits(DeleteEvents(Receipts(ps)));
      assert FlushEvents(db, ps)[1..] == DeleteEvents(Receipts(ps));
      assert FlushEvents(db, ps)[0].Committed?;
    }
  }

  lemma ReceiptsJoin(done: seq<Parsed>, ps: seq<Parsed>)
    ensures Receipts(done + ps) == Receipts(done) + Receipts(ps)
  {
  }

  // More events: what the log deletes after log0 grows by what they delete.
  lemma LogGoesOn(log0: seq<Event>, mid: seq<Event>, more: seq<Event>)
    requires log0 <= mid
    ensures log0 <= mid + more
    ensures DeletedReceipts((mid + more)[|log0|..]) == DeletedReceipts(mid[|log0|..]) + DeletedReceipts(more)
  {
    assert (mid + more)[|log0|..] == mid[|log0|..] + more;
    DeletedReceiptsAppend(mid[|log0|..], more);
  }

  // A flush extends what a worker has persisted.
  lemma FlushExtends(db: Db, log0: seq<Event>, done: seq<Parsed>, mid: seq<Event>, ps: seq<Parsed>)
    requires log0 <= mid && DeletedReceipts(mid[|log0|..]) == Receipts(done)
    ensures Load(Load(db, done), ps) == Load(db, done + ps)
    ensures var log := mid + FlushEvents(Load(db, done), ps);
      log0 <= log && DeletedReceipts(log[|log0|..]) == Receipts(done + ps)
  {
    LoadAppend(db, done, ps);
    LogGoesOn(log0, mid, FlushEvents(Load(db, done), ps));
    FlushDeletes(Load(db, done), ps);
    ReceiptsJoin(done, ps);
  }

  // Flush, on top of what has been persisted before.
  method FlushOnto(s: Session, rows: seq<(string, Row)>, receipts: seq<string>, batches: Summaries,
                   ghost ps: seq<Parsed>, ghost db: Db, ghost log0: seq<Event>, ghost done: seq<Parsed>)
    requires Persisted(s, db, log0, done) && Buffered(rows, receipts, batches, ps)
    modifies s
    ensures Persisted(s, db, log0, done + ps)
    ensures Commits(s.log) == Commits(old(s.log)) + (if ps == [] then 0 else 1)
  {
    FlushExtends(db, log0, done, s.log, ps);
    CommitsAppend(s.log, FlushEvents(s.durable, ps));
    FlushCommitsOnce(s.durable, ps);
    Flush(s, rows, receipts, batches, ps);
  }

  // ---------------------------------------------------------------------
  // The two workers
  // ---------------------------------------------------------------------

  ghost predicate NoneEmpty(polls: seq<Poll>, k: nat)
    requires k <= |polls|
  {
    k == 0 || (NoneEmpty(polls, k - 1) && polls[k - 1] != [])
  }

  // After k polls the worker has exited at the last of them, the first empty one, or none of
  // them was empty.
  ghost predicate FirstEmpty(polls: seq<Poll>, k: nat, exited: bool)
    requires k <= |polls|
  {
    if exited then k > 0 && polls[k - 1] == [] && NoneEmpty(polls, k - 1) else NoneEmpty(polls, k)
  }

  lemma EmptyPollParses(parse: Parser, polls: seq<Poll>, i: nat)
    requires i < |polls| && polls[i] == []
    ensures ParseAll(parse, polls, i + 1) == ParseAll(parse, polls, i)
  {
  }

  lemma NothingYet(s: Session, parse: Parser, polls: seq<Poll>)
    requires s.pending == s.durable
    ensures Persisted(s, s.durable, s.log, ParseAll(parse, polls, 0))
  {
  }

  // One receive, from empty buffers to the delete requests; an empty one ends the worker.
  method PersistPoll(parse: Parser, polls: seq<Poll>, k: nat, s: Session, ghost db: Db,
                     ghost log0: seq<Event>)
    returns (exited: bool)
    requires k < |polls| && Persisted(s, db, log0, ParseAll(parse, polls, k))
    modifies s
    ensures Persisted(s, db, log0, ParseAll(parse, polls, k + 1))
    ensures exited == (polls[k] == [])
  {
    if polls[k] == [] {
      EmptyPollParses(parse, polls, k);
      return true;
    }
    var rows, receipts, batches := ParseInto(parse, polls[k], [], [], map[], []);
    ghost var ps := ParsePoll(parse, polls[k]);
    assert [] + ps == ps;
    FlushOnto(s, rows, receipts, batches, ps, db, log0, ParseAll(parse, polls, k));
    return false;
  }

  // One transaction per receive (code/persist.py, code-ts/src/persist.ts).
  method Worker(parse: Parser, polls: seq<Poll>, s: Session) returns (exited: bool, used: nat)
    requires s.pending == s.durable
    modifies s
    ensures used <= |polls| && FirstEmpty(polls, used, exited)
    ensures !exited ==> used == |polls|
    ensures Persisted(s, old(s.durable), old(s.log), ParseAll(parse, polls, used))
  {
    ghost var db, log0 := s.durable, s.log;
    NothingYet(s, parse, polls);
    exited, used := false, 0;
    while used < |polls| && !exited
      invariant used <= |polls| && FirstEmpty(polls, used, exited)
      invariant Persisted(s, db, log0, ParseAll(parse, polls, used))
    {
      exited := PersistPoll(parse, polls, used, s, db, log0);
      used := used + 1;
    }
  }

  // No two empty polls in a row among the first k.
  ghost predicate NoTwoEmpty(polls: seq<Poll>, k: nat)
    requires k <= |polls|
  {
    k < 2 || (NoTwoEmpty(polls, k - 1) && (polls[k - 2] != [] || polls[k - 1] != []))
  }

  function EmptyPolls(polls: seq<Poll>, k: nat): nat
    requires k <= |polls|
  {
    if k == 0 then 0 else EmptyPolls(polls, k - 1) + (if polls[k - 1] == [] then 1 else 0)
  }

  // The number of groups with fewer than size messages.
  function SmallGroups(groups: seq<seq<Parsed>>, size: int): nat {
    if groups == [] then 0
    else SmallGroups(groups[..|groups| - 1], size) + (if |groups[|groups| - 1]| < size then 1 else 0)
  }

  // What one flush commits: nothing when the buffer is empty.
  function AddGroup(groups: seq<seq<Parsed>>, ps: seq<Parsed>): seq<seq<Parsed>> {
    if ps == [] then groups else groups + [ps]
  }

  lemma AddGroupExact(groups: seq<seq<Parsed>>, ps: seq<Parsed>, size: int)
    ensures Flatten(AddGroup(groups, ps)) == Flatten(groups) + ps
    ensures |AddGroup(groups, ps)| == |groups| + (if ps == [] then 0 else 1)
    ensures SmallGroups(AddGroup(groups, ps), size) <= SmallGroups(groups, size) + 1
    ensures |ps| >= size ==> SmallGroups(AddGroup(groups, ps), size) == SmallGroups(groups, size)
  {
    FlattenOne(groups, ps);
    assert (groups + [ps])[..|groups|] == groups;
  }

  // What the buffered worker has committed, commit by commit, and the messages it holds.
  datatype Buffer = Buffer(groups: seq<seq<Parsed>>, held: seq<Parsed>)

  // One poll: an empty one flushes, and so does reaching COMMIT_SIZE rows.
  function Advance(parse: Parser, size: int, b: Buffer, poll: Poll): Buffer {
    var held := b.held + ParsePoll(parse, poll);
    if poll == [] || |held| >= size then Buffer(AddGroup(b.groups, held), [])
    else Buffer(b.groups, held)
  }

  function BufferAt(parse: Parser, size: int, polls: seq<Poll>, k: nat): Buffer
    requires k <= |polls|
  {
    if k == 0 then Buffer([], []) else Advance(parse, size, BufferAt(parse, size, polls, k - 1), polls[k - 1])
  }

  // The worker makes another receive after k polls: none was empty while it held nothing.
  ghost predicate Running(parse: Parser, size: int, polls: seq<Poll>, k: nat)
    requires k <= |polls|
  {
    k == 0 || (Running(parse, size, polls, k - 1)
               && (polls[k - 1] != [] || BufferAt(parse, size, polls, k - 1).held != []))
  }

  // Commits and held messages are all parsed messages, in order; only as many commits are
  // small as there were empty polls; the held messages are fewer than the commit size.
  ghost predicate Buffers(parse: Parser, size: int, polls: seq<Poll>, k: nat, b: Buffer)
    requires k <= |polls|
  {
    && Flatten(b.groups) + b.held == ParseAll(parse, polls, k)
    && SmallGroups(b.groups, size) <= EmptyPolls(polls, k)
    && (size >= 1 ==> |b.held| < size)
  }

  lemma AdvanceBuffers(parse: Parser, size: int, polls: seq<Poll>, k: nat, b: Buffer)
    requires k < |polls| && Buffers(parse, size, polls, k, b)
    ensures Buffers(parse, size, polls, k + 1, Advance(parse, size, b, polls[k]))
  {
    Regroup(Flatten(b.groups), b.held, ParsePoll(parse, polls[k]));
    AddGroupExact(b.groups, b.held + ParsePoll(parse, polls[k]), size);
  }

  // Whatever the polls hold, this is what the commits and the held messages are.
  lemma {:induction false} BufferedExact(parse: Parser, size: int, polls: seq<Poll>, k: nat)
    requires k <= |polls|
    ensures Buffers(parse, size, polls, k, BufferAt(parse, size, polls, k))
  {
    if k > 0 {
      BufferedExact(parse, size, polls, k - 1);
      AdvanceBuffers(parse, size, polls, k - 1, BufferAt(parse, size, polls, k - 1));
    }
  }

  lemma HeldAfterEmptyPoll(parse: Parser, size: int, polls: seq<Poll>, k: nat)
    requires 0 < k <= |polls| && polls[k - 1] == []
    ensures BufferAt(parse, size, polls, k).held == []
  {
  }

  // A worker that is still running has not seen two empty polls in a row.
  lemma {:induction false} RunningExact(parse: Parser, size: int, polls: seq<Poll>, k: nat)
    requires k <= |polls| && Running(parse, size, polls, k)
    ensures NoTwoEmpty(polls, k)
  {
    if k > 1 {
      RunningExact(parse, size, polls, k - 1);
      if polls[k - 2] == [] { HeldAfterEmptyPoll(parse, size, polls, k - 1); }
    }
  }

  // The worker, its three buffers and its connection agree with b.
  ghost predicate Holds(s: Session, rows: seq<(string, Row)>, receipts: seq<string>,
                        batches: Summaries, b: Buffer, db: Db, log0: seq<Event>)
    reads s
  {
    && Persisted(s, db, log0, Flatten(b.groups))
    && Commits(s.log) == Commits(log0) + |b.groups|
    && Buffered(rows, receipts, batches, b.held)
  }

  lemma HoldsNothing(rows: seq<(string, Row)>, receipts: seq<string>, batches: Summaries, ps: seq<Parsed>)
    requires Buffered(rows, receipts, batches, ps)
    ensures rows == [] <==> ps == []
  {
  }

  // One flush of the buffered worker.
  method FlushHeld(s: Session, rows: seq<(string, Row)>, receipts: seq<string>, batches: Summaries,
                   ghost b: Buffer, ghost held: seq<Parsed>, ghost db: Db, ghost log0: seq<Event>)
    requires Holds(s, rows, receipts, batches, Buffer(b.groups, held), db, log0)
    modifies s
    ensures Holds(s, [], [], map[], Buffer(AddGroup(b.groups, held), []), db, log0)
  {
    AddGroupExact(b.groups, held, 0);
    FlushOnto(s, rows, receipts, batches, held, db, log0, Flatten(b.groups));
  }

  lemma AdvanceEmpty(parse: Parser, size: int, b: Buffer)
    ensures Advance(parse, size, b, []) == Buffer(AddGroup(b.groups, b.held), [])
  {
    assert b.held + [] == b.held;
  }

  // One receive of the buffered worker. An empty one flushes, and ends the worker if nothing
  // was held; the longer wait tells the two cases apart.
  method TakePoll(parse: Parser, commitSize: int, poll: Poll, s: Session, rows0: seq<(string, Row)>,
                  receipts0: seq<string>, batches0: Summaries, ghost b: Buffer, ghost db: Db,
                  ghost log0: seq<Event>)
    returns (exited: bool, rows: seq<(string, Row)>, receipts: seq<string>, batches: Summaries)
    requires Holds(s, rows0, receipts0, batches0, b, db, log0)
    modifies s
    ensures Holds(s, rows, receipts, batches, Advance(parse, commitSize, b, poll), db, log0)
    ensures exited == (poll == [] && b.held == [])
  {
    var wait := if rows0 == [] then 20 else 0;
    HoldsNothing(rows0, receipts0, batches0, b.held);
    if poll == [] {
      AdvanceEmpty(parse, commitSize, b);
      FlushHeld(s, rows0, receipts0, batches0, b, b.held, db, log0);
      return wait == 20, [], [], map[];
    }
    rows, receipts, batches := ParseInto(parse, poll, rows0, receipts0, batches0, b.held);
    if |rows| >= commitSize {
      FlushHeld(s, rows, receipts, batches, b, b.held + ParsePoll(parse, poll), db, log0);
      rows, receipts, batches := [], [], map[];
    }
    exited := false;
  }

  // After k polls the worker has exited at the last of them, the first empty one that found
  // nothing held, or it goes on.
  ghost predicate FirstIdle(parse: Parser, size: int, polls: seq<Poll>, k: nat, exited: bool)
    requires k <= |polls|
  {
    if exited then
      k > 0 && polls[k - 1] == [] && BufferAt(parse, size, polls, k - 1).held == []
      && Running(parse, size, polls, k - 1)
    else Running(parse, size, polls, k)
  }

  lemma NothingHeld(s: Session, parse: Parser, size: int, polls: seq<Poll>)
    requires s.pending == s.durable
    ensures Holds(s, [], [], map[], BufferAt(parse, size, polls, 0), s.durable, s.log)
    ensures FirstIdle(parse, size, polls, 0, false)
  {
  }

  // An exit leaves everything parsed committed.
  lemma ExitCommitsAll(parse: Parser, size: int, polls: seq<Poll>, k: nat)
    requires k <= |polls| && FirstIdle(parse, size, polls, k, true)
    ensures Flatten(BufferAt(parse, size, polls, k).groups) == ParseAll(parse, polls, k)
  {
    BufferedExact(parse, size, polls, k);
    HeldAfterEmptyPoll(parse, size, polls, k);
  }

  lemma PersistedAtExit(s: Session, db: Db, log0: seq<Event>, parse: Parser, size: int,
                        polls: seq<Poll>, k: nat, exited: bool)
    requires k <= |polls| && FirstIdle(parse, size, polls, k, exited)
    requires Persisted(s, db, log0, Flatten(BufferAt(parse, size, polls, k).groups))
    ensures exited ==> Persisted(s, db, log0, ParseAll(parse, polls, k))
  {
    if exited { ExitCommitsAll(parse, size, polls, k); }
  }

  // Buffering across receives, with a commit at COMMIT_SIZE rows (nomad/scripts/persist.py).
  method BufferedWorker(parse: Parser, commitSize: int, polls: seq<Poll>, s: Session)
    returns (exited: bool, used: nat)
    requires s.pending == s.durable
    modifies s
    ensures used <= |polls| && FirstIdle(parse, commitSize, polls, used, exited)
    ensures !exited ==> used == |polls|
    ensures Commits(s.log) == Commits(old(s.log)) + |BufferAt(parse, commitSize, polls, used).groups|
    ensures Persisted(s, old(s.durable), old(s.log),
                      Flatten(BufferAt(parse, commitSize, polls, used).groups))
    ensures exited ==> Persisted(s, old(s.durable), old(s.log), ParseAll(parse, polls, used))
  {
    ghost var db, log0 := s.durable, s.log;
    NothingHeld(s, parse, commitSize, polls);
    var rows: seq<(string, Row)>, receipts: seq<string>, batches: Summaries := [], [], map[];
    exited, used := false, 0;
    while used < |polls| && !exited
      invariant used <= |polls| && FirstIdle(parse, commitSize, polls, used, exited)
      invariant Holds(s, rows, receipts, batches, BufferAt(parse, commitSize, polls, used), db, log0)
    {
      exited, rows, receipts, batches := TakePoll(parse, commitSize, polls[used], s, rows, receipts,
        batches, BufferAt(parse, commitSize, polls, used), db, log0);
      used := used + 1;
    }
    PersistedAtExit(s, db, log0, parse, commitSize, polls, used, exited);
  }
}
