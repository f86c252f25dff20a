// The two PostgreSQL tables of the persist stage and the statements that change them:
// `factors`, keyed by UUID, and `scheme_summary`, an index kept by upserts.
module Store {
  import opened Wrappers
  import opened Sequences
  import Wire

  // The JSON document stored for one result message. None as a factor or a scheme is the
  // null that JSON.stringify writes for NaN.
  datatype Row = Row(
    factor: Option<int>, result: seq<int>, scheme: Option<int>, elapsedMs: int, pulledAtMs: int,
    persistedAtMs: int, pullToPersistMs: int, runtime: string, factorTimeMs: Option<int>,
    sequenceRaw: Option<string>, sentTime: Option<string>, sentToPersistMs: Option<int>,
    pulledTime: Option<string>)

  // What `_parse_message` returns: key, document, receipt handle, scheme, timestamp.
  datatype Parsed = Parsed(sequence: string, row: Row, receipt: string, scheme: string, tsMs: int)

  // A scheme_summary row, and likewise an entry of the local `scheme_batches`.
  datatype Summary = Summary(count: int, first: int, last: int)

  type Factors = map<string, Row>
  type Summaries = map<string, Summary>

  datatype Db = Db(factors: Factors, summary: Summaries)

  const EMPTY := Db(map[], map[])

  function Min(a: int, b: int): int {
    if a <= b then a else b
  }

  function Max(a: int, b: int): int {
    if a >= b then a else b
  }

  // INSERT INTO factors ... ON CONFLICT (sequence) DO NOTHING
  function InsertRow(f: Factors, key: string, row: Row): Factors {
    if key in f then f else f[key := row]
  }

  function InsertRows(f: Factors, rows: seq<(string, Row)>): Factors {
    if rows == [] then f
    else
      var last := rows[|rows| - 1];
      InsertRow(InsertRows(f, rows[..|rows| - 1]), last.0, last.1)
  }

  function Merge(a: Summary, b: Summary): Summary {
    Summary(a.count + b.count, Min(a.first, b.first), Max(a.last, b.last))
  }

  // _SUMMARY_UPSERT
  function Upsert(m: Summaries, scheme: string, b: Summary): Summaries {
    m[scheme := if scheme in m then Merge(m[scheme], b) else b]
  }

  // The effect of one upsert for every entry of a batch dictionary, in any order.
  function UpsertAll(m: Summaries, bs: Summaries): Summaries {
    map k | k in m.Keys + bs.Keys ::
      if k !in bs then m[k] else if k !in m then bs[k] else Merge(m[k], bs[k])
  }

  function Single(tsMs: int): Summary {
    Summary(1, tsMs, tsMs)
  }

  function Rows(ps: seq<Parsed>): (rows: seq<(string, Row)>)
    ensures |rows| == |ps|
  {
    seq(|ps|, i requires 0 <= i < |ps| => (ps[i].sequence, ps[i].row))
  }

  function Receipts(ps: seq<Parsed>): (rs: seq<string>)
    ensures |rs| == |ps|
  {
    seq(|ps|, i requires 0 <= i < |ps| => ps[i].receipt)
  }

  // The `scheme_batches` dictionary of a list of parsed messages.
  function Batches(ps: seq<Parsed>): Summaries {
    if ps == [] then map[]
    else
      var p := ps[|ps| - 1];
      Upsert(Batches(ps[..|ps| - 1]), p.scheme, Single(p.tsMs))
  }

  // One transaction: all rows, then one upsert per scheme.
  function CommitBatch(db: Db, ps: seq<Parsed>): Db {
    Db(InsertRows(db.factors, Rows(ps)), UpsertAll(db.summary, Batches(ps)))
  }

  // The reference: every message on its own, in order.
  function LoadOne(db: Db, p: Parsed): Db {
    Db(InsertRow(db.factors, p.sequence, p.row), Upsert(db.summary, p.scheme, Single(p.tsMs)))
  }

  function Load(db: Db, ps: seq<Parsed>): Db {
    if ps == [] then db else LoadOne(Load(db, ps[..|ps| - 1]), ps[|ps| - 1])
  }

  // ---------------------------------------------------------------------
  // Batching
  // ---------------------------------------------------------------------

  lemma UpsertAllUpsert(m: Summaries, bs: Summaries, k: string, b: Summary)
    ensures UpsertAll(m, Upsert(bs, k, b)) == Upsert(UpsertAll(m, bs), k, b)
  {
  }

  // A committed batch leaves what its messages leave one by one.
  lemma {:induction false} BatchIsOneByOne(db: Db, ps: seq<Parsed>)
    ensures CommitBatch(db, ps) == Load(db, ps)
  {
    if ps == [] {
      assert UpsertAll(db.summary, map[]) == db.summary;
    } else {
      var n := |ps| - 1;
      BatchIsOneByOne(db, ps[..n]);
      assert Rows(ps)[..n] == Rows(ps[..n]);
      UpsertAllUpsert(db.summary, Batches(ps[..n]), ps[n].scheme, Single(ps[n].tsMs));
    }
  }

  lemma {:induction false} LoadAppend(db: Db, ps: seq<Parsed>, qs: seq<Parsed>)
    ensures Load(db, ps + qs) == Load(Load(db, ps), qs)
  {
    if qs == [] {
      assert ps + qs == ps;
    } else {
      var n := |qs| - 1;
      LoadAppend(db, ps, qs[..n]);
      assert (ps + qs)[..|ps| + n] == ps + qs[..n];
    }
  }

  function CommitBatches(db: Db, bs: seq<seq<Parsed>>): Db {
    if bs == [] then db else CommitBatch(CommitBatches(db, bs[..|bs| - 1]), bs[|bs| - 1])
  }

  // Where the commits are placed in a stream of messages makes no difference.
  lemma {:induction false} CommitPointsIrrelevant(db: Db, bs: seq<seq<Parsed>>)
    ensures CommitBatches(db, bs) == Load(db, Flatten(bs))
  {
    if bs != [] {
      var n := |bs| - 1;
      CommitPointsIrrelevant(db, bs[..n]);
      BatchIsOneByOne(CommitBatches(db, bs[..n]), bs[n]);
      LoadAppend(db, Flatten(bs[..n]), bs[n]);
    }
  }

  // ---------------------------------------------------------------------
  // The index
  // ---------------------------------------------------------------------

  function Count(ps: seq<Parsed>, scheme: string): nat {
    if ps == [] then 0
    else Count(ps[..|ps| - 1], scheme) + (if ps[|ps| - 1].scheme == scheme then 1 else 0)
  }

  // s is the number, the minimum and the maximum of the scheme's timestamps in ps.
  ghost predicate Describes(s: Summary, ps: seq<Parsed>, scheme: string) {
    && s.count == Count(ps, scheme)
    && (forall p :: p in ps && p.scheme == scheme ==> s.first <= p.tsMs <= s.last)
    && (exists p :: p in ps && p.scheme == scheme && p.tsMs == s.first)
    && (exists p :: p in ps && p.scheme == scheme && p.tsMs == s.last)
  }

  // The summary table describes the loaded messages, scheme by scheme, and lists no
  // other scheme.
  lemma {:induction false} SummaryExact(ps: seq<Parsed>, scheme: string)
    ensures var m := Load(EMPTY, ps).summary;
      && (scheme in m <==> exists p :: p in ps && p.scheme == scheme)
      && (scheme in m ==> Describes(m[scheme], ps, scheme))
      && (scheme !in m ==> Count(ps, scheme) == 0)
  {
    if ps != [] {
      var n := |ps| - 1;
      var before, p := ps[..n], ps[n];
      SummaryExact(before, scheme);
      assert forall q :: q in ps <==> q in before || q == p;
      var m, m' := Load(EMPTY, before).summary, Load(EMPTY, ps).summary;
      if p.scheme == scheme {
        if scheme in m {
          var q :| q in before && q.scheme == scheme && q.tsMs == m[scheme].first;
          var r :| r in before && r.scheme == scheme && r.tsMs == m[scheme].last;
          assert q in ps && r in ps && p in ps;
        } else {
          assert m'[scheme] == Single(p.tsMs);
          assert p in ps;
        }
      } else if scheme in m {
        var q :| q in before && q.scheme == scheme && q.tsMs == m[scheme].first;
        var r :| r in before && r.scheme == scheme && r.tsMs == m[scheme].last;
        assert q in ps && r in ps;
      }
    }
  }

  // A description is unique, so the index carries exactly this information.
  lemma DescriptionUnique(s: Summary, t: Summary, ps: seq<Parsed>, scheme: string)
    requires Describes(s, ps, scheme) && Describes(t, ps, scheme)
    ensures s == t
  {
  }

  lemma {:induction false} BatchesAreLoadedSummary(ps: seq<Parsed>)
    ensures Batches(ps) == Load(EMPTY, ps).summary
  {
    if ps != [] { BatchesAreLoadedSummary(ps[..|ps| - 1]); }
  }

  // ---------------------------------------------------------------------
  // The table
  // ---------------------------------------------------------------------

  // The i-th message is dropped by ON CONFLICT DO NOTHING: its key was there before.
  ghost predicate DroppedAt(ps: seq<Parsed>, i: nat)
    requires i < |ps|
  {
    exists q :: q in ps[..i] && q.sequence == ps[i].sequence
  }

  predicate SameKey(ps: seq<Parsed>, j: nat, i: nat)
    requires j < |ps| && i < |ps|
  {
    ps[j].sequence == ps[i].sequence
  }

  lemma DroppedAtIff(ps: seq<Parsed>, i: nat)
    requires i < |ps|
    ensures DroppedAt(ps, i) <==> exists j :: 0 <= j < i && SameKey(ps, j, i)
  {
    if DroppedAt(ps, i) {
      var j :| 0 <= j < i && ps[..i][j].sequence == ps[i].sequence;
      assert SameKey(ps, j, i);
    }
    if j :| 0 <= j < i && SameKey(ps, j, i) {
      assert ps[..i][j] in ps[..i];
    }
  }

  // No key is drawn twice.
  ghost predicate Fresh(ps: seq<Parsed>) {
    forall i :: 0 <= i < |ps| ==> !DroppedAt(ps, i)
  }

  // The table holds the rows it held before and, under every other loaded key, a document
  // loaded under that key.
  lemma {:induction false} FactorsHoldLoaded(db: Db, ps: seq<Parsed>, key: string)
    ensures var f := Load(db, ps).factors;
      && (key in f <==> key in db.factors || exists p :: p in ps && p.sequence == key)
      && (key in db.factors ==> f[key] == db.factors[key])
      && (key in f && key !in db.factors ==> exists p :: p in ps && p.sequence == key && p.row == f[key])
  {
    if ps != [] {
      var n := |ps| - 1;
      FactorsHoldLoaded(db, ps[..n], key);
      assert forall q :: q in ps <==> q in ps[..n] || q == ps[n];
    }
  }

  // Every message that is not dropped has its own document in the table, for good.
  lemma {:induction false} FirstDocumentStays(db: Db, ps: seq<Parsed>, i: nat)
    requires i < |ps| && !DroppedAt(ps, i) && ps[i].sequence !in db.factors
    ensures var f := Load(db, ps).factors; ps[i].sequence in f && f[ps[i].sequence] == ps[i].row
  {
    var n := |ps| - 1;
    if i < n {
      assert ps[..n][..i] == ps[..i];
      FirstDocumentStays(db, ps[..n], i);
    } else {
      FactorsHoldLoaded(db, ps[..n], ps[n].sequence);
    }
  }

  // Some document of the table names the factor message as its source.
  ghost predicate HasRow(f: Factors, id: string) {
    exists key :: key in f && f[key].sequenceRaw == Some(id)
  }

  // Some message that names the factor message was not dropped.
  ghost predicate KeptAt(ps: seq<Parsed>, i: nat, id: string)
    requires i < |ps|
  {
    !DroppedAt(ps, i) && ps[i].row.sequenceRaw == Some(id)
  }

  lemma {:induction false} FirstUnderKey(ps: seq<Parsed>, i: nat) returns (first: nat)
    requires i < |ps|
    ensures first <= i && ps[first].sequence == ps[i].sequence && !DroppedAt(ps, first)
  {
    first := i;
    if DroppedAt(ps, i) {
      var j :| 0 <= j < i && ps[j].sequence == ps[i].sequence;
      first := FirstUnderKey(ps, j);
    }
  }

  // A factor message has a row if and only if one of its loaded results was not dropped.
  lemma HasRowIff(ps: seq<Parsed>, id: string)
    ensures HasRow(Load(EMPTY, ps).factors, id) <==> exists i :: 0 <= i < |ps| && KeptAt(ps, i, id)
  {
    var f := Load(EMPTY, ps).factors;
    if HasRow(f, id) {
      var key :| key in f && f[key].sequenceRaw == Some(id);
      FactorsHoldLoaded(EMPTY, ps, key);
      var k :| 0 <= k < |ps| && ps[k].sequence == key;
      var first := FirstUnderKey(ps, k);
      FirstDocumentStays(EMPTY, ps, first);
      assert KeptAt(ps, first, id);
    }
    if i :| 0 <= i < |ps| && KeptAt(ps, i, id) {
      FirstDocumentStays(EMPTY, ps, i);
    }
  }

  // str(scheme) and String(scheme) for the scheme of a document.
  function SchemeText(row: Row): string {
    if row.scheme.Some? then Wire.PrintInt(row.scheme.value) else "NaN"
  }

  ghost function RowsOf(f: Factors, scheme: string): set<string> {
    set k | k in f && SchemeText(f[k]) == scheme
  }

  ghost function Dropped(ps: seq<Parsed>, scheme: string): nat {
    if ps == [] then 0
    else
      var n := |ps| - 1;
      Dropped(ps[..n], scheme) + (if ps[n].scheme == scheme && DroppedAt(ps, n) then 1 else 0)
  }

  // The scheme column of the summary is the printed scheme of the document.
  ghost predicate SchemesAgree(ps: seq<Parsed>) {
    forall p :: p in ps ==> p.scheme == SchemeText(p.row)
  }

  // Different schemes never share a summary row, and NaN shares none with a number.
  lemma SchemesDoNotMix(a: Row, b: Row)
    ensures SchemeText(a) == SchemeText(b) <==> a.scheme == b.scheme
  {
    if a.scheme.Some? { Wire.PrintIntStart(a.scheme.value); }
    if b.scheme.Some? { Wire.PrintIntStart(b.scheme.value); }
    if a.scheme.Some? && b.scheme.Some? && SchemeText(a) == SchemeText(b) {
      Wire.PrintIntInjective(a.scheme.value, b.scheme.value);
    }
  }

  lemma RowsOfInsert(f: Factors, key: string, row: Row, scheme: string)
    requires key !in f
    ensures |RowsOf(f[key := row], scheme)|
      == |RowsOf(f, scheme)| + (if SchemeText(row) == scheme then 1 else 0)
  {
    var added := if SchemeText(row) == scheme then {key} else {};
    assert RowsOf(f[key := row], scheme) == RowsOf(f, scheme) + added;
  }

  // total_count is the number of table rows of the scheme plus the dropped messages.
  lemma {:induction false} CountIsRowsPlusDropped(ps: seq<Parsed>, scheme: string)
    requires SchemesAgree(ps)
    ensures Count(ps, scheme) == |RowsOf(Load(EMPTY, ps).factors, scheme)| + Dropped(ps, scheme)
  {
    if ps != [] {
      var n := |ps| - 1;
      var p := ps[n];
      CountIsRowsPlusDropped(ps[..n], scheme);
      FactorsHoldLoaded(EMPTY, ps[..n], p.sequence);
      var f := Load(EMPTY, ps[..n]).factors;
      assert p in ps;
      if p.sequence !in f {
        RowsOfInsert(f, p.sequence, p.row, scheme);
      }
    }
  }

  lemma {:induction false} FreshDropsNothing(ps: seq<Parsed>, scheme: string)
    requires Fresh(ps)
    ensures Dropped(ps, scheme) == 0
  {
    if ps != [] {
      var n := |ps| - 1;
      assert !DroppedAt(ps, n);
      forall i | 0 <= i < n ensures !DroppedAt(ps[..n], i) {
        assert !DroppedAt(ps, i) && ps[..n][..i] == ps[..i];
      }
      FreshDropsNothing(ps[..n], scheme);
    }
  }

  lemma {:induction false} DroppedIsCounted(ps: seq<Parsed>, i: nat)
    requires i < |ps| && DroppedAt(ps, i)
    ensures Dropped(ps, ps[i].scheme) > 0
  {
    var n := |ps| - 1;
    if i < n {
      assert ps[..n][..i] == ps[..i];
      DroppedIsCounted(ps[..n], i);
    }
  }

  // total_count of a scheme, as SummaryExact gives it, is its number of table rows.
  ghost predicate IndexAgrees(ps: seq<Parsed>, scheme: string) {
    Count(ps, scheme) == |RowsOf(Load(EMPTY, ps).factors, scheme)|
  }

  // The index never counts less than the table holds, and the two agree on every scheme
  // exactly when no key was drawn twice.
  lemma IndexAgreement(ps: seq<Parsed>)
    requires SchemesAgree(ps)
    ensures forall k :: Count(ps, k) >= |RowsOf(Load(EMPTY, ps).factors, k)|
    ensures (forall k :: IndexAgrees(ps, k)) <==> Fresh(ps)
  {
    forall k ensures Count(ps, k) >= |RowsOf(Load(EMPTY, ps).factors, k)| {
      CountIsRowsPlusDropped(ps, k);
    }
    if Fresh(ps) {
      forall k ensures IndexAgrees(ps, k) {
        CountIsRowsPlusDropped(ps, k);
        FreshDropsNothing(ps, k);
      }
    } else {
      var i :| 0 <= i < |ps| && DroppedAt(ps, i);
      CountIsRowsPlusDropped(ps, ps[i].scheme);
      DroppedIsCounted(ps, i);
      assert !IndexAgrees(ps, ps[i].scheme);
    }
  }

  // ---------------------------------------------------------------------
  // Order
  // ---------------------------------------------------------------------

  lemma CountLast(qs: seq<Parsed>, q: Parsed, scheme: string)
    ensures Count(qs + [q], scheme) == Count(qs, scheme) + (if q.scheme == scheme then 1 else 0)
  {
    assert (qs + [q])[..|qs|] == qs;
  }

  lemma {:induction false} CountAppend(ps: seq<Parsed>, qs: seq<Parsed>, scheme: string)
    ensures Count(ps + qs, scheme) == Count(ps, scheme) + Count(qs, scheme)
  {
    if qs == [] {
      assert ps + qs == ps;
    } else {
      var n := |qs| - 1;
      CountAppend(ps, qs[..n], scheme);
      Regroup(ps, qs[..n], [qs[n]]);
      assert qs[..n] + [qs[n]] == qs;
      CountLast(ps + qs[..n], qs[n], scheme);
    }
  }

  lemma CountWithout(before: seq<Parsed>, q: Parsed, after: seq<Parsed>, scheme: string)
    ensures Count(before + [q] + after, scheme)
      == Count(before + after, scheme) + (if q.scheme == scheme then 1 else 0)
  {
    CountAppend(before + [q], after, scheme);
    CountLast(before, q, scheme);
    CountAppend(before, after, scheme);
  }

  lemma {:induction false} CountIsMultiplicity(ps: seq<Parsed>, qs: seq<Parsed>, scheme: string)
    requires multiset(ps) == multiset(qs)
    ensures Count(ps, scheme) == Count(qs, scheme)
  {
    if ps == [] {
      assert |multiset(qs)| == 0;
    } else {
      var n := |ps| - 1;
      var p := ps[n];
      assert ps == ps[..n] + [p];
      assert p in multiset(qs);
      var i :| 0 <= i < |qs| && qs[i] == p;
      var rest := qs[..i] + qs[i + 1..];
      assert qs == qs[..i] + [p] + qs[i + 1..];
      assert multiset(ps[..n]) == multiset(ps) - multiset{p};
      assert multiset(rest) == multiset(qs) - multiset{p};
      CountIsMultiplicity(ps[..n], rest, scheme);
      CountWithout(qs[..i], p, qs[i + 1..], scheme);
    }
  }

  lemma SameElements(ps: seq<Parsed>, qs: seq<Parsed>)
    requires multiset(ps) == multiset(qs)
    ensures forall p :: p in ps <==> p in qs
  {
    forall p ensures p in ps <==> p in qs {
      assert p in ps <==> p in multiset(ps);
      assert p in qs <==> p in multiset(qs);
    }
  }

  lemma BatchesOrderIrrelevant(ps: seq<Parsed>, qs: seq<Parsed>)
    requires multiset(ps) == multiset(qs)
    ensures Batches(ps) == Batches(qs)
  {
    var a, b := Batches(ps), Batches(qs);
    BatchesAreLoadedSummary(ps);
    BatchesAreLoadedSummary(qs);
    SameElements(ps, qs);
    forall k ensures (k in a <==> k in b) && (k in a ==> a[k] == b[k]) {
      SummaryExact(ps, k);
      SummaryExact(qs, k);
      CountIsMultiplicity(ps, qs, k);
      if k in a {
        assert Describes(b[k], ps, k);
        DescriptionUnique(a[k], b[k], ps, k);
      }
    }
  }

  // From any tables, the index does not depend on the order in which the messages arrive.
  lemma SummaryOrderIrrelevant(db: Db, ps: seq<Parsed>, qs: seq<Parsed>)
    requires multiset(ps) == multiset(qs)
    ensures Load(db, ps).summary == Load(db, qs).summary
  {
    BatchIsOneByOne(db, ps);
    BatchIsOneByOne(db, qs);
    BatchesOrderIrrelevant(ps, qs);
  }

  // Messages that share a key which the table does not hold yet carry the same document.
  ghost predicate Coherent(db: Db, ps: seq<Parsed>) {
    forall p, q :: p in ps && q in ps && p.sequence == q.sequence && p.sequence !in db.factors
      ==> p.row == q.row
  }

  lemma FactorsOrderIrrelevant(db: Db, ps: seq<Parsed>, qs: seq<Parsed>)
    requires multiset(ps) == multiset(qs)
    ensures Load(db, ps).factors.Keys == Load(db, qs).factors.Keys
    ensures Coherent(db, ps) ==> Load(db, ps).factors == Load(db, qs).factors
  {
    var a, b := Load(db, ps).factors, Load(db, qs).factors;
    SameElements(ps, qs);
    forall k
      ensures k in a <==> k in b
      ensures Coherent(db, ps) && k in a ==> a[k] == b[k]
    {
      FactorsHoldLoaded(db, ps, k);
      FactorsHoldLoaded(db, qs, k);
    }
    assert a.Keys == b.Keys;
  }

  // Every message set, every split into commits by any number of workers, every commit
  // order, from any tables: the index is always the same, the table always has the same
  // keys, and for coherent messages it has the same documents.
  lemma PartitionIrrelevant(db: Db, ps: seq<Parsed>, bs: seq<seq<Parsed>>)
    requires multiset(Flatten(bs)) == multiset(ps)
    ensures CommitBatches(db, bs).summary == Load(db, ps).summary
    ensures CommitBatches(db, bs).factors.Keys == Load(db, ps).factors.Keys
    ensures Coherent(db, ps) ==> CommitBatches(db, bs) == Load(db, ps)
  {
    CommitPointsIrrelevant(db, bs);
    SummaryOrderIrrelevant(db, ps, Flatten(bs));
    FactorsOrderIrrelevant(db, ps, Flatten(bs));
  }

  // The same messages with the i-th moved to the front.
  function MoveToFront(ps: seq<Parsed>, i: nat): (qs: seq<Parsed>)
    requires i < |ps|
    ensures multiset(qs) == multiset(ps) && qs != [] && qs[0] == ps[i]
  {
    assert ps == ps[..i] + [ps[i]] + ps[i + 1..];
    [ps[i]] + ps[..i] + ps[i + 1..]
  }

  lemma OneCommit(db: Db, ps: seq<Parsed>)
    ensures Flatten([ps]) == ps && CommitBatches(db, [ps]) == Load(db, ps)
  {
    assert [ps][..0] == [] && [] + ps == ps;
    CommitPointsIrrelevant(db, [ps]);
  }

  // Without coherence some order of commits leaves a different table: of two messages
  // that share a new key, the one committed first stays.
  lemma OrderMattersUnlessCoherent(db: Db, ps: seq<Parsed>)
    requires !Coherent(db, ps)
    ensures exists bs :: multiset(Flatten(bs)) == multiset(ps)
                      && CommitBatches(db, bs) != Load(db, ps)
  {
    var p, q :| p in ps && q in ps && p.sequence == q.sequence && p.sequence !in db.factors
             && p.row != q.row;
    FactorsHoldLoaded(db, ps, p.sequence);
    var x := if Load(db, ps).factors[p.sequence] == p.row then q else p;
    var i :| 0 <= i < |ps| && ps[i] == x;
    var order := MoveToFront(ps, i);
    FirstDocumentStays(db, order, 0);
    OneCommit(db, order);
  }

  lemma BatchingTransparentIffCoherent(db: Db, ps: seq<Parsed>)
    ensures Coherent(db, ps) <==>
      forall bs :: multiset(Flatten(bs)) == multiset(ps)
                ==> CommitBatches(db, bs) == Load(db, ps)
  {
    if Coherent(db, ps) {
      forall bs | multiset(Flatten(bs)) == multiset(ps)
        ensures CommitBatches(db, bs) == Load(db, ps)
      {
        PartitionIrrelevant(db, ps, bs);
      }
    } else {
      OrderMattersUnlessCoherent(db, ps);
    }
  }
}
