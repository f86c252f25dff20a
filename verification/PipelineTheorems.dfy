// What the pipeline guarantees in every state of every run.
module PipelineTheorems {
  import opened Wrappers
  import opened Wire
  import opened Divisors
  import opened Process
  import opened Sequences
  import opened Store
  import opened Persist
  import opened Pipeline
  import opened PipelineInvariant
  import Generator
  import Uuid7

  // ---------------------------------------------------------------------
  // Conservation
  // ---------------------------------------------------------------------

  // A message in the result queue, or redriven from it, that names the factor message.
  ghost predicate ResultWaiting(s: State, id: string) {
    exists rid :: InQueue(s.resultQ, rid)
      && Attribute(MessageIn(s.resultQ, rid).attrs, "Sequence") == Some(id)
  }

  // Every committed result of the factor message was dropped: its key had been drawn before.
  ghost predicate AllDropped(committed: seq<Parsed>, id: string) {
    forall i :: 0 <= i < |committed| && committed[i].row.sequenceRaw == Some(id) ==> DroppedAt(committed, i)
  }

  ghost predicate HasCommitted(committed: seq<Parsed>, id: string) {
    exists p :: p in committed && p.row.sequenceRaw == Some(id)
  }

  ghost predicate Accounted(s: State, id: string) {
    InQueue(s.factorQ, id) || ResultWaiting(s, id) || HasRow(s.db.factors, id)
  }

  lemma AnsweredIsAccounted(c: Config, s: State, id: string)
    requires Inv(c, s) && id in s.accepted && Answered(s.sent, id)
    ensures ResultWaiting(s, id) || HasCommitted(s.committed, id)
  {
    var rid :| rid in s.sent && Attribute(s.sent[rid].attrs, "Sequence") == Some(id);
    if InQueue(s.resultQ, rid) {
      assert MessageIn(s.resultQ, rid) == s.sent[rid];
    } else {
      var p :| p in s.committed && p.receipt == rid;
      assert ParsedOk(c.dialect, s.accepted, s.sent, p);
    }
  }

  // Nothing that the factor queue accepted is lost on the way to a commit, in any
  // interleaving, with any crashes, expiries, partial failures and redeliveries.
  lemma Conservation(c: Config, states: seq<State>, steps: seq<Step>, i: nat, id: string)
    requires IsRun(c, states, steps) && i <= |steps| && id in states[i].accepted
    ensures var s := states[i];
      InQueue(s.factorQ, id) || ResultWaiting(s, id) || HasCommitted(s.committed, id)
  {
    InvariantHolds(c, states, steps, i);
    var s := states[i];
    if !InQueue(s.factorQ, id) {
      AnsweredIsAccounted(c, s, id);
    }
  }

  lemma NoRowIff(committed: seq<Parsed>, id: string)
    ensures !HasRow(Load(EMPTY, committed).factors, id) <==> AllDropped(committed, id)
  {
    HasRowIff(committed, id);
    if !AllDropped(committed, id) {
      var i :| 0 <= i < |committed| && committed[i].row.sequenceRaw == Some(id) && !DroppedAt(committed, i);
      assert KeptAt(committed, i, id);
    }
  }

  // Exactly these accepted messages are unaccounted for: out of the factor queue, with no
  // result waiting, and every committed result dropped on a key drawn before. There is then
  // at least one such result.
  lemma LostIff(c: Config, states: seq<State>, steps: seq<Step>, i: nat, id: string)
    requires IsRun(c, states, steps) && i <= |steps| && id in states[i].accepted
    ensures var s := states[i];
      && (!Accounted(s, id) <==>
            !InQueue(s.factorQ, id) && !ResultWaiting(s, id) && AllDropped(s.committed, id))
      && (!Accounted(s, id) ==> HasCommitted(s.committed, id))
  {
    InvariantHolds(c, states, steps, i);
    Conservation(c, states, steps, i, id);
    NoRowIff(states[i].committed, id);
  }

  // With fresh keys nothing is unaccounted for.
  lemma ConservationWithFreshKeys(c: Config, states: seq<State>, steps: seq<Step>, i: nat, id: string)
    requires IsRun(c, states, steps) && i <= |steps| && id in states[i].accepted
    requires Fresh(states[i].committed)
    ensures Accounted(states[i], id)
  {
    LostIff(c, states, steps, i, id);
  }

  // The accepted message that a committed one came from.
  ghost predicate ComesFrom(s: State, p: Parsed, src: Message, draw: Uuid7.Draw) {
    && p.row.sequenceRaw == Some(src.id)
    && src.id in s.accepted && s.accepted[src.id] == src
    && draw.Valid() && p.sequence == Uuid7.Generate(src.sentAtMs, draw)
  }

  lemma CommittedComesFrom(c: Config, s: State, p: Parsed) returns (src: Message, draw: Uuid7.Draw)
    requires Inv(c, s) && p in s.committed
    ensures ComesFrom(s, p, src, draw)
  {
    assert ParsedOk(c.dialect, s.accepted, s.sent, p);
    src := s.accepted[s.sent[p.receipt].attrs["Sequence"]];
    draw :| draw.Valid() && p.sequence == Uuid7.Generate(src.sentAtMs, draw);
  }

  // q repeats the timestamp field and both draws of p.
  ghost predicate RepeatsDraw(s: State, p: Parsed, q: Parsed) {
    exists src, src', draw ::
      ComesFrom(s, p, src, draw) && ComesFrom(s, q, src', draw)
      && src.sentAtMs % Uuid7.TWO_48 == src'.sentAtMs % Uuid7.TWO_48
  }

  lemma SameKeyIff(c: Config, s: State, p: Parsed, q: Parsed)
    requires Inv(c, s) && p in s.committed && q in s.committed
    ensures p.sequence == q.sequence <==> RepeatsDraw(s, p, q)
  {
    var a, x := CommittedComesFrom(c, s, p);
    var b, y := CommittedComesFrom(c, s, q);
    Uuid7.KeysCollideOnlyOnEqualFields(a.sentAtMs, x, b.sentAtMs, y);
    if RepeatsDraw(s, p, q) {
      var src, src', draw :| ComesFrom(s, p, src, draw) && ComesFrom(s, q, src', draw)
        && src.sentAtMs % Uuid7.TWO_48 == src'.sentAtMs % Uuid7.TWO_48;
      Uuid7.KeysCollideOnlyOnEqualFields(src.sentAtMs, draw, src'.sentAtMs, draw);
    }
  }

  // A committed message is dropped if and only if an earlier one came from a message with
  // the same timestamp field and drew the same random bits.
  lemma DroppedIffDrawRepeats(c: Config, states: seq<State>, steps: seq<Step>, i: nat, k: nat)
    requires IsRun(c, states, steps) && i <= |steps| && k < |states[i].committed|
    ensures var s := states[i];
      DroppedAt(s.committed, k) <==>
        exists j :: 0 <= j < k && RepeatsDraw(s, s.committed[j], s.committed[k])
  {
    InvariantHolds(c, states, steps, i);
    var s := states[i];
    DroppedAtIff(s.committed, k);
    forall j | 0 <= j < k
      ensures SameKey(s.committed, j, k) <==> RepeatsDraw(s, s.committed[j], s.committed[k])
    {
      SameKeyIff(c, s, s.committed[j], s.committed[k]);
    }
  }

  // When both queues and their dead-letter parts are empty, every accepted message has its row.
  lemma DrainedIsComplete(c: Config, states: seq<State>, steps: seq<Step>, i: nat)
    requires IsRun(c, states, steps) && i <= |steps| && Fresh(states[i].committed)
    requires states[i].factorQ == Queue(map[], map[]) && states[i].resultQ == Queue(map[], map[])
    ensures forall id :: id in states[i].accepted ==> HasRow(states[i].db.factors, id)
  {
    forall id | id in states[i].accepted ensures HasRow(states[i].db.factors, id) {
      ConservationWithFreshKeys(c, states, steps, i, id);
    }
  }

  // A message whose handling raises never leaves the factor queue except for its dead-letter
  // queue.
  lemma UnreadableIsKept(c: Config, states: seq<State>, steps: seq<Step>, i: nat, id: string)
    requires IsRun(c, states, steps) && i <= |steps| && id in states[i].accepted
    requires !Readable(c.dialect, states[i].accepted[id])
    ensures InQueue(states[i].factorQ, id)
  {
    InvariantHolds(c, states, steps, i);
    var s := states[i];
    assert forall rid :: rid in s.sent ==> Answers(c.dialect, s.accepted, s.sent[rid].attrs);
  }

  lemma AcceptedStep(c: Config, s: State, a: Step, msg: Message)
    requires Enabled(c, s, a)
    ensures var s' := Apply(c, s, a);
      (msg.id in s'.accepted && s'.accepted[msg.id] == msg) <==>
        (msg.id in s.accepted && s.accepted[msg.id] == msg) || a == Accept(msg)
  {
    if !a.Accept? {
      assert Apply(c, s, a).accepted == s.accepted;
    }
  }

  lemma StepOfRun(c: Config, states: seq<State>, steps: seq<Step>, i: nat)
    requires IsRun(c, states, steps) && i < |steps|
    ensures Inv(c, states[i]) && Enabled(c, states[i], steps[i])
    ensures states[i + 1] == Apply(c, states[i], steps[i])
  {
    InvariantHolds(c, states, steps, i);
    assert StepAt(c, states, steps, i);
  }

  // The history names exactly the messages that some earlier step put into the factor queue.
  lemma {:induction false} AcceptedIffAcceptStep(c: Config, states: seq<State>, steps: seq<Step>, i: nat,
                                                 msg: Message)
    requires IsRun(c, states, steps) && i <= |steps|
    ensures (msg.id in states[i].accepted && states[i].accepted[msg.id] == msg)
      <==> exists j :: 0 <= j < i && steps[j] == Accept(msg)
  {
    if i > 0 {
      AcceptedIffAcceptStep(c, states, steps, i - 1, msg);
      StepOfRun(c, states, steps, i - 1);
      AcceptedStep(c, states[i - 1], steps[i - 1], msg);
    }
  }

  // ---------------------------------------------------------------------
  // Payload
  // ---------------------------------------------------------------------

  // The row stored under key came from the factor message src.
  ghost predicate SourcedRow(key: string, row: Row, src: Message) {
    && row.sequenceRaw == Some(src.id)
    && exists draw: Uuid7.Draw :: draw.Valid() && key == Uuid7.Generate(src.sentAtMs, draw)
  }

  // It holds the numbers that src spells and exactly the proper divisors of its factor.
  ghost predicate CorrectRow(d: Dialect, row: Row, src: Message) {
    && row.factor.Some? && IntAttribute(d, src.attrs, "Factor") == Some(Number(row.factor.value))
    && row.scheme.Some? && IntAttribute(d, src.attrs, "Scheme") == Some(Number(row.scheme.value))
    && row.result == ProperDivisors(row.factor.value)
  }

  function SourceOf(s: State, row: Row): Message
    requires row.sequenceRaw.Some? && row.sequenceRaw.value in s.accepted
  {
    s.accepted[row.sequenceRaw.value]
  }

  lemma RowHolds(c: Config, states: seq<State>, steps: seq<Step>, i: nat, key: string)
    requires IsRun(c, states, steps) && i <= |steps| && key in states[i].db.factors
    ensures var s, row := states[i], states[i].db.factors[key];
      && row.sequenceRaw.Some? && row.sequenceRaw.value in s.accepted
      && SourcedRow(key, row, SourceOf(s, row))
      && Readable(c.dialect, SourceOf(s, row))
      && row.factor == Stored(Factor(c.dialect, SourceOf(s, row)))
      && row.scheme == Stored(Scheme(c.dialect, SourceOf(s, row)))
      && row.result == FactorList(Factor(c.dialect, SourceOf(s, row)))
  {
    InvariantHolds(c, states, steps, i);
    var s := states[i];
    FactorsHoldLoaded(EMPTY, s.committed, key);
    var p :| p in s.committed && p.sequence == key && p.row == s.db.factors[key];
    assert ParsedOk(c.dialect, s.accepted, s.sent, p);
  }

  // Every row comes from an accepted message under a key of its send time. It is correct if
  // and only if both texts of that message spell numbers: in Python always, in TypeScript when
  // they start with one. A factor text that does not is stored as null, with no divisors.
  lemma EveryRowIsCorrectIff(c: Config, states: seq<State>, steps: seq<Step>, i: nat, key: string)
    requires IsRun(c, states, steps) && i <= |steps| && key in states[i].db.factors
    ensures var s, row, d := states[i], states[i].db.factors[key], c.dialect;
      && row.sequenceRaw.Some? && row.sequenceRaw.value in s.accepted
      && var src := SourceOf(s, row);
        && SourcedRow(key, row, src)
        && "Factor" in src.attrs && "Scheme" in src.attrs
        && (CorrectRow(d, row, src) <==>
              SpellsNumber(d, src.attrs["Factor"]) && SpellsNumber(d, src.attrs["Scheme"]))
        && (d.Python? ==> CorrectRow(d, row, src))
        && (!SpellsNumber(d, src.attrs["Factor"]) ==> row.factor == None && row.result == [])
        && (!SpellsNumber(d, src.attrs["Scheme"]) ==> row.scheme == None)
  {
    RowHolds(c, states, steps, i, key);
    var src := SourceOf(states[i], states[i].db.factors[key]);
    ReadsNumberIff(c.dialect, src.attrs["Factor"]);
    ReadsNumberIff(c.dialect, src.attrs["Scheme"]);
  }

  // What the generator sends is read as the numbers it printed, in both dialects.
  lemma GeneratedIsRead(d: Dialect, m: Message, e: Generator.Entry, runtime: string)
    requires m.attrs == Generator.Attributes(e, runtime)
    ensures Readable(d, m) && Factor(d, m) == Number(e.factor) && Scheme(d, m) == Number(e.scheme)
  {
    ReadPrinted(d, e.factor);
    ReadPrinted(d, e.scheme);
  }

  // So every row of a generated message is correct, in both dialects.
  lemma GeneratedRowsAreCorrect(c: Config, states: seq<State>, steps: seq<Step>, i: nat, key: string,
                                id: string, e: Generator.Entry, runtime: string)
    requires IsRun(c, states, steps) && i <= |steps| && key in states[i].db.factors
    requires states[i].db.factors[key].sequenceRaw == Some(id) && id in states[i].accepted
    requires states[i].accepted[id].attrs == Generator.Attributes(e, runtime)
    ensures var row := states[i].db.factors[key];
      && row.factor == Some(e.factor) && row.scheme == Some(e.scheme)
      && row.result == ProperDivisors(e.factor)
      && CorrectRow(c.dialect, row, states[i].accepted[id])
  {
    RowHolds(c, states, steps, i, key);
    GeneratedIsRead(c.dialect, states[i].accepted[id], e, runtime);
  }

  // However often a message was delivered, all its rows tell the same result.
  lemma RedeliveryRepeatsResult(c: Config, states: seq<State>, steps: seq<Step>, i: nat,
                                k1: string, k2: string)
    requires IsRun(c, states, steps) && i <= |steps|
    requires k1 in states[i].db.factors && k2 in states[i].db.factors
    requires states[i].db.factors[k1].sequenceRaw == states[i].db.factors[k2].sequenceRaw
    ensures var r1, r2 := states[i].db.factors[k1], states[i].db.factors[k2];
      r1.factor == r2.factor && r1.scheme == r2.scheme && r1.result == r2.result
  {
    RowHolds(c, states, steps, i, k1);
    RowHolds(c, states, steps, i, k2);
  }

  // The rows that the report selects are those whose factor is a prime number.
  lemma ReportSelectsPrimes(c: Config, states: seq<State>, steps: seq<Step>, i: nat, key: string)
    requires IsRun(c, states, steps) && i <= |steps| && key in states[i].db.factors
    ensures var row := states[i].db.factors[key];
      |row.result| == 1 <==> row.factor.Some? && IsPrime(row.factor.value)
  {
    RowHolds(c, states, steps, i, key);
    var row := states[i].db.factors[key];
    if row.factor.Some? { LengthOneIffPrime(row.factor.value); }
  }

  // Rows of messages sent in different milliseconds of one 2^48 window sort in send order.
  lemma RowsSortInSendOrder(c: Config, states: seq<State>, steps: seq<Step>, i: nat,
                            k1: string, k2: string, id1: string, id2: string)
    requires IsRun(c, states, steps) && i <= |steps|
    requires k1 in states[i].db.factors && states[i].db.factors[k1].sequenceRaw == Some(id1)
    requires k2 in states[i].db.factors && states[i].db.factors[k2].sequenceRaw == Some(id2)
    requires id1 in states[i].accepted && id2 in states[i].accepted
    requires var t1, t2 := states[i].accepted[id1].sentAtMs, states[i].accepted[id2].sentAtMs;
      t1 < t2 && t1 / Uuid7.TWO_48 == t2 / Uuid7.TWO_48
    ensures Uuid7.LexLess(k1, k2)
  {
    RowHolds(c, states, steps, i, k1);
    RowHolds(c, states, steps, i, k2);
    var t1, t2 := states[i].accepted[id1].sentAtMs, states[i].accepted[id2].sentAtMs;
    var d1: Uuid7.Draw :| d1.Valid() && k1 == Uuid7.Generate(t1, d1);
    var d2: Uuid7.Draw :| d2.Valid() && k2 == Uuid7.Generate(t2, d2);
    Uuid7.KeysSortByTime(t1, d1, t2, d2);
  }

  // ---------------------------------------------------------------------
  // The summary index
  // ---------------------------------------------------------------------

  function TotalCount(db: Db, scheme: string): int {
    if scheme in db.summary then db.summary[scheme].count else 0
  }

  ghost predicate CountsMatch(db: Db, scheme: string) {
    TotalCount(db, scheme) == |RowsOf(db.factors, scheme)|
  }

  lemma CommittedSchemesAgree(c: Config, s: State)
    requires Inv(c, s)
    ensures SchemesAgree(s.committed)
  {
    forall p | p in s.committed ensures p.scheme == SchemeText(p.row) {
      assert ParsedOk(c.dialect, s.accepted, s.sent, p);
    }
  }

  // In every state and for every scheme the summary row holds the number, the minimum and
  // the maximum of the timestamps of the committed messages, never counts less than the
  // table holds, and counts exactly the table's rows if and only if no key collided.
  lemma IndexAgreesInEveryState(c: Config, states: seq<State>, steps: seq<Step>, i: nat)
    requires IsRun(c, states, steps) && i <= |steps|
    ensures var s := states[i];
      && (forall k :: k in s.db.summary ==> Describes(s.db.summary[k], s.committed, k))
      && (forall k :: TotalCount(s.db, k) >= |RowsOf(s.db.factors, k)|)
      && ((forall k :: CountsMatch(s.db, k)) <==> Fresh(s.committed))
  {
    InvariantHolds(c, states, steps, i);
    var s := states[i];
    CommittedSchemesAgree(c, s);
    IndexAgreement(s.committed);
    forall k
      ensures k in s.db.summary ==> Describes(s.db.summary[k], s.committed, k)
      ensures TotalCount(s.db, k) == Count(s.committed, k)
      ensures CountsMatch(s.db, k) <==> IndexAgrees(s.committed, k)
    {
      SummaryExact(s.committed, k);
    }
    if forall k :: CountsMatch(s.db, k) {
      forall k ensures IndexAgrees(s.committed, k) { assert CountsMatch(s.db, k); }
    }
    if forall k :: IndexAgrees(s.committed, k) {
      forall k ensures CountsMatch(s.db, k) { assert IndexAgrees(s.committed, k); }
    }
  }

  // ---------------------------------------------------------------------
  // Deletes come last
  // ---------------------------------------------------------------------

  ghost predicate SendsIn(d: Dialect, accepted: map<string, Message>, sends: seq<SendEntry>,
                          failed: set<string>, id: string)
  {
    exists k :: 0 <= k < |sends| && sends[k].id !in failed
      && Answers(d, accepted, sends[k].attrs) && sends[k].attrs["Sequence"] == id
  }

  // The step sends a result that answers the factor message, and it is not reported Failed.
  ghost predicate SendsResultOf(c: Config, s: State, a: Step, id: string) {
    && a.ReceiverSend? && Enabled(c, s, a)
    && SendsIn(c.dialect, s.accepted, s.receivers[a.r].sends, a.failed, id)
  }

  // The step commits a parsed message of the result message.
  ghost predicate Commits(c: Config, s: State, a: Step, receipt: string) {
    && a.WorkerCommit? && Enabled(c, s, a)
    && exists p :: p in s.workers[a.w].buffer && p.receipt == receipt
  }

  lemma DeliveredWasSent(d: Dialect, a: map<string, Message>, t: map<string, Message>, me: Receiver,
                         failed: set<string>, ids: seq<string>, now: nat, rid: string, id: string)
    requires me.Sending? && ReceiverOk(d, a, t, me) && |ids| == |me.sends| && Distinct(ids)
    requires rid in Delivered(me.sends, failed, ids, now, |ids|)
    requires Attribute(Delivered(me.sends, failed, ids, now, |ids|)[rid].attrs, "Sequence") == Some(id)
    ensures SendsIn(d, a, me.sends, failed, id)
  {
    DeliveredExact(me.sends, failed, ids, now, |ids|);
    var m := Delivered(me.sends, failed, ids, now, |ids|)[rid];
    var k :| 0 <= k < |ids| && ids[k] == rid && me.sends[k].id !in failed
          && m == Message(rid, me.sends[k].attrs, now);
    assert Answers(d, a, me.sends[k].attrs);
  }

  lemma OnlySendsSend(c: Config, s: State, a: Step, rid: string)
    requires Enabled(c, s, a) && rid !in s.sent && rid in Apply(c, s, a).sent
    ensures a.ReceiverSend?
  {
  }

  lemma NewlySent(c: Config, s: State, a: Step, rid: string, id: string)
    requires Inv(c, s) && Enabled(c, s, a)
    requires rid !in s.sent && rid in Apply(c, s, a).sent
    requires Attribute(Apply(c, s, a).sent[rid].attrs, "Sequence") == Some(id)
    ensures SendsResultOf(c, s, a, id)
  {
    OnlySendsSend(c, s, a, rid);
    var me := s.receivers[a.r];
    assert ReceiverOk(c.dialect, s.accepted, s.sent, me);
    DeliveredWasSent(c.dialect, s.accepted, s.sent, me, a.failed, a.ids, a.now, rid, id);
  }

  lemma {:induction false} DeliveredIds(sends: seq<SendEntry>, failed: set<string>, ids: seq<string>,
                                        now: nat, k: nat)
    requires k <= |sends| == |ids|
    ensures forall id :: id in Delivered(sends, failed, ids, now, k) ==> id in ids
  {
    if k > 0 { DeliveredIds(sends, failed, ids, now, k - 1); }
  }

  lemma SentStays(c: Config, s: State, a: Step, rid: string)
    requires Enabled(c, s, a) && rid in s.sent
    ensures rid in Apply(c, s, a).sent && Apply(c, s, a).sent[rid] == s.sent[rid]
  {
    if a.ReceiverSend? {
      DeliveredIds(s.receivers[a.r].sends, a.failed, a.ids, a.now, |a.ids|);
    }
  }

  // A result message was there before the step, or the step sent it.
  lemma SentStep(c: Config, s: State, a: Step, s': State, rid: string, id: string)
    requires Inv(c, s) && Enabled(c, s, a) && s' == Apply(c, s, a)
    requires rid in s'.sent && Attribute(s'.sent[rid].attrs, "Sequence") == Some(id)
    ensures (rid in s.sent && s.sent[rid] == s'.sent[rid]) || SendsResultOf(c, s, a, id)
  {
    if rid in s.sent {
      SentStays(c, s, a, rid);
    } else {
      NewlySent(c, s, a, rid, id);
    }
  }

  lemma SentStepOfRun(c: Config, states: seq<State>, steps: seq<Step>, i: nat, rid: string, id: string)
    requires IsRun(c, states, steps) && i < |steps|
    requires rid in states[i + 1].sent
    requires Attribute(states[i + 1].sent[rid].attrs, "Sequence") == Some(id)
    ensures (rid in states[i].sent && states[i].sent[rid] == states[i + 1].sent[rid])
         || SendsResultOf(c, states[i], steps[i], id)
  {
    StepOfRun(c, states, steps, i);
    SentStep(c, states[i], steps[i], states[i + 1], rid, id);
  }

  lemma {:induction false} SentWasSent(c: Config, states: seq<State>, steps: seq<Step>, i: nat,
                                       rid: string, id: string)
    requires IsRun(c, states, steps) && i <= |steps|
    requires rid in states[i].sent && Attribute(states[i].sent[rid].attrs, "Sequence") == Some(id)
    ensures exists j :: 0 <= j < i && SendsResultOf(c, states[j], steps[j], id)
  {
    if i > 0 {
      SentStepOfRun(c, states, steps, i - 1, rid, id);
      if !SendsResultOf(c, states[i - 1], steps[i - 1], id) {
        SentWasSent(c, states, steps, i - 1, rid, id);
      }
    }
  }

  // The entries of a step's delete request to the factor queue.
  function FactorDeletes(s: State, a: Step): seq<DeleteEntry> {
    if a.ReceiverDelete? && a.r in s.receivers && s.receivers[a.r].Deleting?
    then s.receivers[a.r].deletes else []
  }

  // The receipts of a step's delete request to the result queue.
  function ResultDeletes(s: State, a: Step): seq<string> {
    if a.WorkerDelete? && a.w in s.workers && s.workers[a.w].Clearing?
    then Chunk(s.workers[a.w].receipts) else []
  }

  // Every delete request to the factor queue comes after a send, not reported Failed, of a
  // result that answers the deleted message.
  lemma FactorDeleteFollowsSend(c: Config, states: seq<State>, steps: seq<Step>, i: nat, e: DeleteEntry)
    requires IsRun(c, states, steps) && i < |steps|
    requires e in FactorDeletes(states[i], steps[i])
    ensures exists j :: 0 <= j < i && SendsResultOf(c, states[j], steps[j], e.receipt)
  {
    InvariantHolds(c, states, steps, i);
    var s := states[i];
    assert ReceiverOk(c.dialect, s.accepted, s.sent, s.receivers[steps[i].r]);
    var rid :| rid in s.sent && Attribute(s.sent[rid].attrs, "Sequence") == Some(e.receipt);
    SentWasSent(c, states, steps, i, rid, e.receipt);
  }

  lemma CommittedStep(c: Config, s: State, a: Step, p: Parsed)
    requires Enabled(c, s, a) && p in Apply(c, s, a).committed
    ensures p in s.committed || Commits(c, s, a, p.receipt)
  {
    if p !in s.committed {
      assert a.WorkerCommit?;
      assert p in s.workers[a.w].buffer;
    }
  }

  lemma {:induction false} CommittedWasCommitted(c: Config, states: seq<State>, steps: seq<Step>,
                                                 i: nat, p: Parsed)
    requires IsRun(c, states, steps) && i <= |steps| && p in states[i].committed
    ensures exists j :: 0 <= j < i && Commits(c, states[j], steps[j], p.receipt)
  {
    if i > 0 {
      assert StepAt(c, states, steps, i - 1);
      CommittedStep(c, states[i - 1], steps[i - 1], p);
      if !Commits(c, states[i - 1], steps[i - 1], p.receipt) {
        CommittedWasCommitted(c, states, steps, i - 1, p);
      }
    }
  }

  // Every delete request to the result queue comes after the commit of that message.
  lemma ResultDeleteFollowsCommit(c: Config, states: seq<State>, steps: seq<Step>, i: nat, receipt: string)
    requires IsRun(c, states, steps) && i < |steps|
    requires receipt in ResultDeletes(states[i], steps[i])
    ensures exists j :: 0 <= j < i && Commits(c, states[j], steps[j], receipt)
  {
    InvariantHolds(c, states, steps, i);
    var s := states[i];
    assert WorkerOk(c.dialect, s.accepted, s.sent, s.committed, s.workers[steps[i].w]);
    ChunkSplits(s.workers[steps[i].w].receipts);
    var p :| p in s.committed && p.receipt == receipt;
    CommittedWasCommitted(c, states, steps, i, p);
  }
}
