// Without a second hand-out of any message, nothing is done twice: in such a run every
// accepted message has at most one result and at most one row.
module PipelineOnce {
  import opened Wrappers
  import opened Wire
  import opened Process
  import opened Sequences
  import opened Store
  import opened Persist
  import opened Pipeline
  import opened PipelineInvariant
  import opened PipelineTheorems

  // ---------------------------------------------------------------------
  // Custody of the messages of one queue
  // ---------------------------------------------------------------------

  // The message cannot be received: it is in flight, or not in the queue.
  ghost predicate Away(q: Queue, id: string) {
    id in q.slots ==> q.slots[id].inFlight
  }

  // The ids that each process holds, and the ids of the messages already worked off, each
  // under a key of its own.
  type Held = map<nat, seq<string>>

  ghost predicate HeldOnce(held: Held) {
    && (forall r :: r in held ==> Distinct(held[r]))
    && (forall r, r', x :: r in held && r' in held && x in held[r] && x in held[r'] ==> r == r')
  }

  ghost predicate SpentOnce<K(!new)>(spent: map<K, string>) {
    forall k, k' :: k in spent && k' in spent && spent[k] == spent[k'] ==> k == k'
  }

  ghost predicate IsHeld(held: Held, id: string) {
    exists r :: r in held && id in held[r]
  }

  ghost predicate IsSpent<K(!new)>(spent: map<K, string>, id: string) {
    exists k :: k in spent && spent[k] == id
  }

  // Every message out of the queue is with one process or worked off, once.
  ghost predicate Custody<K(!new)>(q: Queue, held: Held, spent: map<K, string>) {
    && HeldOnce(held) && SpentOnce(spent)
    && (forall id :: IsHeld(held, id) ==> Away(q, id) && !IsSpent(spent, id))
    && (forall id :: IsSpent(spent, id) ==> Away(q, id))
  }

  lemma QueueMoves<K(!new)>(q: Queue, q': Queue, held: Held, spent: map<K, string>)
    requires Custody(q, held, spent)
    requires forall id :: (IsHeld(held, id) || IsSpent(spent, id)) && Away(q, id) ==> Away(q', id)
    ensures Custody(q', held, spent)
  {
  }

  lemma QueueShrinks<K(!new)>(q: Queue, q': Queue, held: Held, spent: map<K, string>)
    requires Custody(q, held, spent)
    requires forall id :: id in q'.slots ==> id in q.slots && q'.slots[id] == q.slots[id]
    ensures Custody(q', held, spent)
  {
    QueueMoves(q, q', held, spent);
  }

  lemma QueueGrows<K(!new)>(q: Queue, ms: map<string, Message>, held: Held, spent: map<K, string>)
    requires Custody(q, held, spent)
    requires forall id :: id in ms ==> !IsHeld(held, id) && !IsSpent(spent, id)
    ensures Custody(Enqueue(q, ms), held, spent)
  {
    forall id | (IsHeld(held, id) || IsSpent(spent, id)) && Away(q, id)
      ensures Away(Enqueue(q, ms), id)
    {
      assert id !in ms;
    }
    QueueMoves(q, Enqueue(q, ms), held, spent);
  }

  ghost predicate Within(ids: seq<string>, all: seq<string>) {
    Distinct(ids) && forall x :: x in ids ==> x in all
  }

  // A process starts with nothing or goes on with some of what it holds.
  lemma HoldsLess<K(!new)>(q: Queue, held: Held, spent: map<K, string>, r: nat, ids: seq<string>)
    requires Custody(q, held, spent) && Within(ids, if r in held then held[r] else [])
    ensures Custody(q, held[r := ids], spent)
  {
    var held' := held[r := ids];
    forall id | IsHeld(held', id) ensures IsHeld(held, id) {
      var x :| x in held' && id in held'[x];
      assert x in held && id in held[x];
    }
  }

  lemma Stops<K(!new)>(q: Queue, held: Held, spent: map<K, string>, r: nat)
    requires Custody(q, held, spent)
    ensures Custody(q, held - {r}, spent)
  {
    forall id | IsHeld(held - {r}, id) ensures IsHeld(held, id) {
      var x :| x in held - {r} && id in (held - {r})[x];
      assert x in held && id in held[x];
    }
  }

  lemma JoinDistinct(a: seq<string>, b: seq<string>)
    requires Distinct(a) && Distinct(b) && forall x :: x in b ==> x !in a
    ensures Distinct(a + b)
  {
    forall i, j | 0 <= i < j < |a + b| ensures (a + b)[i] != (a + b)[j] {
      if i < |a| <= j { assert b[j - |a|] in b; }
    }
  }

  lemma MoreHeldOnce(held: Held, r: nat, ids: seq<string>)
    requires HeldOnce(held) && r in held && Distinct(held[r] + ids)
    requires forall x :: x in ids ==> !IsHeld(held, x)
    ensures HeldOnce(held[r := held[r] + ids])
  {
    forall a, x | a in held && x in held[a] ensures x !in ids {
      assert IsHeld(held, x);
    }
  }

  // A process receives distinct visible messages.
  lemma HoldsMore<K(!new)>(q: Queue, max: Option<nat>, held: Held, spent: map<K, string>, r: nat,
                           ids: seq<string>)
    requires Custody(q, held, spent) && r in held && Distinct(ids) && CanReceive(q, max, ids)
    ensures Custody(Receive(q, ids), held[r := held[r] + ids], spent)
  {
    var q', held' := Receive(q, ids), held[r := held[r] + ids];
    forall x | x in ids ensures !IsHeld(held, x) && !IsSpent(spent, x) { assert !Away(q, x); }
    forall x | x in ids ensures x !in held[r] { assert !IsHeld(held, x); }
    JoinDistinct(held[r], ids);
    forall id | IsHeld(held', id) ensures (IsHeld(held, id) || id in ids) {
      var x :| x in held' && id in held'[x];
      if id !in ids { assert x in held && id in held[x]; }
    }
    assert forall id :: Away(q, id) || id in ids ==> Away(q', id);
    MoreHeldOnce(held, r, ids);
  }

  lemma SpentTogether<K(!new)>(spent: map<K, string>, more: map<K, string>)
    requires SpentOnce(spent) && SpentOnce(more)
    requires forall k :: k in more ==> k !in spent && !IsSpent(spent, more[k])
    ensures SpentOnce(spent + more)
  {
    forall k, k' | k in spent && k' in more ensures spent[k] != more[k'] {
      assert IsSpent(spent, spent[k]);
    }
  }

  // A process works off some of what it holds and forgets the rest.
  lemma Spends<K(!new)>(q: Queue, held: Held, spent: map<K, string>, r: nat, more: map<K, string>)
    requires Custody(q, held, spent) && r in held && SpentOnce(more)
    requires forall k :: k in more ==> k !in spent && more[k] in held[r]
    ensures Custody(q, held[r := []], spent + more)
  {
    HoldsLess(q, held, spent, r, []);
    var held', spent' := held[r := []], spent + more;
    forall id | IsSpent(spent', id) ensures IsSpent(spent, id) || id in held[r] {
      var k :| k in spent' && spent'[k] == id;
      if k in more { assert more[k] == id; } else { assert spent[k] == id; }
    }
    forall id | id in held[r] ensures IsHeld(held, id) && !IsHeld(held', id) {
    }
    SpentTogether(spent, more);
  }

  // ---------------------------------------------------------------------
  // Who holds what in the pipeline
  // ---------------------------------------------------------------------

  // The factor messages that a receiver has not answered yet, and the result messages that a
  // worker has not committed yet.
  function FactorHeld(me: Receiver): seq<string> {
    match me
    case Holding(batch) => Ids(batch)
    case Sending(_, deletes) => EntryReceipts(deletes)
    case _ => []
  }

  function ResultHeld(me: Persister): seq<string> {
    match me
    case Waiting(buffer) => Receipts(buffer)
    case Parsing(buffer, batch) => Receipts(buffer) + Ids(batch)
    case Committing(buffer) => Receipts(buffer)
    case _ => []
  }

  function FactorHolds(receivers: map<nat, Receiver>): Held {
    map r | r in receivers :: FactorHeld(receivers[r])
  }

  function ResultHolds(workers: map<nat, Persister>): Held {
    map w | w in workers :: ResultHeld(workers[w])
  }

  // The factor message that each result message names, and the result message behind each
  // committed one.
  function AnswersOf(sent: map<string, Message>): map<string, string> {
    map rid | rid in sent ::
      if "Sequence" in sent[rid].attrs then sent[rid].attrs["Sequence"] else ""
  }

  function RecordOf(committed: seq<Parsed>): map<nat, string> {
    map i: nat | i < |committed| :: committed[i].receipt
  }

  ghost predicate FactorCustody(s: State) {
    Custody(s.factorQ, FactorHolds(s.receivers), AnswersOf(s.sent))
  }

  ghost predicate ResultCustody(s: State) {
    Custody(s.resultQ, ResultHolds(s.workers), RecordOf(s.committed))
  }

  ghost predicate Once(s: State) {
    FactorCustody(s) && ResultCustody(s)
  }

  // The step hands no message out that was handed out before.
  predicate HandsOutOnce(a: Step) {
    match a
    case FactorExpire(_) => false
    case ResultExpire(_) => false
    case ReceiverPoll(_, ids) => Distinct(ids)
    case WorkerPoll(_, ids) => Distinct(ids)
    case _ => true
  }

  lemma FactorHoldsSet(receivers: map<nat, Receiver>, r: nat, me: Receiver)
    ensures FactorHolds(receivers[r := me]) == FactorHolds(receivers)[r := FactorHeld(me)]
    ensures FactorHolds(receivers - {r}) == FactorHolds(receivers) - {r}
  {
  }

  lemma ResultHoldsSet(workers: map<nat, Persister>, w: nat, me: Persister)
    ensures ResultHolds(workers[w := me]) == ResultHolds(workers)[w := ResultHeld(me)]
    ensures ResultHolds(workers - {w}) == ResultHolds(workers) - {w}
  {
  }

  // Only accepted messages are held or answered.
  lemma FactorHeldIsAccepted(d: Dialect, accepted: map<string, Message>, sent: map<string, Message>,
                             me: Receiver, id: string)
    requires ReceiverOk(d, accepted, sent, me) && id in FactorHeld(me)
    ensures id in accepted
  {
    var i :| 0 <= i < |FactorHeld(me)| && FactorHeld(me)[i] == id;
    match me {
      case Holding(batch) => assert batch[i] in batch;
      case Sending(sends, deletes) => assert Answers(d, accepted, sends[i].attrs);
    }
  }

  lemma UnknownIsFree(c: Config, s: State, id: string)
    requires ReceiversOk(c, s) && SentOk(c.dialect, s.accepted, s.sent) && id !in s.accepted
    ensures !IsHeld(FactorHolds(s.receivers), id) && !IsSpent(AnswersOf(s.sent), id)
  {
    forall r | r in s.receivers ensures id !in FactorHeld(s.receivers[r]) {
      if id in FactorHeld(s.receivers[r]) {
        FactorHeldIsAccepted(c.dialect, s.accepted, s.sent, s.receivers[r], id);
        assert false;
      }
    }
    forall rid | rid in s.sent ensures AnswersOf(s.sent)[rid] != id {
      assert Answers(c.dialect, s.accepted, s.sent[rid].attrs);
    }
  }

  // Only sent result messages are held or recorded.
  lemma ResultHeldIsSent(d: Dialect, accepted: map<string, Message>, sent: map<string, Message>,
                         committed: seq<Parsed>, me: Persister, rid: string)
    requires WorkerOk(d, accepted, sent, committed, me) && rid in ResultHeld(me)
    ensures rid in sent
  {
    var i :| 0 <= i < |ResultHeld(me)| && ResultHeld(me)[i] == rid;
    if i < |me.buffer| {
      assert ParsedOk(d, accepted, sent, me.buffer[i]);
    } else {
      assert me.batch[i - |me.buffer|] in me.batch;
    }
  }

  lemma UnsentIsFree(c: Config, s: State, rid: string)
    requires WorkersOk(c, s) && AllParsedOk(c.dialect, s.accepted, s.sent, s.committed) && rid !in s.sent
    ensures !IsHeld(ResultHolds(s.workers), rid) && !IsSpent(RecordOf(s.committed), rid)
  {
    forall w | w in s.workers ensures rid !in ResultHeld(s.workers[w]) {
      if rid in ResultHeld(s.workers[w]) {
        ResultHeldIsSent(c.dialect, s.accepted, s.sent, s.committed, s.workers[w], rid);
        assert false;
      }
    }
    forall i: nat | i < |s.committed| ensures s.committed[i].receipt != rid {
      assert ParsedOk(c.dialect, s.accepted, s.sent, s.committed[i]);
    }
  }

  // ---------------------------------------------------------------------
  // Step by step
  // ---------------------------------------------------------------------

  // A receiver goes on with some of what it holds.
  lemma ReceiverKeeps(s: State, r: nat, me: Receiver)
    requires FactorCustody(s)
    requires Within(FactorHeld(me), if r in s.receivers then FactorHeld(s.receivers[r]) else [])
    ensures Custody(s.factorQ, FactorHolds(s.receivers[r := me]), AnswersOf(s.sent))
  {
    FactorHoldsSet(s.receivers, r, me);
    HoldsLess(s.factorQ, FactorHolds(s.receivers), AnswersOf(s.sent), r, FactorHeld(me));
  }

  lemma WorkerKeeps(s: State, w: nat, me: Persister)
    requires ResultCustody(s)
    requires Within(ResultHeld(me), if w in s.workers then ResultHeld(s.workers[w]) else [])
    ensures Custody(s.resultQ, ResultHolds(s.workers[w := me]), RecordOf(s.committed))
  {
    ResultHoldsSet(s.workers, w, me);
    HoldsLess(s.resultQ, ResultHolds(s.workers), RecordOf(s.committed), w, ResultHeld(me));
  }

  lemma IsWithinItself(s: State, r: nat)
    ensures FactorCustody(s) && r in s.receivers ==>
      Within(FactorHeld(s.receivers[r]), FactorHeld(s.receivers[r]))
    ensures ResultCustody(s) && r in s.workers ==>
      Within(ResultHeld(s.workers[r]), ResultHeld(s.workers[r]))
  {
    if FactorCustody(s) && r in s.receivers {
      assert FactorHolds(s.receivers)[r] == FactorHeld(s.receivers[r]);
    }
    if ResultCustody(s) && r in s.workers {
      assert ResultHolds(s.workers)[r] == ResultHeld(s.workers[r]);
    }
  }

  lemma AcceptOnce(c: Config, s: State, msg: Message)
    requires Inv(c, s) && Once(s) && msg.id !in s.accepted
    ensures Custody(Enqueue(s.factorQ, map[msg.id := msg]), FactorHolds(s.receivers), AnswersOf(s.sent))
  {
    UnknownIsFree(c, s, msg.id);
    QueueGrows(s.factorQ, map[msg.id := msg], FactorHolds(s.receivers), AnswersOf(s.sent));
  }

  lemma BatchIds(q: Queue, h: map<string, Message>, ids: seq<string>)
    requires QueueOk(q, h) && forall id :: id in ids ==> id in q.slots
    ensures Ids(Batch(q, ids)) == ids
  {
    forall i | 0 <= i < |ids| ensures Ids(Batch(q, ids))[i] == ids[i] {
      assert ids[i] in ids;
    }
  }

  lemma ReceiverPollOnce(c: Config, s: State, r: nat, ids: seq<string>)
    requires QueueOk(s.factorQ, s.accepted) && FactorCustody(s) && Distinct(ids)
    requires r in s.receivers && s.receivers[r].Polling? && CanReceive(s.factorQ, c.maxFactorReceives, ids)
    ensures Custody(Receive(s.factorQ, ids),
      FactorHolds(s.receivers[r := Holding(Batch(s.factorQ, ids))]), AnswersOf(s.sent))
  {
    BatchIds(s.factorQ, s.accepted, ids);
    FactorHoldsSet(s.receivers, r, Holding(Batch(s.factorQ, ids)));
    assert FactorHolds(s.receivers)[r] + ids == ids;
    HoldsMore(s.factorQ, c.maxFactorReceives, FactorHolds(s.receivers), AnswersOf(s.sent), r, ids);
  }

  lemma WorkerPollOnce(c: Config, s: State, w: nat, ids: seq<string>)
    requires QueueOk(s.resultQ, s.sent) && ResultCustody(s) && Distinct(ids)
    requires w in s.workers && s.workers[w].Waiting? && CanReceive(s.resultQ, c.maxResultReceives, ids)
    ensures Custody(Receive(s.resultQ, ids),
      ResultHolds(s.workers[w := Persister.Parsing(s.workers[w].buffer, Batch(s.resultQ, ids))]),
      RecordOf(s.committed))
  {
    BatchIds(s.resultQ, s.sent, ids);
    ResultHoldsSet(s.workers, w, Persister.Parsing(s.workers[w].buffer, Batch(s.resultQ, ids)));
    HoldsMore(s.resultQ, c.maxResultReceives, ResultHolds(s.workers), RecordOf(s.committed), w, ids);
  }

  lemma BuildHeld(d: Dialect, ds: seq<Delivery>)
    requires AllReadable(d, ds)
    ensures FactorHeld(Sending(Sends(d, ds), Deletes(ds))) == Ids(Messages(ds))
  {
    forall i | 0 <= i < |ds| ensures Deletes(ds)[i].receipt == ds[i].msg.id { DeleteAt(ds, i); }
  }

  ghost predicate AnswerAt(more: map<string, string>, ids: seq<string>, receipts: seq<string>, rid: string,
                           i: int)
  {
    0 <= i < |ids| == |receipts| && ids[i] == rid && rid in more && more[rid] == receipts[i]
  }

  lemma CreatedAnswer(sends: seq<SendEntry>, deletes: seq<DeleteEntry>, failed: set<string>,
                      ids: seq<string>, now: nat, rid: string)
    returns (i: nat)
    requires |sends| == |deletes| == |ids| && Distinct(ids)
    requires forall i :: 0 <= i < |sends| ==>
      Attribute(sends[i].attrs, "Sequence") == Some(deletes[i].receipt)
    requires rid in Delivered(sends, failed, ids, now, |ids|)
    ensures AnswerAt(AnswersOf(Delivered(sends, failed, ids, now, |ids|)), ids, EntryReceipts(deletes), rid, i)
  {
    var created := Delivered(sends, failed, ids, now, |ids|);
    DeliveredExact(sends, failed, ids, now, |ids|);
    i :| 0 <= i < |ids| && ids[i] == rid && created[rid] == Message(rid, sends[i].attrs, now);
  }

  lemma AnswersAreOnce(more: map<string, string>, ids: seq<string>, receipts: seq<string>)
    requires Distinct(receipts)
    requires forall rid :: rid in more ==> exists i :: AnswerAt(more, ids, receipts, rid, i)
    ensures SpentOnce(more) && forall rid :: rid in more ==> rid in ids && more[rid] in receipts
  {
    forall k, k' | k in more && k' in more && more[k] == more[k'] ensures k == k' {
      var i :| AnswerAt(more, ids, receipts, k, i);
      var j :| AnswerAt(more, ids, receipts, k', j);
      assert i == j;
    }
    forall rid | rid in more ensures rid in ids && more[rid] in receipts {
      var i :| AnswerAt(more, ids, receipts, rid, i);
      assert ids[i] in ids && receipts[i] in receipts;
    }
  }

  // The results that a send creates answer different held messages.
  lemma CreatedAnswers(sends: seq<SendEntry>, deletes: seq<DeleteEntry>, failed: set<string>,
                       ids: seq<string>, now: nat)
    requires |sends| == |deletes| == |ids| && Distinct(ids) && Distinct(EntryReceipts(deletes))
    requires forall i :: 0 <= i < |sends| ==>
      Attribute(sends[i].attrs, "Sequence") == Some(deletes[i].receipt)
    ensures var more := AnswersOf(Delivered(sends, failed, ids, now, |ids|));
      SpentOnce(more) && forall rid :: rid in more ==> rid in ids && more[rid] in EntryReceipts(deletes)
  {
    var more, receipts := AnswersOf(Delivered(sends, failed, ids, now, |ids|)), EntryReceipts(deletes);
    forall rid | rid in more ensures exists i :: AnswerAt(more, ids, receipts, rid, i) {
      var i := CreatedAnswer(sends, deletes, failed, ids, now, rid);
    }
    AnswersAreOnce(more, ids, receipts);
  }

  lemma AnswersJoin(sent: map<string, Message>, created: map<string, Message>)
    ensures AnswersOf(sent + created) == AnswersOf(sent) + AnswersOf(created)
  {
  }

  lemma SendOnce(c: Config, s: State, r: nat, failed: set<string>, ids: seq<string>, now: nat, me': Receiver)
    requires Inv(c, s) && FactorCustody(s) && r in s.receivers && s.receivers[r].Sending?
    requires |ids| == |s.receivers[r].sends| && Distinct(ids) && forall id :: id in ids ==> id !in s.sent
    requires FactorHeld(me') == []
    ensures Custody(s.factorQ, FactorHolds(s.receivers[r := me']),
      AnswersOf(s.sent + Delivered(s.receivers[r].sends, failed, ids, now, |ids|)))
  {
    var me := s.receivers[r];
    assert ReceiverOk(c.dialect, s.accepted, s.sent, me);
    IsWithinItself(s, r);
    var created := Delivered(me.sends, failed, ids, now, |ids|);
    CreatedAnswers(me.sends, me.deletes, failed, ids, now);
    AnswersJoin(s.sent, created);
    FactorHoldsSet(s.receivers, r, me');
    Spends(s.factorQ, FactorHolds(s.receivers), AnswersOf(s.sent), r, AnswersOf(created));
  }

  lemma SentOnce(c: Config, s: State, created: map<string, Message>)
    requires Inv(c, s) && ResultCustody(s) && forall rid :: rid in created ==> rid !in s.sent
    ensures Custody(Enqueue(s.resultQ, created), ResultHolds(s.workers), RecordOf(s.committed))
  {
    forall rid | rid in created
      ensures !IsHeld(ResultHolds(s.workers), rid) && !IsSpent(RecordOf(s.committed), rid)
    {
      UnsentIsFree(c, s, rid);
    }
    QueueGrows(s.resultQ, created, ResultHolds(s.workers), RecordOf(s.committed));
  }

  // A parsed message carries the receipt of its result message.
  ghost predicate KeepsReceipt(parse: Parser) {
    forall m, x :: parse(m, x).Some? ==> parse(m, x).value.receipt == m.id
  }

  lemma ParsingKeepsReceipt(d: Dialect)
    ensures KeepsReceipt(Persist.Parsing(d))
  {
    forall m, x | Persist.Parsing(d)(m, x).Some?
      ensures Persist.Parsing(d)(m, x).value.receipt == m.id
    {
      assert Persist.Parsing(d)(m, x) == Parse(d, m, x);
    }
  }

  lemma {:induction false} ParsedWithin(parse: Parser, poll: Poll, ids: seq<string>, k: nat)
    requires KeepsReceipt(parse) && k <= |poll| == |ids| && Distinct(ids)
    requires forall i :: 0 <= i < |poll| ==> poll[i].0.id == ids[i]
    ensures Within(Receipts(ParseFirst(parse, poll, k)), ids[..k])
  {
    if k > 0 {
      ParsedWithin(parse, poll, ids, k - 1);
      assert ids[..k] == ids[..k - 1] + [ids[k - 1]];
      var before, parsed := ParseFirst(parse, poll, k - 1), parse(poll[k - 1].0, poll[k - 1].1);
      if parsed.Some? {
        assert Receipts(before + [parsed.value]) == Receipts(before) + [ids[k - 1]];
        JoinDistinct(Receipts(before), [ids[k - 1]]);
      } else {
        assert before + [] == before;
      }
    }
  }

  lemma JoinWithin(a: seq<string>, b: seq<string>, b': seq<string>)
    requires Distinct(a + b) && Within(b', b)
    ensures Within(a + b', a + b)
  {
    forall i, j | 0 <= i < j < |a| ensures a[i] != a[j] {
      assert (a + b)[i] == a[i] && (a + b)[j] == a[j];
    }
    forall x | x in b' ensures x !in a {
      var j :| 0 <= j < |b| && b[j] == x;
      forall i | 0 <= i < |a| ensures a[i] != x { assert (a + b)[i] == a[i] && (a + b)[|a| + j] == x; }
    }
    JoinDistinct(a, b');
  }

  lemma ParseWithin(parse: Parser, buffer: seq<Parsed>, batch: seq<Message>, readings: seq<Readings>)
    requires KeepsReceipt(parse) && |readings| == |batch| && Distinct(Receipts(buffer) + Ids(batch))
    ensures Within(Receipts(buffer + ParsePoll(parse, Zip(batch, readings))), Receipts(buffer) + Ids(batch))
  {
    var held, ids, poll := Receipts(buffer), Ids(batch), Zip(batch, readings);
    forall i, j | 0 <= i < j < |ids| ensures ids[i] != ids[j] {
      assert (held + ids)[|held| + i] == ids[i] && (held + ids)[|held| + j] == ids[j];
    }
    ParsedWithin(parse, poll, ids, |poll|);
    assert ids[..|ids|] == ids;
    assert Receipts(buffer + ParsePoll(parse, poll)) == held + Receipts(ParsePoll(parse, poll));
    JoinWithin(held, ids, Receipts(ParsePoll(parse, poll)));
  }

  lemma ParseOnce(c: Config, s: State, w: nat, readings: seq<Readings>, me': Persister)
    requires ResultCustody(s) && w in s.workers && s.workers[w].Parsing?
    requires |readings| == |s.workers[w].batch|
    requires ResultHeld(me') == Receipts(s.workers[w].buffer
      + ParsePoll(Persist.Parsing(c.dialect), Zip(s.workers[w].batch, readings)))
    ensures Custody(s.resultQ, ResultHolds(s.workers[w := me']), RecordOf(s.committed))
  {
    IsWithinItself(s, w);
    ParsingKeepsReceipt(c.dialect);
    ParseWithin(Persist.Parsing(c.dialect), s.workers[w].buffer, s.workers[w].batch, readings);
    WorkerKeeps(s, w, me');
  }

  // The record of the newly committed messages.
  function NewRecord(committed: seq<Parsed>, buffer: seq<Parsed>): map<nat, string> {
    RecordOf(committed + buffer) - RecordOf(committed).Keys
  }

  lemma NewRecordAt(committed: seq<Parsed>, buffer: seq<Parsed>, i: nat)
    requires i in NewRecord(committed, buffer)
    ensures |committed| <= i < |committed| + |buffer|
    ensures NewRecord(committed, buffer)[i] == Receipts(buffer)[i - |committed|]
  {
    assert i !in RecordOf(committed);
  }

  lemma NewRecordOnce(committed: seq<Parsed>, buffer: seq<Parsed>)
    requires Distinct(Receipts(buffer))
    ensures var more := NewRecord(committed, buffer);
      && SpentOnce(more) && RecordOf(committed + buffer) == RecordOf(committed) + more
      && forall i :: i in more ==> i !in RecordOf(committed) && more[i] in Receipts(buffer)
  {
    var more := NewRecord(committed, buffer);
    forall i, j | i in more && j in more && more[i] == more[j] ensures i == j {
      NewRecordAt(committed, buffer, i);
      NewRecordAt(committed, buffer, j);
    }
    forall i | i in more ensures more[i] in Receipts(buffer) { NewRecordAt(committed, buffer, i); }
    forall i | i in RecordOf(committed) ensures RecordOf(committed + buffer)[i] == RecordOf(committed)[i] {
    }
  }

  // A commit gives each message of the buffer a position of its own.
  lemma CommitOnce(s: State, w: nat, buffer: seq<Parsed>, me': Persister)
    requires ResultCustody(s) && w in s.workers && ResultHeld(s.workers[w]) == Receipts(buffer)
    requires ResultHeld(me') == []
    ensures Custody(s.resultQ, ResultHolds(s.workers[w := me']), RecordOf(s.committed + buffer))
  {
    IsWithinItself(s, w);
    var more := NewRecord(s.committed, buffer);
    NewRecordOnce(s.committed, buffer);
    ResultHoldsSet(s.workers, w, me');
    Spends(s.resultQ, ResultHolds(s.workers), RecordOf(s.committed), w, more);
  }

  // ---------------------------------------------------------------------
  // All steps, all runs
  // ---------------------------------------------------------------------

  lemma ReceiverSendOnce(c: Config, s: State, r: nat, failed: set<string>, ids: seq<string>, now: nat)
    requires Inv(c, s) && Once(s) && Enabled(c, s, ReceiverSend(r, failed, ids, now))
    ensures Once(Apply(c, s, ReceiverSend(r, failed, ids, now)))
  {
    var kept := Accepted(s.receivers[r].deletes, failed);
    SendOnce(c, s, r, failed, ids, now, if kept == [] then Polling(0) else Deleting(kept));
    DeliveredIds(s.receivers[r].sends, failed, ids, now, |ids|);
    SentOnce(c, s, Delivered(s.receivers[r].sends, failed, ids, now, |ids|));
  }

  lemma ReceiverDeleteOnce(c: Config, s: State, r: nat, removed: set<string>)
    requires Once(s) && Enabled(c, s, ReceiverDelete(r, removed))
    ensures Once(Apply(c, s, ReceiverDelete(r, removed)))
  {
    ReceiverKeeps(s, r, Polling(0));
    QueueShrinks(s.factorQ, Remove(s.factorQ, removed), FactorHolds(s.receivers[r := Polling(0)]),
                 AnswersOf(s.sent));
  }

  lemma ReceiverBuildOnce(c: Config, s: State, r: nat, received: seq<Delivery>)
    requires Once(s) && Enabled(c, s, ReceiverBuild(r, received))
    ensures Once(Apply(c, s, ReceiverBuild(r, received)))
  {
    IsWithinItself(s, r);
    BuildHeld(c.dialect, received);
    ReceiverKeeps(s, r, Sending(Sends(c.dialect, received), Deletes(received)));
  }

  lemma StartReceiverOnce(c: Config, s: State, r: nat)
    requires Once(s) && Enabled(c, s, StartReceiver(r))
    ensures Once(Apply(c, s, StartReceiver(r)))
  {
    ReceiverKeeps(s, r, Polling(0));
  }

  lemma CrashReceiverOnce(c: Config, s: State, r: nat)
    requires Once(s) && Enabled(c, s, CrashReceiver(r))
    ensures Once(Apply(c, s, CrashReceiver(r)))
  {
    FactorHoldsSet(s.receivers, r, Stopped);
    Stops(s.factorQ, FactorHolds(s.receivers), AnswersOf(s.sent), r);
  }

  lemma EmptyPollOnce(c: Config, s: State, r: nat)
    requires Once(s) && Enabled(c, s, ReceiverEmptyPoll(r))
    ensures Once(Apply(c, s, ReceiverEmptyPoll(r)))
  {
    var n := s.receivers[r].emptyPolls + 1;
    var me' := if n >= 3 then Stopped else Polling(n);
    assert FactorHeld(me') == [];
    ReceiverKeeps(s, r, me');
  }

  predicate IsReceiverMove(a: Step) {
    a.StartReceiver? || a.CrashReceiver? || a.ReceiverEmptyPoll? || a.ReceiverPoll?
  }

  lemma ReceiverMoveOnce(c: Config, s: State, a: Step, s': State)
    requires Inv(c, s) && Once(s) && Enabled(c, s, a) && HandsOutOnce(a) && IsReceiverMove(a)
    requires s' == Apply(c, s, a)
    ensures Once(s')
  {
    match a {
      case StartReceiver(r) => StartReceiverOnce(c, s, r);
      case CrashReceiver(r) => CrashReceiverOnce(c, s, r);
      case ReceiverEmptyPoll(r) => EmptyPollOnce(c, s, r);
      case ReceiverPoll(r, ids) => ReceiverPollOnce(c, s, r, ids);
    }
  }

  lemma ReceiverStepOnce(c: Config, s: State, a: Step, s': State)
    requires Inv(c, s) && Once(s) && Enabled(c, s, a) && HandsOutOnce(a) && IsReceiverStep(a)
    requires s' == Apply(c, s, a)
    ensures Once(s')
  {
    if IsReceiverMove(a) {
      ReceiverMoveOnce(c, s, a, s');
    } else {
      match a {
        case ReceiverBuild(r, received) => ReceiverBuildOnce(c, s, r, received);
        case ReceiverSend(r, failed, ids, now) => ReceiverSendOnce(c, s, r, failed, ids, now);
        case ReceiverDelete(r, removed) => ReceiverDeleteOnce(c, s, r, removed);
      }
    }
  }

  lemma WorkerParseOnce(c: Config, s: State, w: nat, readings: seq<Readings>)
    requires Once(s) && Enabled(c, s, WorkerParse(w, readings))
    ensures Once(Apply(c, s, WorkerParse(w, readings)))
  {
    var s' := Apply(c, s, WorkerParse(w, readings));
    ParseOnce(c, s, w, readings, s'.workers[w]);
  }

  lemma WorkerCommitOnce(c: Config, s: State, w: nat)
    requires Once(s) && Enabled(c, s, WorkerCommit(w))
    ensures Once(Apply(c, s, WorkerCommit(w)))
  {
    var buffer := s.workers[w].buffer;
    CommitOnce(s, w, buffer, Clearing(Receipts(buffer)));
  }

  lemma WorkerDeleteOnce(c: Config, s: State, w: nat, removed: set<string>)
    requires Once(s) && Enabled(c, s, WorkerDelete(w, removed))
    ensures Once(Apply(c, s, WorkerDelete(w, removed)))
  {
    var me' := Apply(c, s, WorkerDelete(w, removed)).workers[w];
    WorkerKeeps(s, w, me');
    QueueShrinks(s.resultQ, Remove(s.resultQ, removed), ResultHolds(s.workers[w := me']),
                 RecordOf(s.committed));
  }

  lemma StartWorkerOnce(c: Config, s: State, w: nat)
    requires Once(s) && Enabled(c, s, StartWorker(w))
    ensures Once(Apply(c, s, StartWorker(w)))
  {
    WorkerKeeps(s, w, Waiting([]));
  }

  lemma CrashWorkerOnce(c: Config, s: State, w: nat)
    requires Once(s) && Enabled(c, s, CrashWorker(w))
    ensures Once(Apply(c, s, CrashWorker(w)))
  {
    ResultHoldsSet(s.workers, w, Ended);
    Stops(s.resultQ, ResultHolds(s.workers), RecordOf(s.committed), w);
  }

  lemma WorkerEmptyPollOnce(c: Config, s: State, w: nat)
    requires Once(s) && Enabled(c, s, WorkerEmptyPoll(w))
    ensures Once(Apply(c, s, WorkerEmptyPoll(w)))
  {
    IsWithinItself(s, w);
    WorkerKeeps(s, w, Apply(c, s, WorkerEmptyPoll(w)).workers[w]);
  }

  predicate IsWorkerMove(a: Step) {
    a.StartWorker? || a.CrashWorker? || a.WorkerEmptyPoll? || a.WorkerPoll?
  }

  lemma WorkerMoveOnce(c: Config, s: State, a: Step, s': State)
    requires Inv(c, s) && Once(s) && Enabled(c, s, a) && HandsOutOnce(a) && IsWorkerMove(a)
    requires s' == Apply(c, s, a)
    ensures Once(s')
  {
    match a {
      case StartWorker(w) => StartWorkerOnce(c, s, w);
      case CrashWorker(w) => CrashWorkerOnce(c, s, w);
      case WorkerEmptyPoll(w) => WorkerEmptyPollOnce(c, s, w);
      case WorkerPoll(w, ids) => WorkerPollOnce(c, s, w, ids);
    }
  }

  lemma WorkerStepOnce(c: Config, s: State, a: Step, s': State)
    requires Inv(c, s) && Once(s) && Enabled(c, s, a) && HandsOutOnce(a) && IsWorkerStep(a)
    requires s' == Apply(c, s, a)
    ensures Once(s')
  {
    if IsWorkerMove(a) {
      WorkerMoveOnce(c, s, a, s');
    } else {
      match a {
        case WorkerParse(w, readings) => WorkerParseOnce(c, s, w, readings);
        case WorkerCommit(w) => WorkerCommitOnce(c, s, w);
        case WorkerDelete(w, removed) => WorkerDeleteOnce(c, s, w, removed);
      }
    }
  }

  lemma StepKeepsOnce(c: Config, s: State, a: Step, s': State)
    requires Inv(c, s) && Once(s) && Enabled(c, s, a) && HandsOutOnce(a)
    requires s' == Apply(c, s, a)
    ensures Once(s')
  {
    if IsReceiverStep(a) {
      ReceiverStepOnce(c, s, a, s');
    } else if IsWorkerStep(a) {
      WorkerStepOnce(c, s, a, s');
    } else {
      match a {
        case Accept(msg) => AcceptOnce(c, s, msg);
        case FactorRedrive(id) =>
          QueueShrinks(s.factorQ, Redrive(s.factorQ, id), FactorHolds(s.receivers), AnswersOf(s.sent));
        case ResultRedrive(id) =>
          QueueShrinks(s.resultQ, Redrive(s.resultQ, id), ResultHolds(s.workers), RecordOf(s.committed));
      }
    }
  }

  // No step before the i-th state hands a message out again: no visibility timeout expires,
  // and no receive holds a message twice.
  ghost predicate NoRepeats(steps: seq<Step>, i: nat)
    requires i <= |steps|
  {
    forall j :: 0 <= j < i ==> HandsOutOnce(steps[j])
  }

  lemma {:induction false} OnceHolds(c: Config, states: seq<State>, steps: seq<Step>, i: nat)
    requires IsRun(c, states, steps) && i <= |steps| && NoRepeats(steps, i)
    ensures Once(states[i])
  {
    if i > 0 {
      OnceHolds(c, states, steps, i - 1);
      StepOfRun(c, states, steps, i - 1);
      StepKeepsOnce(c, states[i - 1], steps[i - 1], states[i]);
    }
  }

  // In a run without repeats no factor message has two results.
  lemma AtMostOneResult(c: Config, states: seq<State>, steps: seq<Step>, i: nat, r1: string, r2: string)
    requires IsRun(c, states, steps) && i <= |steps| && NoRepeats(steps, i)
    requires r1 in states[i].sent && r2 in states[i].sent
    requires Attribute(states[i].sent[r1].attrs, "Sequence").Some?
    requires Attribute(states[i].sent[r1].attrs, "Sequence") == Attribute(states[i].sent[r2].attrs, "Sequence")
    ensures r1 == r2
  {
    OnceHolds(c, states, steps, i);
    var answers := AnswersOf(states[i].sent);
    assert answers[r1] == answers[r2];
  }

  lemma CommittedSource(c: Config, s: State, p: Parsed)
    requires Inv(c, s) && p in s.committed
    ensures p.receipt in s.sent && p.row.sequenceRaw.Some?
    ensures Attribute(s.sent[p.receipt].attrs, "Sequence") == p.row.sequenceRaw
  {
    assert ParsedOk(c.dialect, s.accepted, s.sent, p);
  }

  // Nor is it committed, and so counted, twice.
  lemma AtMostOneCommit(c: Config, states: seq<State>, steps: seq<Step>, i: nat, j: nat, k: nat)
    requires IsRun(c, states, steps) && i <= |steps| && NoRepeats(steps, i)
    requires j < |states[i].committed| && k < |states[i].committed|
    requires states[i].committed[j].row.sequenceRaw == states[i].committed[k].row.sequenceRaw
    ensures j == k
  {
    var s := states[i];
    InvariantHolds(c, states, steps, i);
    OnceHolds(c, states, steps, i);
    CommittedSource(c, s, s.committed[j]);
    CommittedSource(c, s, s.committed[k]);
    AtMostOneResult(c, states, steps, i, s.committed[j].receipt, s.committed[k].receipt);
    var record := RecordOf(s.committed);
    assert record[j] == record[k];
  }

  // Nor does it have two rows.
  lemma AtMostOneRow(c: Config, states: seq<State>, steps: seq<Step>, i: nat, k1: string, k2: string)
    requires IsRun(c, states, steps) && i <= |steps| && NoRepeats(steps, i)
    requires k1 in states[i].db.factors && k2 in states[i].db.factors
    requires states[i].db.factors[k1].sequenceRaw == states[i].db.factors[k2].sequenceRaw
    ensures k1 == k2
  {
    InvariantHolds(c, states, steps, i);
    var committed := states[i].committed;
    FactorsHoldLoaded(EMPTY, committed, k1);
    FactorsHoldLoaded(EMPTY, committed, k2);
    var a :| 0 <= a < |committed| && committed[a].sequence == k1
          && committed[a].row == states[i].db.factors[k1];
    var b :| 0 <= b < |committed| && committed[b].sequence == k2
          && committed[b].row == states[i].db.factors[k2];
    AtMostOneCommit(c, states, steps, i, a, b);
  }

  // Once everything is drained, with fresh keys, every accepted message has exactly one row.
  lemma ExactlyOneRow(c: Config, states: seq<State>, steps: seq<Step>, i: nat, id: string)
    returns (key: string)
    requires IsRun(c, states, steps) && i <= |steps| && NoRepeats(steps, i)
    requires Fresh(states[i].committed) && id in states[i].accepted
    requires states[i].factorQ == Queue(map[], map[]) && states[i].resultQ == Queue(map[], map[])
    ensures forall k :: k == key <==>
      k in states[i].db.factors && states[i].db.factors[k].sequenceRaw == Some(id)
  {
    DrainedIsComplete(c, states, steps, i);
    key :| key in states[i].db.factors && states[i].db.factors[key].sequenceRaw == Some(id);
    forall k | k in states[i].db.factors && states[i].db.factors[k].sequenceRaw == Some(id)
      ensures k == key
    {
      AtMostOneRow(c, states, steps, i, k, key);
    }
  }
}
