// Runs that exist: a batch of messages can always be carried to the end, and what the
// exceptions in the pipeline's guarantees look like when they happen.
module PipelineRuns {
  import opened Wrappers
  import opened Wire
  import opened Divisors
  import opened Process
  import opened Sequences
  import opened Store
  import opened Persist
  import opened Pipeline
  import opened PipelineInvariant
  import opened PipelineTheorems
  import Uuid7

  // ---------------------------------------------------------------------
  // Reachable states
  // ---------------------------------------------------------------------

  // The run ends in s.
  ghost predicate RunTo(c: Config, states: seq<State>, steps: seq<Step>, s: State) {
    IsRun(c, states, steps) && states[|steps|] == s
  }

  ghost predicate Reachable(c: Config, s: State) {
    exists states, steps :: RunTo(c, states, steps, s)
  }

  lemma InitialIsReachable(c: Config)
    ensures Reachable(c, INITIAL)
  {
    assert RunTo(c, [INITIAL], [], INITIAL);
  }

  lemma Extend(c: Config, states: seq<State>, steps: seq<Step>, s: State, a: Step, s': State)
    requires RunTo(c, states, steps, s) && Enabled(c, s, a) && s' == Apply(c, s, a)
    ensures RunTo(c, states + [s'], steps + [a], s')
  {
    forall i | 0 <= i < |steps + [a]| ensures StepAt(c, states + [s'], steps + [a], i) {
      if i < |steps| { assert StepAt(c, states, steps, i); }
    }
  }

  lemma StepReaches(c: Config, s: State, a: Step)
    requires Reachable(c, s) && Enabled(c, s, a)
    ensures Reachable(c, Apply(c, s, a))
  {
    var states, steps :| RunTo(c, states, steps, s);
    Extend(c, states, steps, s, a, Apply(c, s, a));
  }

  // ---------------------------------------------------------------------
  // One batch through the receivers
  // ---------------------------------------------------------------------

  const NO_QUEUE := Queue(map[], map[])

  function ById(ms: seq<Message>, k: nat): map<string, Message>
    requires k <= |ms|
  {
    if k == 0 then map[] else ById(ms, k - 1)[ms[k - 1].id := ms[k - 1]]
  }

  // The queues hand messages out at least once.
  predicate Serves(max: Option<nat>) {
    max.Some? ==> max.value > 0
  }

  // A batch that one receive can hold.
  predicate OneBatch(ms: seq<Message>) {
    1 <= |ms| <= 10 && Distinct(Ids(ms)) && "" !in Ids(ms)
  }

  lemma {:induction false} ByIdExact(ms: seq<Message>, k: nat)
    requires k <= |ms| && Distinct(Ids(ms))
    ensures forall i :: 0 <= i < k ==> ms[i].id in ById(ms, k) && ById(ms, k)[ms[i].id] == ms[i]
    ensures forall id :: id in ById(ms, k) ==> exists i :: 0 <= i < k && Ids(ms)[i] == id
  {
    if k > 0 { ByIdExact(ms, k - 1); }
  }

  // The factor queue after the first k messages have been accepted.
  function FilledQueue(ms: seq<Message>, k: nat): Queue
    requires k <= |ms|
  {
    if k == 0 then NO_QUEUE else Enqueue(FilledQueue(ms, k - 1), map[ms[k - 1].id := ms[k - 1]])
  }

  // A queue that holds exactly these messages, untouched, and has no dead letters.
  ghost predicate HoldsJust(q: Queue, ms: map<string, Message>) {
    && q.dead == map[]
    && q.slots.Keys == ms.Keys
    && forall id :: id in ms ==> q.slots[id] == Slot(ms[id], false, 0)
  }

  lemma EnqueueHolds(q: Queue, h: map<string, Message>, ms: map<string, Message>)
    requires HoldsJust(q, h)
    ensures HoldsJust(Enqueue(q, ms), h + ms)
  {
    assert Enqueue(q, ms).slots.Keys == q.slots.Keys + ms.Keys;
  }

  lemma {:induction false} FilledQueueHolds(ms: seq<Message>, k: nat)
    requires k <= |ms|
    ensures HoldsJust(FilledQueue(ms, k), ById(ms, k))
  {
    if k > 0 {
      FilledQueueHolds(ms, k - 1);
      var m := ms[k - 1];
      EnqueueHolds(FilledQueue(ms, k - 1), ById(ms, k - 1), map[m.id := m]);
      assert ById(ms, k) == ById(ms, k - 1) + map[m.id := m];
    }
  }

  function Filled(ms: seq<Message>, k: nat): State
    requires k <= |ms|
  {
    INITIAL.(factorQ := FilledQueue(ms, k), accepted := ById(ms, k))
  }

  lemma AcceptNext(c: Config, ms: seq<Message>, k: nat)
    requires k < |ms| && ms[k].id != "" && ms[k].id !in ById(ms, k)
    ensures Enabled(c, Filled(ms, k), Accept(ms[k]))
    ensures Apply(c, Filled(ms, k), Accept(ms[k])) == Filled(ms, k + 1)
  {
  }

  lemma {:induction false} AcceptAll(c: Config, ms: seq<Message>, k: nat)
    requires k <= |ms| && OneBatch(ms)
    ensures Reachable(c, Filled(ms, k))
  {
    if k == 0 {
      InitialIsReachable(c);
      assert Filled(ms, 0) == INITIAL;
    } else {
      AcceptAll(c, ms, k - 1);
      ByIdExact(ms, k - 1);
      assert Ids(ms)[k - 1] == ms[k - 1].id;
      AcceptNext(c, ms, k - 1);
      StepReaches(c, Filled(ms, k - 1), Accept(ms[k - 1]));
    }
  }

  // The batch as one receiver gets it.
  function Deliveries(ms: seq<Message>): (ds: seq<Delivery>)
    ensures |ds| == |ms| && forall i :: 0 <= i < |ms| ==> ds[i] == Delivery(ms[i], 0, 0)
  {
    seq(|ms|, i requires 0 <= i < |ms| => Delivery(ms[i], 0, 0))
  }

  predicate Handles(d: Dialect, ms: seq<Message>) {
    forall i :: 0 <= i < |ms| ==> Readable(d, ms[i])
  }

  // When a result's attributes speak for a factor message; the stages use SpeaksFor.
  type Speaker = (map<string, string>, Message) -> bool

  ghost function Speaking(d: Dialect): Speaker {
    (attrs, m) => SpeaksFor(d, attrs, m)
  }

  // The message under the id of m is a result of m.
  ghost predicate ResultFor(speaks: Speaker, sent: map<string, Message>, m: Message) {
    m.id in sent && sent[m.id].id == m.id && speaks(sent[m.id].attrs, m)
  }

  ghost predicate ResultsFor(speaks: Speaker, sent: map<string, Message>, ms: seq<Message>) {
    && (forall id :: id in sent ==> id in Ids(ms))
    && forall i :: 0 <= i < |ms| ==> ResultFor(speaks, sent, ms[i])
  }

  // The state after a step, if the step is enabled.
  function Next(c: Config, s: State, a: Step): Option<State> {
    if Enabled(c, s, a) then Some(Apply(c, s, a)) else None
  }

  lemma {:induction false} ReceiveAll(q: Queue, max: Option<nat>, ms: seq<Message>, h: map<string, Message>)
    requires HoldsJust(q, h) && Serves(max) && OneBatch(ms)
    requires forall i :: 0 <= i < |ms| ==> ms[i].id in h
    ensures CanReceive(q, max, Ids(ms))
    ensures forall i :: 0 <= i < |ms| ==> Batch(q, Ids(ms))[i] == h[ms[i].id]
    ensures Receive(q, Ids(ms)).slots.Keys == h.Keys && Receive(q, Ids(ms)).dead == map[]
  {
    forall id | id in Ids(ms) ensures id in h {
      var i :| 0 <= i < |ms| && Ids(ms)[i] == id;
    }
  }

  predicate At(s: State, me: Receiver) {
    0 in s.receivers && s.receivers[0] == me
  }

  lemma PollAll(c: Config, s: State, ids: seq<string>, ms: seq<Message>)
    requires At(s, Polling(0))
    requires 1 <= |ids| <= 10 && CanReceive(s.factorQ, c.maxFactorReceives, ids)
    requires Batch(s.factorQ, ids) == ms
    ensures Next(c, s, ReceiverPoll(0, ids))
      == Some(SetReceiver(s, 0, Holding(ms)).(factorQ := Receive(s.factorQ, ids)))
  {
  }

  lemma BuildAll(c: Config, s: State, ds: seq<Delivery>)
    requires AllReadable(c.dialect, ds) && At(s, Holding(Messages(ds)))
    ensures Next(c, s, ReceiverBuild(0, ds))
      == Some(SetReceiver(s, 0, Sending(Sends(c.dialect, ds), Deletes(ds))))
  {
  }

  lemma {:induction false} NoneFailed(es: seq<DeleteEntry>)
    ensures Accepted(es, {}) == es
  {
    if es != [] { NoneFailed(es[..|es| - 1]); }
  }

  // Every entry speaks for the message at its position.
  ghost predicate AllSpeak(speaks: Speaker, sends: seq<SendEntry>, ms: seq<Message>)
    requires |sends| == |ms|
  {
    forall i :: 0 <= i < |ms| ==> speaks(sends[i].attrs, ms[i])
  }

  lemma {:induction false} DeliveredAll(speaks: Speaker, ms: seq<Message>, sends: seq<SendEntry>)
    requires |sends| == |ms| && Distinct(Ids(ms)) && AllSpeak(speaks, sends, ms)
    ensures ResultsFor(speaks, Delivered(sends, {}, Ids(ms), 0, |ms|), ms)
  {
    var m := Delivered(sends, {}, Ids(ms), 0, |ms|);
    DeliveredExact(sends, {}, Ids(ms), 0, |ms|);
    forall i | 0 <= i < |ms| ensures ResultFor(speaks, m, ms[i]) {
      assert m[Ids(ms)[i]] == Message(ms[i].id, sends[i].attrs, 0);
    }
  }

  lemma SendAll(c: Config, s: State, ids: seq<string>, sends: seq<SendEntry>, deletes: seq<DeleteEntry>)
    returns (s': State)
    requires |sends| == |ids| && Distinct(ids) && deletes != []
    requires At(s, Sending(sends, deletes)) && s.resultQ == NO_QUEUE && s.sent == map[]
    ensures Next(c, s, ReceiverSend(0, {}, ids, 0)) == Some(s')
    ensures s'.sent == Delivered(sends, {}, ids, 0, |ids|) && HoldsJust(s'.resultQ, s'.sent)
    ensures s' == SetReceiver(s, 0, Deleting(deletes)).(resultQ := s'.resultQ, sent := s'.sent)
  {
    var created := Delivered(sends, {}, ids, 0, |ids|);
    NoneFailed(deletes);
    EnqueueHolds(NO_QUEUE, map[], created);
    assert map[] + created == created;
    s' := Apply(c, s, ReceiverSend(0, {}, ids, 0));
  }

  // The ids of a queue that holds just the batch, all of them.
  ghost predicate JustIds(q: Queue, ids: seq<string>) {
    q.dead == map[] && forall id :: id in q.slots <==> id in ids
  }

  lemma DeleteAllFactors(c: Config, s: State, ds: seq<Delivery>, ids: seq<string>) returns (a: Step)
    requires At(s, Deleting(Deletes(ds))) && JustIds(s.factorQ, ids)
    requires |ids| == |ds| && forall i :: 0 <= i < |ds| ==> ds[i].msg.id == ids[i]
    ensures Next(c, s, a) == Some(SetReceiver(s, 0, Polling(0)).(factorQ := NO_QUEUE))
  {
    var removed := set id | id in ids;
    var es := Deletes(ds);
    forall id | id in removed ensures id in EntryIds(es) {
      var i :| 0 <= i < |ids| && ids[i] == id;
      DeleteAt(ds, i);
      assert es[i] in es && es[i].receipt == id;
    }
    assert Remove(s.factorQ, removed) == NO_QUEUE;
    a := ReceiverDelete(0, removed);
  }

  lemma Advanced(c: Config, s: State, a: Step, s': State)
    requires Reachable(c, s) && Next(c, s, a) == Some(s')
    ensures Reachable(c, s')
  {
    StepReaches(c, s, a);
  }

  lemma {:induction false} FilledBatch(q: Queue, ms: seq<Message>)
    requires Distinct(Ids(ms)) && HoldsJust(q, ById(ms, |ms|))
    ensures forall id :: id in Ids(ms) ==> id in q.slots
    ensures Batch(q, Ids(ms)) == ms
  {
    ByIdExact(ms, |ms|);
    forall id | id in Ids(ms) ensures id in q.slots {
      var i :| 0 <= i < |ms| && Ids(ms)[i] == id;
    }
    forall i | 0 <= i < |ms| ensures Batch(q, Ids(ms))[i] == ms[i] {
      assert q.slots[ms[i].id].msg == ms[i];
    }
  }

  lemma {:induction false} FilledIds(q: Queue, ms: seq<Message>)
    requires Distinct(Ids(ms)) && HoldsJust(q, ById(ms, |ms|))
    ensures JustIds(Receive(q, Ids(ms)), Ids(ms))
  {
    ByIdExact(ms, |ms|);
    forall i | 0 <= i < |ms| ensures Ids(ms)[i] in q.slots { assert ms[i].id in ById(ms, |ms|); }
  }

  lemma {:induction false} FilledCanReceive(q: Queue, max: Option<nat>, ms: seq<Message>)
    requires q == FilledQueue(ms, |ms|) && OneBatch(ms) && Serves(max)
    ensures CanReceive(q, max, Ids(ms)) && Batch(q, Ids(ms)) == ms
    ensures JustIds(Receive(q, Ids(ms)), Ids(ms))
  {
    FilledQueueHolds(ms, |ms|);
    FilledBatch(q, ms);
    FilledIds(q, ms);
  }

  // Accept the batch and hand it to a receiver.
  lemma TakePhase(c: Config, ms: seq<Message>) returns (s: State)
    requires OneBatch(ms) && Serves(c.maxFactorReceives)
    ensures Reachable(c, s) && At(s, Holding(ms)) && JustIds(s.factorQ, Ids(ms))
    ensures s == Filled(ms, |ms|).(receivers := s.receivers, factorQ := s.factorQ)
  {
    AcceptAll(c, ms, |ms|);
    var s0, ids := Filled(ms, |ms|), Ids(ms);
    FilledCanReceive(s0.factorQ, c.maxFactorReceives, ms);
    var s1 := SetReceiver(s0, 0, Polling(0));
    Advanced(c, s0, StartReceiver(0), s1);
    PollAll(c, s1, ids, ms);
    s := SetReceiver(s1, 0, Holding(ms)).(factorQ := Receive(s1.factorQ, ids));
    Advanced(c, s1, ReceiverPoll(0, ids), s);
  }

  lemma {:induction false} BuiltSpeak(d: Dialect, ms: seq<Message>)
    requires Handles(d, ms)
    ensures AllReadable(d, Deliveries(ms)) && Messages(Deliveries(ms)) == ms
    ensures AllSpeak(Speaking(d), Sends(d, Deliveries(ms)), ms)
  {
    forall i | 0 <= i < |ms| ensures Speaking(d)(Sends(d, Deliveries(ms))[i].attrs, ms[i]) {
      SendAt(d, Deliveries(ms), i);
    }
  }

  // Every result is accepted, and every factor message deleted.
  lemma SendPhase(c: Config, s0: State, speaks: Speaker, ms: seq<Message>, sends: seq<SendEntry>)
    returns (s: State)
    requires Reachable(c, s0) && At(s0, Sending(sends, Deletes(Deliveries(ms))))
    requires s0.resultQ == NO_QUEUE && s0.sent == map[] && JustIds(s0.factorQ, Ids(ms))
    requires |sends| == |ms| > 0 && Distinct(Ids(ms)) && AllSpeak(speaks, sends, ms)
    ensures Reachable(c, s) && s.factorQ == NO_QUEUE
    ensures ResultsFor(speaks, s.sent, ms) && HoldsJust(s.resultQ, s.sent)
    ensures s == s0.(receivers := s.receivers, factorQ := NO_QUEUE, resultQ := s.resultQ, sent := s.sent)
  {
    var ds, ids := Deliveries(ms), Ids(ms);
    DeliveredAll(speaks, ms, sends);
    var s1 := SendAll(c, s0, ids, sends, Deletes(ds));
    Advanced(c, s0, ReceiverSend(0, {}, ids, 0), s1);
    var a := DeleteAllFactors(c, s1, ds, ids);
    s := SetReceiver(s1, 0, Polling(0)).(factorQ := NO_QUEUE);
    Advanced(c, s1, a, s);
  }

  lemma BuildPhase(c: Config, ms: seq<Message>) returns (s: State)
    requires OneBatch(ms) && Serves(c.maxFactorReceives) && AllReadable(c.dialect, Deliveries(ms))
    ensures Reachable(c, s) && JustIds(s.factorQ, Ids(ms))
    ensures At(s, Sending(Sends(c.dialect, Deliveries(ms)), Deletes(Deliveries(ms))))
    ensures s == Filled(ms, |ms|).(receivers := s.receivers, factorQ := s.factorQ)
  {
    var ds := Deliveries(ms);
    var s0 := TakePhase(c, ms);
    assert Messages(ds) == ms;
    BuildAll(c, s0, ds);
    s := SetReceiver(s0, 0, Sending(Sends(c.dialect, ds), Deletes(ds)));
    Advanced(c, s0, ReceiverBuild(0, ds), s);
  }

  // A receiver takes the whole batch, and every result is accepted.
  lemma ReceiverPhase(c: Config, ms: seq<Message>) returns (s: State)
    requires OneBatch(ms) && Handles(c.dialect, ms) && Serves(c.maxFactorReceives)
    ensures Reachable(c, s)
    ensures s.factorQ == NO_QUEUE && s.accepted == ById(ms, |ms|)
    ensures ResultsFor(Speaking(c.dialect), s.sent, ms) && HoldsJust(s.resultQ, s.sent)
    ensures s.db == EMPTY && s.workers == map[] && s.committed == []
  {
    BuiltSpeak(c.dialect, ms);
    s := BuildPhase(c, ms);
    s := SendPhase(c, s, Speaking(c.dialect), ms, Sends(c.dialect, Deliveries(ms)));
  }

  // ---------------------------------------------------------------------
  // One batch through the persist workers
  // ---------------------------------------------------------------------

  function ReadingsOf(draws: seq<Uuid7.Draw>): (rs: seq<Readings>)
    ensures |rs| == |draws| && forall i :: 0 <= i < |draws| ==> rs[i] == Readings(0, 0, 0, 0, draws[i])
  {
    seq(|draws|, i requires 0 <= i < |draws| => Readings(0, 0, 0, 0, draws[i]))
  }

  predicate AllValid(draws: seq<Uuid7.Draw>) {
    forall i :: 0 <= i < |draws| ==> draws[i].Valid()
  }

  predicate WorkerAt(s: State, me: Persister) {
    0 in s.workers && s.workers[0] == me
  }

  lemma {:induction false} ParsesAll(parse: Parser, poll: Poll, k: nat)
    requires k <= |poll| && forall i :: 0 <= i < k ==> parse(poll[i].0, poll[i].1).Some?
    ensures |ParseFirst(parse, poll, k)| == k
    ensures forall i :: 0 <= i < k ==> Some(ParseFirst(parse, poll, k)[i]) == parse(poll[i].0, poll[i].1)
  {
    if k > 0 { ParsesAll(parse, poll, k - 1); }
  }

  lemma WorkerPollAll(c: Config, s: State, ids: seq<string>)
    requires WorkerAt(s, Waiting([])) && 1 <= |ids| <= 10
    requires CanReceive(s.resultQ, c.maxResultReceives, ids)
    ensures Next(c, s, WorkerPoll(0, ids))
      == Some(SetWorker(s, 0, Persister.Parsing([], Batch(s.resultQ, ids))).(resultQ := Receive(s.resultQ, ids)))
  {
  }

  function Filling(c: Config, buffer: seq<Parsed>): Persister {
    if |buffer| >= c.CommitSize(0) then Committing(buffer) else Waiting(buffer)
  }

  lemma ParseBatch(c: Config, s: State, batch: seq<Message>, readings: seq<Readings>, buffer: seq<Parsed>)
    requires WorkerAt(s, Persister.Parsing([], batch)) && |readings| == |batch|
    requires forall x :: x in readings ==> x.draw.Valid()
    requires buffer == [] + ParsePoll(Persist.Parsing(c.dialect), Zip(batch, readings))
    requires buffer != []
    ensures Enabled(c, s, WorkerParse(0, readings))
    ensures Apply(c, s, WorkerParse(0, readings)) == SetWorker(s, 0, Filling(c, buffer))
  {
  }

  lemma FillUp(c: Config, s: State, buffer: seq<Parsed>)
    requires WorkerAt(s, Waiting(buffer)) && buffer != []
    ensures Next(c, s, WorkerEmptyPoll(0)) == Some(SetWorker(s, 0, Committing(buffer)))
  {
  }

  lemma SetTwice(s: State, w: nat, me: Persister, you: Persister)
    ensures SetWorker(SetWorker(s, w, me), w, you) == SetWorker(s, w, you)
  {
    assert s.workers[w := me][w := you] == s.workers[w := you];
  }

  // Either the batch fills the buffer, or the next empty poll flushes it.
  lemma FillOrFlush(c: Config, s: State, buffer: seq<Parsed>)
    requires Reachable(c, SetWorker(s, 0, Filling(c, buffer))) && buffer != []
    ensures Reachable(c, SetWorker(s, 0, Committing(buffer)))
  {
    if Filling(c, buffer) == Waiting(buffer) {
      var s1 := SetWorker(s, 0, Waiting(buffer));
      FillUp(c, s1, buffer);
      SetTwice(s, 0, Waiting(buffer), Committing(buffer));
      Advanced(c, s1, WorkerEmptyPoll(0), SetWorker(s1, 0, Committing(buffer)));
    }
  }

  lemma ParseAndFill(c: Config, s: State, batch: seq<Message>, readings: seq<Readings>, buffer: seq<Parsed>)
    requires Reachable(c, s) && WorkerAt(s, Persister.Parsing([], batch)) && |readings| == |batch|
    requires forall x :: x in readings ==> x.draw.Valid()
    requires buffer == [] + ParsePoll(Persist.Parsing(c.dialect), Zip(batch, readings))
    requires buffer != []
    ensures Reachable(c, SetWorker(s, 0, Committing(buffer)))
  {
    ParseBatch(c, s, batch, readings, buffer);
    StepReaches(c, s, WorkerParse(0, readings));
    FillOrFlush(c, s, buffer);
  }

  lemma CommitAll(c: Config, s: State, buffer: seq<Parsed>)
    requires WorkerAt(s, Committing(buffer))
    ensures Enabled(c, s, WorkerCommit(0))
    ensures Apply(c, s, WorkerCommit(0)) == SetWorker(s, 0, Clearing(Receipts(buffer)))
      .(db := CommitBatch(s.db, buffer), committed := s.committed + buffer)
  {
  }

  lemma DeleteAllResults(c: Config, s: State, ids: seq<string>) returns (a: Step)
    requires WorkerAt(s, Clearing(ids)) && 1 <= |ids| <= 10 && JustIds(s.resultQ, ids)
    ensures Next(c, s, a) == Some(SetWorker(s, 0, Waiting([])).(resultQ := NO_QUEUE))
  {
    var removed := set id | id in ids;
    assert Chunk(ids) == ids && ids[|ids|..] == [];
    assert Remove(s.resultQ, removed) == NO_QUEUE;
    a := WorkerDelete(0, removed);
  }

  lemma FillPhase(c: Config, s0: State, ids: seq<string>, batch: seq<Message>, draws: seq<Uuid7.Draw>,
                  buffer: seq<Parsed>)
    returns (s: State)
    requires Reachable(c, s0) && s0.workers == map[]
    requires 1 <= |ids| <= 10 && CanReceive(s0.resultQ, c.maxResultReceives, ids)
    requires Batch(s0.resultQ, ids) == batch && |draws| == |batch| && AllValid(draws)
    requires buffer == [] + ParsePoll(Persist.Parsing(c.dialect), Zip(batch, ReadingsOf(draws)))
    requires buffer != []
    ensures Reachable(c, s) && WorkerAt(s, Committing(buffer))
    ensures s == s0.(workers := s.workers, resultQ := Receive(s0.resultQ, ids))
  {
    var s1 := SetWorker(s0, 0, Waiting([]));
    Advanced(c, s0, StartWorker(0), s1);
    WorkerPollAll(c, s1, ids);
    var s2 := SetWorker(s1, 0, Persister.Parsing([], batch)).(resultQ := Receive(s1.resultQ, ids));
    Advanced(c, s1, WorkerPoll(0, ids), s2);
    ParseAndFill(c, s2, batch, ReadingsOf(draws), buffer);
    s := SetWorker(s2, 0, Committing(buffer));
  }

  lemma FlushPhase(c: Config, s0: State, ids: seq<string>, buffer: seq<Parsed>) returns (s: State)
    requires Reachable(c, s0) && WorkerAt(s0, Committing(buffer))
    requires Receipts(buffer) == ids && 1 <= |ids| <= 10 && JustIds(s0.resultQ, ids)
    ensures Reachable(c, s) && s.resultQ == NO_QUEUE && s.committed == s0.committed + buffer
    ensures s == s0.(workers := s.workers, resultQ := NO_QUEUE, db := s.db, committed := s.committed)
  {
    CommitAll(c, s0, buffer);
    StepReaches(c, s0, WorkerCommit(0));
    var s1 := Apply(c, s0, WorkerCommit(0));
    var a := DeleteAllResults(c, s1, ids);
    s := SetWorker(s1, 0, Waiting([])).(resultQ := NO_QUEUE);
    Advanced(c, s1, a, s);
  }

  // When a parsed message came from a factor message with a draw; the stages use Carries.
  type Lander = (Parsed, Message, Uuid7.Draw) -> bool

  ghost function Landing(d: Dialect): Lander {
    (p, m, draw) => Carries(d, p, m) && p.sequence == Uuid7.Generate(m.sentAtMs, draw)
  }

  ghost predicate Lands(lands: Lander, parsed: Option<Parsed>, m: Message, draw: Uuid7.Draw, receipt: string)
  {
    parsed.Some? && parsed.value.receipt == receipt && lands(parsed.value, m, draw)
  }

  // What speaks for a message parses into what came from it.
  ghost predicate SpeechLands(parse: Parser, speaks: Speaker, lands: Lander) {
    forall r: Message, m: Message, draw: Uuid7.Draw :: speaks(r.attrs, m) && m.id != "" && draw.Valid() ==>
      Lands(lands, parse(r, Readings(0, 0, 0, 0, draw)), m, draw, r.id)
  }

  lemma {:induction false} StagesFit(d: Dialect)
    ensures SpeechLands(Persist.Parsing(d), Speaking(d), Landing(d))
  {
    forall r: Message, m: Message, draw: Uuid7.Draw
      | Speaking(d)(r.attrs, m) && m.id != "" && draw.Valid()
      ensures Lands(Landing(d), Persist.Parsing(d)(r, Readings(0, 0, 0, 0, draw)), m, draw, r.id)
    {
      ParseOfResult(d, r, m, Readings(0, 0, 0, 0, draw));
    }
  }

  // What every run of a batch needs: messages, draws and redrive limits that let it through.
  predicate Deliverable(c: Config, ms: seq<Message>, draws: seq<Uuid7.Draw>) {
    && OneBatch(ms) && Handles(c.dialect, ms)
    && |draws| == |ms| && AllValid(draws)
    && Serves(c.maxFactorReceives) && Serves(c.maxResultReceives)
  }

  // All of it has been carried to the end, in order, and both queues are empty.
  ghost predicate CarriedThrough(lands: Lander, s: State, ms: seq<Message>, draws: seq<Uuid7.Draw>)
    requires |draws| == |ms|
  {
    && s.factorQ == NO_QUEUE && s.resultQ == NO_QUEUE && s.accepted == ById(ms, |ms|)
    && |s.committed| == |ms|
    && forall i :: 0 <= i < |ms| ==> lands(s.committed[i], ms[i], draws[i])
  }

  lemma {:induction false} ResultBatch(q: Queue, max: Option<nat>, sent: map<string, Message>, speaks: Speaker,
                                       ms: seq<Message>)
    requires HoldsJust(q, sent) && ResultsFor(speaks, sent, ms) && OneBatch(ms) && Serves(max)
    ensures CanReceive(q, max, Ids(ms)) && JustIds(Receive(q, Ids(ms)), Ids(ms))
    ensures forall i :: 0 <= i < |ms| ==>
      Batch(q, Ids(ms))[i].id == ms[i].id && speaks(Batch(q, Ids(ms))[i].attrs, ms[i])
  {
    assert forall i :: 0 <= i < |ms| ==> ResultFor(speaks, sent, ms[i]);
    ReceiveAll(q, max, ms, sent);
    forall id | id in Ids(ms) ensures id in sent {
      var i :| 0 <= i < |ms| && Ids(ms)[i] == id;
      assert ResultFor(speaks, sent, ms[i]);
    }
  }

  lemma {:induction false} BatchLands(parse: Parser, speaks: Speaker, lands: Lander, batch: seq<Message>,
                                      ms: seq<Message>, draws: seq<Uuid7.Draw>)
    requires SpeechLands(parse, speaks, lands)
    requires |batch| == |ms| == |draws| && AllValid(draws) && "" !in Ids(ms)
    requires forall i :: 0 <= i < |ms| ==> batch[i].id == ms[i].id && speaks(batch[i].attrs, ms[i])
    ensures var buffer := ParsePoll(parse, Zip(batch, ReadingsOf(draws)));
      && |buffer| == |ms| && Receipts(buffer) == Ids(ms)
      && forall i :: 0 <= i < |ms| ==> lands(buffer[i], ms[i], draws[i])
  {
    var poll := Zip(batch, ReadingsOf(draws));
    forall i | 0 <= i < |ms|
      ensures Lands(lands, parse(poll[i].0, poll[i].1), ms[i], draws[i], ms[i].id)
    {
      assert Ids(ms)[i] == ms[i].id;
      assert poll[i] == (batch[i], Readings(0, 0, 0, 0, draws[i]));
    }
    ParsesAll(parse, poll, |poll|);
  }

  lemma StorePhase(c: Config, s0: State, ids: seq<string>, batch: seq<Message>, draws: seq<Uuid7.Draw>,
                   buffer: seq<Parsed>)
    returns (s: State)
    requires Reachable(c, s0) && s0.workers == map[] && s0.committed == []
    requires 1 <= |ids| <= 10 && CanReceive(s0.resultQ, c.maxResultReceives, ids)
    requires JustIds(Receive(s0.resultQ, ids), ids)
    requires Batch(s0.resultQ, ids) == batch && |draws| == |batch| && AllValid(draws)
    requires buffer == ParsePoll(Persist.Parsing(c.dialect), Zip(batch, ReadingsOf(draws)))
    requires Receipts(buffer) == ids
    ensures Reachable(c, s) && s.resultQ == NO_QUEUE && s.committed == buffer
    ensures s.factorQ == s0.factorQ && s.accepted == s0.accepted
  {
    assert [] + buffer == buffer;
    var s1 := FillPhase(c, s0, ids, batch, draws, buffer);
    s := FlushPhase(c, s1, ids, buffer);
  }

  lemma PersistPhase(c: Config, s0: State, speaks: Speaker, lands: Lander, ms: seq<Message>,
                     draws: seq<Uuid7.Draw>)
    returns (s: State)
    requires SpeechLands(Persist.Parsing(c.dialect), speaks, lands)
    requires OneBatch(ms) && |draws| == |ms| && AllValid(draws) && Serves(c.maxResultReceives)
    requires Reachable(c, s0) && s0.factorQ == NO_QUEUE && s0.accepted == ById(ms, |ms|)
    requires ResultsFor(speaks, s0.sent, ms) && HoldsJust(s0.resultQ, s0.sent)
    requires s0.workers == map[] && s0.committed == []
    ensures Reachable(c, s) && CarriedThrough(lands, s, ms, draws)
  {
    var parse, ids := Persist.Parsing(c.dialect), Ids(ms);
    ResultBatch(s0.resultQ, c.maxResultReceives, s0.sent, speaks, ms);
    var batch := Batch(s0.resultQ, ids);
    BatchLands(parse, speaks, lands, batch, ms, draws);
    s := StorePhase(c, s0, ids, batch, draws, ParsePoll(parse, Zip(batch, ReadingsOf(draws))));
  }

  // Any batch of messages whose handling raises nothing can be carried to the end, whatever
  // random bits are drawn: a run exists after which both queues are empty and the committed
  // messages are the results of the batch.
  lemma BatchCanBeDelivered(c: Config, ms: seq<Message>, draws: seq<Uuid7.Draw>) returns (s: State)
    requires Deliverable(c, ms, draws)
    ensures Reachable(c, s) && CarriedThrough(Landing(c.dialect), s, ms, draws)
  {
    var s0 := ReceiverPhase(c, ms);
    StagesFit(c.dialect);
    s := PersistPhase(c, s0, Speaking(c.dialect), Landing(c.dialect), ms, draws);
  }

  // ---------------------------------------------------------------------
  // What the exceptions look like
  // ---------------------------------------------------------------------

  lemma PairById(m1: Message, m2: Message)
    requires m1.id != m2.id && m1.id != "" && m2.id != ""
    ensures OneBatch([m1, m2])
    ensures m1.id in ById([m1, m2], 2) && ById([m1, m2], 2)[m1.id] == m1
    ensures m2.id in ById([m1, m2], 2) && ById([m1, m2], 2)[m2.id] == m2
  {
    var ms := [m1, m2];
    assert Ids(ms)[0] == m1.id && Ids(ms)[1] == m2.id;
    ByIdExact(ms, 2);
    assert ms[0] == m1 && ms[1] == m2;
  }

  lemma LostInReachable(c: Config, s: State, id: string)
    requires Reachable(c, s) && id in s.accepted
    ensures !Accounted(s, id) <==>
      !InQueue(s.factorQ, id) && !ResultWaiting(s, id) && AllDropped(s.committed, id)
  {
    var states, steps :| RunTo(c, states, steps, s);
    LostIff(c, states, steps, |steps|, id);
  }

  lemma SecondIsDropped(ps: seq<Parsed>, id: string)
    requires |ps| == 2 && ps[0].sequence == ps[1].sequence && ps[0].row.sequenceRaw != Some(id)
    ensures AllDropped(ps, id)
  {
    DroppedAtIff(ps, 1);
    assert SameKey(ps, 0, 1);
  }

  lemma {:induction false} LandedPair(d: Dialect, ps: seq<Parsed>, m1: Message, m2: Message, draw: Uuid7.Draw)
    requires |ps| == 2 && Landing(d)(ps[0], m1, draw) && Landing(d)(ps[1], m2, draw)
    requires draw.Valid() && m1.sentAtMs % Uuid7.TWO_48 == m2.sentAtMs % Uuid7.TWO_48
    ensures ps[0].sequence == ps[1].sequence && !DroppedAt(ps, 0)
    ensures ps[0].row.sequenceRaw == Some(m1.id) && ps[1].row.sequenceRaw == Some(m2.id)
  {
    Uuid7.KeysCollideOnlyOnEqualFields(m1.sentAtMs, draw, m2.sentAtMs, draw);
  }

  // Messages do get lost: for any two messages with the same timestamp field there is a run in
  // which both draw the same random bits, both are committed and deleted, and the second is
  // unaccounted for.
  lemma CollisionLosesMessage(c: Config, m1: Message, m2: Message, draw: Uuid7.Draw) returns (s: State)
    requires m1.id != m2.id && m1.id != "" && m2.id != ""
    requires m1.sentAtMs % Uuid7.TWO_48 == m2.sentAtMs % Uuid7.TWO_48 && draw.Valid()
    requires Readable(c.dialect, m1) && Readable(c.dialect, m2)
    requires Serves(c.maxFactorReceives) && Serves(c.maxResultReceives)
    ensures Reachable(c, s)
    ensures m1.id in s.accepted && s.accepted[m1.id] == m1 && Accounted(s, m1.id)
    ensures m2.id in s.accepted && s.accepted[m2.id] == m2 && !Accounted(s, m2.id)
  {
    var ms, draws := [m1, m2], [draw, draw];
    PairById(m1, m2);
    s := BatchCanBeDelivered(c, ms, draws);
    LandedPair(c.dialect, s.committed, m1, m2, draw);
    assert NO_QUEUE.slots == map[];
    SecondIsDropped(s.committed, m2.id);
    LostInReachable(c, s, m1.id);
    LostInReachable(c, s, m2.id);
  }

  // s is reachable, and the accepted message m has left the factor queue there.
  ghost predicate LeftQueue(c: Config, s: State, m: Message) {
    Reachable(c, s) && m.id in s.accepted && s.accepted[m.id] == m && !InQueue(s.factorQ, m.id)
  }

  lemma OneById(m: Message)
    requires m.id != ""
    ensures OneBatch([m]) && m.id in ById([m], 1) && ById([m], 1)[m.id] == m
  {
    assert Ids([m])[0] == m.id;
    ByIdExact([m], 1);
    assert [m][0] == m;
  }

  lemma DeliverOne(c: Config, m: Message, draw: Uuid7.Draw) returns (s: State)
    requires m.id != "" && Readable(c.dialect, m) && draw.Valid()
    requires Serves(c.maxFactorReceives) && Serves(c.maxResultReceives)
    ensures LeftQueue(c, s, m) && |s.committed| == 1 && Landing(c.dialect)(s.committed[0], m, draw)
  {
    OneById(m);
    s := BatchCanBeDelivered(c, [m], [draw]);
  }

  // A message can leave the factor queue, other than for its dead-letter queue, if and only if
  // handling it raises nothing.
  lemma LeavesIffReadable(c: Config, m: Message)
    requires m.id != "" && Serves(c.maxFactorReceives) && Serves(c.maxResultReceives)
    ensures Readable(c.dialect, m) <==> exists s :: LeftQueue(c, s, m)
  {
    if Readable(c.dialect, m) {
      var s := DeliverOne(c, m, Uuid7.Draw(0, 0));
    } else if s :| LeftQueue(c, s, m) {
      var states, steps :| RunTo(c, states, steps, s);
      UnreadableIsKept(c, states, steps, |steps|, m.id);
      assert false;
    }
  }

  // By example: a sign after white space may start a number; a letter does not.
  lemma NumberTexts()
    ensures StartsWithNumber(" -12abc") && !StartsWithNumber("abc") && !StartsWithNumber("- 1")
  {
    assert LeadingBlanks(" -12abc", 1) && NumberAt(" -12abc", 1);
    JsonReadsNumberIff("abc");
    JsonReadsNumberIff("- 1");
    assert "- 1"[1..] == " 1";
  }

  // A TypeScript stage does not refuse a text such as "abc" as a factor: there is a run that
  // stores it as a row with a null factor and no divisors, and deletes the message.
  lemma TextIsStoredAsNull(c: Config, m: Message, draw: Uuid7.Draw) returns (s: State, key: string)
    requires c.dialect.Json? && m.id != "" && draw.Valid()
    requires "Factor" in m.attrs && "Scheme" in m.attrs && !StartsWithNumber(m.attrs["Factor"])
    requires Serves(c.maxFactorReceives) && Serves(c.maxResultReceives)
    ensures LeftQueue(c, s, m) && key in s.db.factors && s.db.factors[key].sequenceRaw == Some(m.id)
    ensures s.db.factors[key].factor == None && s.db.factors[key].result == []
    ensures !CorrectRow(c.dialect, s.db.factors[key], m)
  {
    ReadableIff(c.dialect, m);
    s := DeliverOne(c, m, draw);
    var states, steps :| RunTo(c, states, steps, s);
    InvariantHolds(c, states, steps, |steps|);
    FirstDocumentStays(EMPTY, s.committed, 0);
    key := s.committed[0].sequence;
    EveryRowIsCorrectIff(c, states, steps, |steps|, key);
  }
}
