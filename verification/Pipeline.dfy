// The whole pipeline as a step system: a factor queue, any number of receivers, a result
// queue, any number of persist workers and the database. Every call to a queue or to the
// database is one step, steps of different processes interleave freely, and between any
// two steps a process may crash, a visibility timeout may expire or a message may be
// redriven to the dead-letter queue.
module Pipeline {
  import opened Wrappers
  import opened Wire
  import opened Divisors
  import opened Process
  import opened Sequences
  import opened Store
  import opened Persist
  import Uuid7

  // ---------------------------------------------------------------------
  // Queues
  // ---------------------------------------------------------------------

  datatype Slot = Slot(msg: Message, inFlight: bool, receives: nat)

  // A queue with the part of the dead-letter queue that came from it.
  datatype Queue = Queue(slots: map<string, Slot>, dead: map<string, Message>)

  // maxReceiveCount of the redrive policy; the TypeScript queues have none.
  predicate Exhausted(max: Option<nat>, slot: Slot) {
    max.Some? && slot.receives >= max.value
  }

  // receive_message may hand out any visible messages that are not due for redrive, and a
  // message even twice.
  predicate CanReceive(q: Queue, max: Option<nat>, ids: seq<string>) {
    forall id :: id in ids ==> id in q.slots && !q.slots[id].inFlight && !Exhausted(max, q.slots[id])
  }

  function Receive(q: Queue, ids: seq<string>): Queue {
    q.(slots := map id | id in q.slots ::
      if id in ids then Slot(q.slots[id].msg, true, q.slots[id].receives + 1) else q.slots[id])
  }

  function Batch(q: Queue, ids: seq<string>): (ms: seq<Message>)
    requires forall id :: id in ids ==> id in q.slots
    ensures |ms| == |ids|
  {
    seq(|ids|, i requires 0 <= i < |ids| => q.slots[ids[i]].msg)
  }

  function Expire(q: Queue, id: string): Queue
    requires id in q.slots
  {
    q.(slots := q.slots[id := q.slots[id].(inFlight := false)])
  }

  function Redrive(q: Queue, id: string): Queue
    requires id in q.slots
  {
    Queue(q.slots - {id}, q.dead[id := q.slots[id].msg])
  }

  function Remove(q: Queue, ids: set<string>): Queue {
    q.(slots := q.slots - ids)
  }

  function Enqueue(q: Queue, ms: map<string, Message>): Queue {
    q.(slots := q.slots + map id | id in ms :: Slot(ms[id], false, 0))
  }

  predicate InQueue(q: Queue, id: string) {
    id in q.slots || id in q.dead
  }

  function MessageIn(q: Queue, id: string): Message
    requires InQueue(q, id)
  {
    if id in q.slots then q.slots[id].msg else q.dead[id]
  }

  // ---------------------------------------------------------------------
  // Processes and the system
  // ---------------------------------------------------------------------

  // Where a receiver is in its loop, and what it holds there.
  datatype Receiver =
    | Polling(emptyPolls: nat)
    | Holding(batch: seq<Message>)
    | Sending(sends: seq<SendEntry>, deletes: seq<DeleteEntry>)
    | Deleting(deletes: seq<DeleteEntry>)
    | Stopped

  // Where a persist worker is in its loop, and its buffered messages.
  datatype Persister =
    | Waiting(buffer: seq<Parsed>)
    | Parsing(buffer: seq<Parsed>, batch: seq<Message>)
    | Committing(buffer: seq<Parsed>)
    | Clearing(receipts: seq<string>)
    | Ended

  // commitSize is COMMIT_SIZE of each worker; a worker without one commits per receive,
  // which is the same as a COMMIT_SIZE of 1.
  datatype Config = Config(
    dialect: Dialect, commitSize: map<nat, int>,
    maxFactorReceives: Option<nat>, maxResultReceives: Option<nat>)
  {
    function CommitSize(w: nat): int {
      if w in commitSize then commitSize[w] else 1
    }
  }

  // The last three components are history: every message either queue ever accepted, and
  // every parsed message ever committed, in commit order.
  datatype State = State(
    factorQ: Queue, resultQ: Queue, db: Db,
    receivers: map<nat, Receiver>, workers: map<nat, Persister>,
    accepted: map<string, Message>, sent: map<string, Message>, committed: seq<Parsed>)

  const INITIAL := State(
    Queue(map[], map[]), Queue(map[], map[]), EMPTY, map[], map[], map[], map[], [])

  datatype Step =
    | Accept(msg: Message)
    | FactorExpire(id: string)
    | FactorRedrive(id: string)
    | ResultExpire(id: string)
    | ResultRedrive(id: string)
    | StartReceiver(r: nat)
    | CrashReceiver(r: nat)
    | ReceiverEmptyPoll(r: nat)
    | ReceiverPoll(r: nat, ids: seq<string>)
    | ReceiverBuild(r: nat, received: seq<Delivery>)
    | ReceiverSend(r: nat, failed: set<string>, ids: seq<string>, now: nat)
    | ReceiverDelete(r: nat, removed: set<string>)
    | StartWorker(w: nat)
    | CrashWorker(w: nat)
    | WorkerEmptyPoll(w: nat)
    | WorkerPoll(w: nat, ids: seq<string>)
    | WorkerParse(w: nat, readings: seq<Readings>)
    | WorkerCommit(w: nat)
    | WorkerDelete(w: nat, removed: set<string>)

  // The messages that a send_message_batch creates from its first k entries: one for each
  // entry that is not reported Failed, under the id the queue gives it.
  function Delivered(sends: seq<SendEntry>, failed: set<string>, ids: seq<string>, now: nat, k: nat)
    : map<string, Message>
    requires k <= |sends| == |ids|
  {
    if k == 0 then map[]
    else
      var before := Delivered(sends, failed, ids, now, k - 1);
      if sends[k - 1].id in failed then before
      else before[ids[k - 1] := Message(ids[k - 1], sends[k - 1].attrs, now)]
  }

  function Messages(ds: seq<Delivery>): (ms: seq<Message>)
    ensures |ms| == |ds| && forall i :: 0 <= i < |ds| ==> ms[i] == ds[i].msg
  {
    seq(|ds|, i requires 0 <= i < |ds| => ds[i].msg)
  }

  function Ids(ms: seq<Message>): (ids: seq<string>)
    ensures |ids| == |ms| && forall i :: 0 <= i < |ms| ==> ids[i] == ms[i].id
  {
    seq(|ms|, i requires 0 <= i < |ms| => ms[i].id)
  }

  function EntryIds(es: seq<DeleteEntry>): set<string> {
    set e | e in es :: e.receipt
  }

  function Zip(batch: seq<Message>, readings: seq<Readings>): Poll
    requires |batch| == |readings|
  {
    seq(|batch|, i requires 0 <= i < |batch| => (batch[i], readings[i]))
  }

  function Chunk(receipts: seq<string>): seq<string> {
    if |receipts| <= 10 then receipts else receipts[..10]
  }

  predicate Enabled(c: Config, s: State, a: Step) {
    match a
    case Accept(msg) => msg.id != "" && msg.id !in s.accepted
    case FactorExpire(id) => id in s.factorQ.slots
    case FactorRedrive(id) =>
      id in s.factorQ.slots && !s.factorQ.slots[id].inFlight
      && Exhausted(c.maxFactorReceives, s.factorQ.slots[id])
    case ResultExpire(id) => id in s.resultQ.slots
    case ResultRedrive(id) =>
      id in s.resultQ.slots && !s.resultQ.slots[id].inFlight
      && Exhausted(c.maxResultReceives, s.resultQ.slots[id])
    case StartReceiver(r) => r !in s.receivers
    case CrashReceiver(r) => r in s.receivers
    case ReceiverEmptyPoll(r) => r in s.receivers && s.receivers[r].Polling?
    case ReceiverPoll(r, ids) =>
      r in s.receivers && s.receivers[r].Polling? && 1 <= |ids| <= 10
      && CanReceive(s.factorQ, c.maxFactorReceives, ids)
    case ReceiverBuild(r, received) =>
      r in s.receivers && s.receivers[r].Holding? && Messages(received) == s.receivers[r].batch
      && AllReadable(c.dialect, received)
    case ReceiverSend(r, failed, ids, now) =>
      r in s.receivers && s.receivers[r].Sending? && |ids| == |s.receivers[r].sends|
      && Distinct(ids) && (forall id :: id in ids ==> id !in s.sent)
    case ReceiverDelete(r, removed) =>
      r in s.receivers && s.receivers[r].Deleting? && removed <= EntryIds(s.receivers[r].deletes)
    case StartWorker(w) => w !in s.workers
    case CrashWorker(w) => w in s.workers
    case WorkerEmptyPoll(w) => w in s.workers && s.workers[w].Waiting?
    case WorkerPoll(w, ids) =>
      w in s.workers && s.workers[w].Waiting? && 1 <= |ids| <= 10
      && CanReceive(s.resultQ, c.maxResultReceives, ids)
    case WorkerParse(w, readings) =>
      w in s.workers && s.workers[w].Parsing? && |readings| == |s.workers[w].batch|
      && forall x :: x in readings ==> x.draw.Valid()
    case WorkerCommit(w) => w in s.workers && s.workers[w].Committing?
    case WorkerDelete(w, removed) =>
      w in s.workers && s.workers[w].Clearing? && removed <= (set x | x in Chunk(s.workers[w].receipts))
  }

  function SetReceiver(s: State, r: nat, me: Receiver): State {
    s.(receivers := s.receivers[r := me])
  }

  function SetWorker(s: State, w: nat, me: Persister): State {
    s.(workers := s.workers[w := me])
  }

  function Apply(c: Config, s: State, a: Step): State
    requires Enabled(c, s, a)
  {
    match a
    case Accept(msg) =>
      s.(factorQ := Enqueue(s.factorQ, map[msg.id := msg]), accepted := s.accepted[msg.id := msg])
    case FactorExpire(id) => s.(factorQ := Expire(s.factorQ, id))
    case FactorRedrive(id) => s.(factorQ := Redrive(s.factorQ, id))
    case ResultExpire(id) => s.(resultQ := Expire(s.resultQ, id))
    case ResultRedrive(id) => s.(resultQ := Redrive(s.resultQ, id))
    case StartReceiver(r) => SetReceiver(s, r, Polling(0))
    case CrashReceiver(r) => s.(receivers := s.receivers - {r})
    case ReceiverEmptyPoll(r) =>
      var n := s.receivers[r].emptyPolls + 1;
      SetReceiver(s, r, if n >= 3 then Stopped else Polling(n))
    case ReceiverPoll(r, ids) =>
      SetReceiver(s, r, Holding(Batch(s.factorQ, ids))).(factorQ := Receive(s.factorQ, ids))
    case ReceiverBuild(r, received) =>
      SetReceiver(s, r, Sending(Sends(c.dialect, received), Deletes(received)))
    case ReceiverSend(r, failed, ids, now) =>
      var me := s.receivers[r];
      var created := Delivered(me.sends, failed, ids, now, |ids|);
      var kept := Accepted(me.deletes, failed);
      SetReceiver(s, r, if kept == [] then Polling(0) else Deleting(kept))
        .(resultQ := Enqueue(s.resultQ, created), sent := s.sent + created)
    case ReceiverDelete(r, removed) =>
      SetReceiver(s, r, Polling(0)).(factorQ := Remove(s.factorQ, removed))
    case StartWorker(w) => SetWorker(s, w, Waiting([]))
    case CrashWorker(w) => s.(workers := s.workers - {w})
    case WorkerEmptyPoll(w) =>
      var buffer := s.workers[w].buffer;
      SetWorker(s, w, if buffer == [] then Ended else Committing(buffer))
    case WorkerPoll(w, ids) =>
      SetWorker(s, w, Parsing(s.workers[w].buffer, Batch(s.resultQ, ids)))
        .(resultQ := Receive(s.resultQ, ids))
    case WorkerParse(w, readings) =>
      var me := s.workers[w];
      var buffer := me.buffer + ParsePoll(Persist.Parsing(c.dialect), Zip(me.batch, readings));
      SetWorker(s, w,
        if buffer != [] && |buffer| >= c.CommitSize(w) then Committing(buffer) else Waiting(buffer))
    case WorkerCommit(w) =>
      var buffer := s.workers[w].buffer;
      SetWorker(s, w, Clearing(Receipts(buffer)))
        .(db := CommitBatch(s.db, buffer), committed := s.committed + buffer)
    case WorkerDelete(w, removed) =>
      var receipts := s.workers[w].receipts;
      var rest := receipts[|Chunk(receipts)|..];
      SetWorker(s, w, if rest == [] then Waiting([]) else Clearing(rest))
        .(resultQ := Remove(s.resultQ, removed))
  }

  ghost predicate StepAt(c: Config, states: seq<State>, steps: seq<Step>, i: nat)
    requires i < |steps| && |states| == |steps| + 1
  {
    Enabled(c, states[i], steps[i]) && states[i + 1] == Apply(c, states[i], steps[i])
  }

  // A run: states joined by enabled steps, from the empty system.
  ghost predicate IsRun(c: Config, states: seq<State>, steps: seq<Step>) {
    && |states| == |steps| + 1
    && states[0] == INITIAL
    && forall i :: 0 <= i < |steps| ==> StepAt(c, states, steps, i)
  }

  // ---------------------------------------------------------------------
  // The invariant
  // ---------------------------------------------------------------------

  // Each queue holds messages it accepted, unchanged.
  ghost predicate QueueOk(q: Queue, history: map<string, Message>) {
    && (forall id :: id in q.slots ==> id in history && q.slots[id].msg == history[id])
    && (forall id :: id in q.dead ==> id in history && q.dead[id] == history[id])
    && (forall id :: id in history ==> history[id].id == id)
  }

  // A result message answers the accepted message that its Sequence names.
  ghost predicate Answers(d: Dialect, accepted: map<string, Message>, attrs: map<string, string>) {
    && "Sequence" in attrs && attrs["Sequence"] in accepted
    && SpeaksFor(d, attrs, accepted[attrs["Sequence"]])
  }

  ghost predicate SentOk(d: Dialect, accepted: map<string, Message>, sent: map<string, Message>) {
    forall id {:trigger Answers(d, accepted, sent[id].attrs)} ::
      id in sent ==> Answers(d, accepted, sent[id].attrs)
  }

  // Some result message ever accepted answers the factor message.
  ghost predicate Answered(sent: map<string, Message>, id: string) {
    exists rid :: rid in sent && Attribute(sent[rid].attrs, "Sequence") == Some(id)
  }

  ghost predicate ReceiverOk(d: Dialect, accepted: map<string, Message>, sent: map<string, Message>,
                             me: Receiver)
  {
    match me
    case Polling(_) => true
    case Holding(batch) => forall m :: m in batch ==> m.id in accepted && accepted[m.id] == m
    case Sending(sends, deletes) =>
      && |sends| == |deletes|
      && (forall i :: 0 <= i < |sends| ==> sends[i].id == deletes[i].id)
      && (forall i :: 0 <= i < |sends| ==>
            Attribute(sends[i].attrs, "Sequence") == Some(deletes[i].receipt))
      && (forall i {:trigger Answers(d, accepted, sends[i].attrs)} ::
            0 <= i < |sends| ==> Answers(d, accepted, sends[i].attrs))
    case Deleting(deletes) => forall e :: e in deletes ==> Answered(sent, e.receipt)
    case Stopped => true
  }

  // A parsed message carries the factor message behind its result message.
  ghost predicate ParsedOk(d: Dialect, accepted: map<string, Message>, sent: map<string, Message>,
                           p: Parsed)
  {
    && p.receipt in sent
    && Answers(d, accepted, sent[p.receipt].attrs)
    && Carries(d, p, accepted[sent[p.receipt].attrs["Sequence"]])
  }

  ghost predicate AllParsedOk(d: Dialect, accepted: map<string, Message>, sent: map<string, Message>,
                              ps: seq<Parsed>)
  {
    forall p {:trigger ParsedOk(d, accepted, sent, p)} ::
      p in ps ==> ParsedOk(d, accepted, sent, p)
  }

  ghost predicate Recorded(committed: seq<Parsed>, receipt: string) {
    exists p :: p in committed && p.receipt == receipt
  }

  ghost predicate WorkerOk(d: Dialect, accepted: map<string, Message>, sent: map<string, Message>,
                           committed: seq<Parsed>, me: Persister)
  {
    match me
    case Waiting(buffer) => AllParsedOk(d, accepted, sent, buffer)
    case Parsing(buffer, batch) =>
      && AllParsedOk(d, accepted, sent, buffer)
      && (forall m :: m in batch ==> m.id in sent && sent[m.id] == m)
    case Committing(buffer) => AllParsedOk(d, accepted, sent, buffer)
    case Clearing(receipts) => forall x :: x in receipts ==> Recorded(committed, x)
    case Ended => true
  }

  ghost predicate FactorKept(s: State) {
    forall id :: id in s.accepted ==> InQueue(s.factorQ, id) || Answered(s.sent, id)
  }

  ghost predicate ResultKept(s: State) {
    forall id :: id in s.sent ==> InQueue(s.resultQ, id) || Recorded(s.committed, id)
  }

  ghost predicate ReceiversOk(c: Config, s: State) {
    forall r :: r in s.receivers ==> ReceiverOk(c.dialect, s.accepted, s.sent, s.receivers[r])
  }

  ghost predicate WorkersOk(c: Config, s: State) {
    forall w :: w in s.workers ==> WorkerOk(c.dialect, s.accepted, s.sent, s.committed, s.workers[w])
  }

  ghost predicate HistoryOk(c: Config, s: State) {
    && "" !in s.accepted
    && QueueOk(s.factorQ, s.accepted)
    && QueueOk(s.resultQ, s.sent)
    && SentOk(c.dialect, s.accepted, s.sent)
    && AllParsedOk(c.dialect, s.accepted, s.sent, s.committed)
  }

  ghost predicate Inv(c: Config, s: State) {
    && HistoryOk(c, s)
    && s.db == Load(EMPTY, s.committed)
    && FactorKept(s) && ResultKept(s)
    && ReceiversOk(c, s) && WorkersOk(c, s)
  }
}
