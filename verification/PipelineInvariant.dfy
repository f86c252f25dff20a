// Every step of the pipeline keeps the invariant, so every state of every run has it.
module PipelineInvariant {
  import opened Wrappers
  import opened Wire
  import opened Process
  import opened Sequences
  import opened Store
  import opened Persist
  import opened Pipeline

  // ---------------------------------------------------------------------
  // Growing history
  // ---------------------------------------------------------------------

  ghost predicate Sub(m: map<string, Message>, m': map<string, Message>) {
    forall id :: id in m ==> id in m' && m'[id] == m[id]
  }

  lemma AnswersGrow(d: Dialect, a: map<string, Message>, a': map<string, Message>,
                    attrs: map<string, string>)
    requires Sub(a, a') && Answers(d, a, attrs)
    ensures Answers(d, a', attrs) && a'[attrs["Sequence"]] == a[attrs["Sequence"]]
  {
  }

  lemma AnsweredGrow(t: map<string, Message>, t': map<string, Message>, id: string)
    requires Sub(t, t') && Answered(t, id)
    ensures Answered(t', id)
  {
    var rid :| rid in t && Attribute(t[rid].attrs, "Sequence") == Some(id);
    assert rid in t';
  }

  lemma ReceiverGrow(d: Dialect, a: map<string, Message>, a': map<string, Message>,
                     t: map<string, Message>, t': map<string, Message>, me: Receiver)
    requires Sub(a, a') && Sub(t, t') && ReceiverOk(d, a, t, me)
    ensures ReceiverOk(d, a', t', me)
  {
    match me {
      case Sending(sends, deletes) =>
        forall i | 0 <= i < |sends| ensures Answers(d, a', sends[i].attrs) {
          AnswersGrow(d, a, a', sends[i].attrs);
        }
      case Deleting(deletes) =>
        forall e | e in deletes ensures Answered(t', e.receipt) { AnsweredGrow(t, t', e.receipt); }
      case _ =>
    }
  }

  lemma ParsedGrow(d: Dialect, a: map<string, Message>, a': map<string, Message>,
                   t: map<string, Message>, t': map<string, Message>, p: Parsed)
    requires Sub(a, a') && Sub(t, t') && ParsedOk(d, a, t, p)
    ensures ParsedOk(d, a', t', p)
  {
    AnswersGrow(d, a, a', t[p.receipt].attrs);
  }

  ghost predicate Extends(ps: seq<Parsed>, ps': seq<Parsed>) {
    forall p :: p in ps ==> p in ps'
  }

  lemma RecordedGrow(ps: seq<Parsed>, ps': seq<Parsed>, receipt: string)
    requires Extends(ps, ps') && Recorded(ps, receipt)
    ensures Recorded(ps', receipt)
  {
    var p :| p in ps && p.receipt == receipt;
    assert p in ps';
  }

  lemma WorkerGrow(d: Dialect, a: map<string, Message>, a': map<string, Message>,
                   t: map<string, Message>, t': map<string, Message>,
                   ps: seq<Parsed>, ps': seq<Parsed>, me: Persister)
    requires Sub(a, a') && Sub(t, t') && Extends(ps, ps') && WorkerOk(d, a, t, ps, me)
    ensures WorkerOk(d, a', t', ps', me)
  {
    if me.Clearing? {
      forall x | x in me.receipts ensures Recorded(ps', x) { RecordedGrow(ps, ps', x); }
    } else if !me.Ended? {
      forall p | p in me.buffer ensures ParsedOk(d, a', t', p) { ParsedGrow(d, a, a', t, t', p); }
    }
  }

  // Growing any part of the history keeps what processes rely on.
  lemma ProcessesGrow(c: Config, s: State, s': State)
    requires ReceiversOk(c, s) && WorkersOk(c, s)
    requires s'.receivers == s.receivers && s'.workers == s.workers
    requires Sub(s.accepted, s'.accepted) && Sub(s.sent, s'.sent) && Extends(s.committed, s'.committed)
    ensures ReceiversOk(c, s') && WorkersOk(c, s')
  {
    forall r | r in s'.receivers
      ensures ReceiverOk(c.dialect, s'.accepted, s'.sent, s'.receivers[r])
    {
      ReceiverGrow(c.dialect, s.accepted, s'.accepted, s.sent, s'.sent, s.receivers[r]);
    }
    forall w | w in s'.workers
      ensures WorkerOk(c.dialect, s'.accepted, s'.sent, s'.committed, s'.workers[w])
    {
      WorkerGrow(c.dialect, s.accepted, s'.accepted, s.sent, s'.sent, s.committed, s'.committed,
                 s.workers[w]);
    }
  }

  // ---------------------------------------------------------------------
  // One component at a time
  // ---------------------------------------------------------------------

  lemma ReceiverMoves(c: Config, s: State, r: nat, me: Receiver)
    requires Inv(c, s) && ReceiverOk(c.dialect, s.accepted, s.sent, me)
    ensures Inv(c, SetReceiver(s, r, me))
  {
  }

  lemma WorkerMoves(c: Config, s: State, w: nat, me: Persister)
    requires Inv(c, s) && WorkerOk(c.dialect, s.accepted, s.sent, s.committed, me)
    ensures Inv(c, SetWorker(s, w, me))
  {
  }

  // A factor message may leave its queue only once it is answered.
  lemma FactorQueueChanges(c: Config, s: State, q: Queue)
    requires Inv(c, s) && QueueOk(q, s.accepted)
    requires forall id :: InQueue(s.factorQ, id) ==> InQueue(q, id) || Answered(s.sent, id)
    ensures Inv(c, s.(factorQ := q))
  {
  }

  // A result message may leave its queue only once it is recorded.
  lemma ResultQueueChanges(c: Config, s: State, q: Queue)
    requires Inv(c, s) && QueueOk(q, s.sent)
    requires forall id :: InQueue(s.resultQ, id) ==> InQueue(q, id) || Recorded(s.committed, id)
    ensures Inv(c, s.(resultQ := q))
  {
  }

  lemma QueueSteps(q: Queue, h: map<string, Message>, ids: seq<string>, id: string)
    requires QueueOk(q, h)
    ensures QueueOk(Receive(q, ids), h)
    ensures forall x :: InQueue(q, x) <==> InQueue(Receive(q, ids), x)
    ensures id in q.slots ==> QueueOk(Expire(q, id), h)
    ensures id in q.slots ==> forall x :: InQueue(q, x) <==> InQueue(Expire(q, id), x)
    ensures id in q.slots ==> QueueOk(Redrive(q, id), h)
    ensures id in q.slots ==> forall x :: InQueue(q, x) <==> InQueue(Redrive(q, id), x)
  {
  }

  lemma BatchOk(q: Queue, h: map<string, Message>, ids: seq<string>)
    requires QueueOk(q, h) && forall id :: id in ids ==> id in q.slots
    ensures forall m :: m in Batch(q, ids) ==> m.id in h && h[m.id] == m
  {
    forall m | m in Batch(q, ids) ensures m.id in h && h[m.id] == m {
      var i :| 0 <= i < |ids| && Batch(q, ids)[i] == m;
      assert ids[i] in ids;
    }
  }

  // ---------------------------------------------------------------------
  // The steps that extend the history
  // ---------------------------------------------------------------------

  lemma AllParsedGrow(d: Dialect, a: map<string, Message>, a': map<string, Message>,
                      t: map<string, Message>, t': map<string, Message>, ps: seq<Parsed>)
    requires Sub(a, a') && Sub(t, t') && AllParsedOk(d, a, t, ps)
    ensures AllParsedOk(d, a', t', ps)
  {
    forall p | p in ps ensures ParsedOk(d, a', t', p) {
      ParsedGrow(d, a, a', t, t', p);
    }
  }

  lemma SentOkGrow(d: Dialect, a: map<string, Message>, a': map<string, Message>, t: map<string, Message>)
    requires Sub(a, a') && SentOk(d, a, t)
    ensures SentOk(d, a', t)
  {
    forall id | id in t ensures Answers(d, a', t[id].attrs) {
      AnswersGrow(d, a, a', t[id].attrs);
    }
  }

  lemma EnqueueOk(q: Queue, h: map<string, Message>, ms: map<string, Message>)
    requires QueueOk(q, h)
    requires forall id :: id in ms ==> id !in h && ms[id].id == id
    ensures QueueOk(Enqueue(q, ms), h + ms)
    ensures forall x :: InQueue(q, x) || x in ms ==> InQueue(Enqueue(q, ms), x)
  {
  }

  lemma AcceptKeeps(c: Config, s: State, s': State, msg: Message)
    requires Inv(c, s) && msg.id != "" && msg.id !in s.accepted
    requires s' == s.(factorQ := Enqueue(s.factorQ, map[msg.id := msg]), accepted := s'.accepted)
    requires s'.accepted == s.accepted + map[msg.id := msg]
    ensures Inv(c, s')
  {
    EnqueueOk(s.factorQ, s.accepted, map[msg.id := msg]);
    SentOkGrow(c.dialect, s.accepted, s'.accepted, s.sent);
    AllParsedGrow(c.dialect, s.accepted, s'.accepted, s.sent, s'.sent, s.committed);
    ProcessesGrow(c, s, s');
  }

  lemma SentOkJoin(d: Dialect, a: map<string, Message>, t: map<string, Message>, u: map<string, Message>)
    requires SentOk(d, a, t) && SentOk(d, a, u)
    ensures SentOk(d, a, t + u)
  {
    forall id | id in t + u ensures Answers(d, a, (t + u)[id].attrs) {
      if id in u { assert Answers(d, a, u[id].attrs); } else { assert Answers(d, a, t[id].attrs); }
    }
  }

  // More result messages: history and kept messages stay right.
  lemma SentHistory(c: Config, s: State, s': State, created: map<string, Message>)
    requires HistoryOk(c, s)
    requires s' == s.(resultQ := Enqueue(s.resultQ, created), sent := s.sent + created)
    requires SentOk(c.dialect, s.accepted, created)
    requires forall id :: id in created ==> id !in s.sent && created[id].id == id
    ensures HistoryOk(c, s') && Sub(s.sent, s'.sent)
    ensures forall x :: InQueue(s.resultQ, x) || x in created ==> InQueue(s'.resultQ, x)
  {
    EnqueueOk(s.resultQ, s.sent, created);
    assert Sub(s.sent, s'.sent);
    AllParsedGrow(c.dialect, s.accepted, s'.accepted, s.sent, s'.sent, s.committed);
    SentOkJoin(c.dialect, s.accepted, s.sent, created);
  }

  lemma SentKept(s: State, s': State)
    requires FactorKept(s)
    requires s'.accepted == s.accepted && s'.factorQ == s.factorQ && Sub(s.sent, s'.sent)
    ensures FactorKept(s')
  {
    forall id | id in s'.accepted ensures InQueue(s'.factorQ, id) || Answered(s'.sent, id) {
      if Answered(s.sent, id) { AnsweredGrow(s.sent, s'.sent, id); }
    }
  }

  lemma SendKeeps(c: Config, s: State, s': State, created: map<string, Message>)
    requires Inv(c, s)
    requires s' == s.(resultQ := Enqueue(s.resultQ, created), sent := s.sent + created)
    requires SentOk(c.dialect, s.accepted, created)
    requires forall id :: id in created ==> id !in s.sent && created[id].id == id
    ensures Inv(c, s') && Sub(s.sent, s'.sent)
  {
    SentHistory(c, s, s', created);
    SentKept(s, s');
    ProcessesGrow(c, s, s');
  }

  lemma CommitKeeps(c: Config, s: State, buffer: seq<Parsed>)
    requires Inv(c, s)
    requires AllParsedOk(c.dialect, s.accepted, s.sent, buffer)
    ensures Inv(c, s.(db := CommitBatch(s.db, buffer), committed := s.committed + buffer))
  {
    var s' := s.(db := CommitBatch(s.db, buffer), committed := s.committed + buffer);
    BatchIsOneByOne(s.db, buffer);
    LoadAppend(EMPTY, s.committed, buffer);
    assert Extends(s.committed, s'.committed);
    ProcessesGrow(c, s, s');
    forall id | id in s'.sent ensures InQueue(s'.resultQ, id) || Recorded(s'.committed, id) {
      if Recorded(s.committed, id) { RecordedGrow(s.committed, s'.committed, id); }
    }
  }

  // ---------------------------------------------------------------------
  // Receivers
  // ---------------------------------------------------------------------

  lemma {:induction false} DeliveredExact(sends: seq<SendEntry>, failed: set<string>,
                                          ids: seq<string>, now: nat, k: nat)
    requires k <= |sends| == |ids| && Distinct(ids)
    ensures var m := Delivered(sends, failed, ids, now, k);
      && (forall id :: id in m ==> exists i ::
            0 <= i < k && ids[i] == id && sends[i].id !in failed && m[id] == Message(id, sends[i].attrs, now))
      && (forall i :: 0 <= i < k && sends[i].id !in failed ==>
            ids[i] in m && m[ids[i]] == Message(ids[i], sends[i].attrs, now))
  {
    if k > 0 { DeliveredExact(sends, failed, ids, now, k - 1); }
  }

  lemma BuiltIsOk(d: Dialect, a: map<string, Message>, t: map<string, Message>, ds: seq<Delivery>)
    requires AllReadable(d, ds)
    requires forall m :: m in Messages(ds) ==> m.id in a && a[m.id] == m
    ensures ReceiverOk(d, a, t, Sending(Sends(d, ds), Deletes(ds)))
  {
    var sends, deletes := Sends(d, ds), Deletes(ds);
    forall i | 0 <= i < |sends|
      ensures sends[i].id == deletes[i].id
      ensures Attribute(sends[i].attrs, "Sequence") == Some(deletes[i].receipt)
      ensures Answers(d, a, sends[i].attrs)
    {
      assert Messages(ds)[i] in Messages(ds);
      SendAt(d, ds, i);
      DeleteAt(ds, i);
    }
  }

  lemma BuildKeeps(c: Config, s: State, r: nat, ds: seq<Delivery>)
    requires Inv(c, s) && Enabled(c, s, ReceiverBuild(r, ds))
    ensures Inv(c, Apply(c, s, ReceiverBuild(r, ds)))
  {
    assert ReceiverOk(c.dialect, s.accepted, s.sent, s.receivers[r]);
    BuiltIsOk(c.dialect, s.accepted, s.sent, ds);
    ReceiverMoves(c, s, r, Sending(Sends(c.dialect, ds), Deletes(ds)));
  }

  lemma DeliveredAnswers(d: Dialect, accepted: map<string, Message>, sends: seq<SendEntry>,
                         failed: set<string>, ids: seq<string>, now: nat)
    requires |sends| == |ids| && Distinct(ids)
    requires forall i {:trigger Answers(d, accepted, sends[i].attrs)} ::
      0 <= i < |sends| ==> Answers(d, accepted, sends[i].attrs)
    ensures var m := Delivered(sends, failed, ids, now, |ids|);
      && SentOk(d, accepted, m)
      && forall id :: id in m ==> id in ids && m[id].id == id
  {
    DeliveredExact(sends, failed, ids, now, |ids|);
    var m := Delivered(sends, failed, ids, now, |ids|);
    forall id | id in m ensures Answers(d, accepted, m[id].attrs) {
      var i :| 0 <= i < |ids| && ids[i] == id && m[id] == Message(id, sends[i].attrs, now);
      assert Answers(d, accepted, sends[i].attrs);
    }
  }

  // The send entry of a kept delete entry went through: it carries the same Id.
  lemma AcceptedIsAnswered(sends: seq<SendEntry>, deletes: seq<DeleteEntry>, failed: set<string>,
                           ids: seq<string>, now: nat, t: map<string, Message>, e: DeleteEntry)
    requires |sends| == |deletes| == |ids| && Distinct(ids)
    requires forall i :: 0 <= i < |sends| ==> sends[i].id == deletes[i].id
    requires forall i :: 0 <= i < |sends| ==>
      Attribute(sends[i].attrs, "Sequence") == Some(deletes[i].receipt)
    requires e in Accepted(deletes, failed)
    ensures Answered(t + Delivered(sends, failed, ids, now, |ids|), e.receipt)
  {
    AcceptedExact(deletes, failed);
    DeliveredExact(sends, failed, ids, now, |ids|);
    var i :| 0 <= i < |deletes| && deletes[i] == e;
    var m := Delivered(sends, failed, ids, now, |ids|);
    assert ids[i] in m && m[ids[i]].attrs == sends[i].attrs;
    assert ids[i] in t + m && (t + m)[ids[i]] == m[ids[i]];
  }

  lemma KeptAreAnswered(d: Dialect, accepted: map<string, Message>, t: map<string, Message>,
                        me: Receiver, failed: set<string>, ids: seq<string>, now: nat)
    requires me.Sending? && ReceiverOk(d, accepted, t, me) && |ids| == |me.sends| && Distinct(ids)
    ensures forall e :: e in Accepted(me.deletes, failed) ==>
      Answered(t + Delivered(me.sends, failed, ids, now, |ids|), e.receipt)
  {
    forall e | e in Accepted(me.deletes, failed)
      ensures Answered(t + Delivered(me.sends, failed, ids, now, |ids|), e.receipt)
    {
      AcceptedIsAnswered(me.sends, me.deletes, failed, ids, now, t, e);
    }
  }

  lemma ReceiverSendKeeps(c: Config, s: State, r: nat, failed: set<string>, ids: seq<string>, now: nat)
    requires Inv(c, s) && Enabled(c, s, ReceiverSend(r, failed, ids, now))
    ensures Inv(c, Apply(c, s, ReceiverSend(r, failed, ids, now)))
  {
    var me := s.receivers[r];
    assert ReceiverOk(c.dialect, s.accepted, s.sent, me);
    var created := Delivered(me.sends, failed, ids, now, |ids|);
    DeliveredAnswers(c.dialect, s.accepted, me.sends, failed, ids, now);
    var s1 := s.(resultQ := Enqueue(s.resultQ, created), sent := s.sent + created);
    SendKeeps(c, s, s1, created);
    KeptAreAnswered(c.dialect, s.accepted, s.sent, me, failed, ids, now);
    var kept := Accepted(me.deletes, failed);
    ReceiverMoves(c, s1, r, if kept == [] then Polling(0) else Deleting(kept));
  }

  lemma ReceiverDeleteKeeps(c: Config, s: State, r: nat, removed: set<string>)
    requires Inv(c, s) && Enabled(c, s, ReceiverDelete(r, removed))
    ensures Inv(c, Apply(c, s, ReceiverDelete(r, removed)))
  {
    var me := s.receivers[r];
    assert ReceiverOk(c.dialect, s.accepted, s.sent, me);
    forall id | id in removed ensures Answered(s.sent, id) {
      var e :| e in me.deletes && e.receipt == id;
    }
    FactorQueueChanges(c, s, Remove(s.factorQ, removed));
    ReceiverMoves(c, s.(factorQ := Remove(s.factorQ, removed)), r, Polling(0));
  }

  // ---------------------------------------------------------------------
  // Workers
  // ---------------------------------------------------------------------

  lemma ParsedIsOk(d: Dialect, a: map<string, Message>, t: map<string, Message>, m: Message, x: Readings)
    requires m.id in t && t[m.id] == m && Answers(d, a, m.attrs)
    requires a[m.attrs["Sequence"]].id == m.attrs["Sequence"] != "" && x.draw.Valid()
    ensures Parse(d, m, x).Some? && ParsedOk(d, a, t, Parse(d, m, x).value)
  {
    ParseOfResult(d, m, a[m.attrs["Sequence"]], x);
  }

  ghost predicate ParsesOk(d: Dialect, a: map<string, Message>, t: map<string, Message>,
                           parsed: Option<Parsed>)
  {
    parsed.Some? ==> ParsedOk(d, a, t, parsed.value)
  }

  lemma {:induction false} ParseFirstOk(parse: Parser, d: Dialect, a: map<string, Message>,
                                        t: map<string, Message>, poll: Poll, k: nat)
    requires k <= |poll|
    requires forall i :: 0 <= i < k ==> ParsesOk(d, a, t, parse(poll[i].0, poll[i].1))
    ensures AllParsedOk(d, a, t, ParseFirst(parse, poll, k))
  {
    if k > 0 {
      ParseFirstOk(parse, d, a, t, poll, k - 1);
      assert ParsesOk(d, a, t, parse(poll[k - 1].0, poll[k - 1].1));
    }
  }

  lemma WorkerParseKeeps(c: Config, s: State, w: nat, readings: seq<Readings>)
    requires Inv(c, s) && Enabled(c, s, WorkerParse(w, readings))
    ensures Inv(c, Apply(c, s, WorkerParse(w, readings)))
  {
    var me := s.workers[w];
    assert WorkerOk(c.dialect, s.accepted, s.sent, s.committed, me);
    var poll := Zip(me.batch, readings);
    var parse := Persist.Parsing(c.dialect);
    forall i | 0 <= i < |poll|
      ensures ParsesOk(c.dialect, s.accepted, s.sent, parse(poll[i].0, poll[i].1))
    {
      assert me.batch[i] in me.batch && readings[i] in readings;
      assert Answers(c.dialect, s.accepted, s.sent[me.batch[i].id].attrs);
      ParsedIsOk(c.dialect, s.accepted, s.sent, me.batch[i], readings[i]);
    }
    ParseFirstOk(parse, c.dialect, s.accepted, s.sent, poll, |poll|);
    var buffer := me.buffer + ParsePoll(parse, poll);
    WorkerMoves(c, s, w,
      if buffer != [] && |buffer| >= c.CommitSize(w) then Committing(buffer) else Waiting(buffer));
  }

  lemma WorkerCommitKeeps(c: Config, s: State, w: nat)
    requires Inv(c, s) && Enabled(c, s, WorkerCommit(w))
    ensures Inv(c, Apply(c, s, WorkerCommit(w)))
  {
    var buffer := s.workers[w].buffer;
    assert WorkerOk(c.dialect, s.accepted, s.sent, s.committed, s.workers[w]);
    CommitKeeps(c, s, buffer);
    var s1 := s.(db := CommitBatch(s.db, buffer), committed := s.committed + buffer);
    forall x | x in Receipts(buffer) ensures Recorded(s1.committed, x) {
      var i :| 0 <= i < |buffer| && buffer[i].receipt == x;
      assert buffer[i] in s1.committed;
    }
    WorkerMoves(c, s1, w, Clearing(Receipts(buffer)));
  }

  lemma ChunkSplits(receipts: seq<string>)
    ensures Chunk(receipts) + receipts[|Chunk(receipts)|..] == receipts
    ensures forall x :: x in receipts <==> x in Chunk(receipts) || x in receipts[|Chunk(receipts)|..]
  {
    assert forall x :: x in receipts <==> x in Chunk(receipts) + receipts[|Chunk(receipts)|..];
  }

  lemma WorkerDeleteKeeps(c: Config, s: State, w: nat, removed: set<string>)
    requires Inv(c, s) && Enabled(c, s, WorkerDelete(w, removed))
    ensures Inv(c, Apply(c, s, WorkerDelete(w, removed)))
  {
    var receipts := s.workers[w].receipts;
    assert WorkerOk(c.dialect, s.accepted, s.sent, s.committed, s.workers[w]);
    var rest := receipts[|Chunk(receipts)|..];
    ChunkSplits(receipts);
    ResultQueueChanges(c, s, Remove(s.resultQ, removed));
    WorkerMoves(c, s.(resultQ := Remove(s.resultQ, removed)), w,
      if rest == [] then Waiting([]) else Clearing(rest));
  }

  // ---------------------------------------------------------------------
  // All steps, all runs
  // ---------------------------------------------------------------------

  lemma QueueStepKeeps(c: Config, s: State, a: Step)
    requires Inv(c, s) && Enabled(c, s, a)
    requires a.FactorExpire? || a.FactorRedrive? || a.ResultExpire? || a.ResultRedrive?
    ensures Inv(c, Apply(c, s, a))
  {
    QueueSteps(s.factorQ, s.accepted, [], a.id);
    QueueSteps(s.resultQ, s.sent, [], a.id);
    match a {
      case FactorExpire(id) => FactorQueueChanges(c, s, Expire(s.factorQ, id));
      case FactorRedrive(id) => FactorQueueChanges(c, s, Redrive(s.factorQ, id));
      case ResultExpire(id) => ResultQueueChanges(c, s, Expire(s.resultQ, id));
      case ResultRedrive(id) => ResultQueueChanges(c, s, Redrive(s.resultQ, id));
    }
  }

  lemma ReceiverPollKeeps(c: Config, s: State, r: nat, ids: seq<string>)
    requires Inv(c, s) && Enabled(c, s, ReceiverPoll(r, ids))
    ensures Inv(c, Apply(c, s, ReceiverPoll(r, ids)))
  {
    QueueSteps(s.factorQ, s.accepted, ids, "");
    BatchOk(s.factorQ, s.accepted, ids);
    FactorQueueChanges(c, s, Receive(s.factorQ, ids));
    ReceiverMoves(c, s.(factorQ := Receive(s.factorQ, ids)), r, Holding(Batch(s.factorQ, ids)));
  }

  lemma WorkerPollKeeps(c: Config, s: State, w: nat, ids: seq<string>)
    requires Inv(c, s) && Enabled(c, s, WorkerPoll(w, ids))
    ensures Inv(c, Apply(c, s, WorkerPoll(w, ids)))
  {
    QueueSteps(s.resultQ, s.sent, ids, "");
    BatchOk(s.resultQ, s.sent, ids);
    ResultQueueChanges(c, s, Receive(s.resultQ, ids));
    assert WorkerOk(c.dialect, s.accepted, s.sent, s.committed, s.workers[w]);
    WorkerMoves(c, s.(resultQ := Receive(s.resultQ, ids)), w,
      Parsing(s.workers[w].buffer, Batch(s.resultQ, ids)));
  }

  lemma WorkerEmptyPollKeeps(c: Config, s: State, w: nat)
    requires Inv(c, s) && Enabled(c, s, WorkerEmptyPoll(w))
    ensures Inv(c, Apply(c, s, WorkerEmptyPoll(w)))
  {
    var buffer := s.workers[w].buffer;
    assert WorkerOk(c.dialect, s.accepted, s.sent, s.committed, s.workers[w]);
    WorkerMoves(c, s, w, if buffer == [] then Ended else Committing(buffer));
  }

  predicate IsReceiverStep(a: Step) {
    a.StartReceiver? || a.CrashReceiver? || a.ReceiverEmptyPoll? || a.ReceiverPoll? ||
    a.ReceiverBuild? || a.ReceiverSend? || a.ReceiverDelete?
  }

  predicate IsWorkerStep(a: Step) {
    a.StartWorker? || a.CrashWorker? || a.WorkerEmptyPoll? || a.WorkerPoll? ||
    a.WorkerParse? || a.WorkerCommit? || a.WorkerDelete?
  }

  lemma ReceiverStepKeeps(c: Config, s: State, a: Step)
    requires Inv(c, s) && Enabled(c, s, a) && IsReceiverStep(a)
    ensures Inv(c, Apply(c, s, a))
  {
    match a {
      case StartReceiver(r) => ReceiverMoves(c, s, r, Polling(0));
      case CrashReceiver(r) =>
      case ReceiverEmptyPoll(r) =>
        var n := s.receivers[r].emptyPolls + 1;
        ReceiverMoves(c, s, r, if n >= 3 then Stopped else Polling(n));
      case ReceiverPoll(r, ids) => ReceiverPollKeeps(c, s, r, ids);
      case ReceiverBuild(r, received) => BuildKeeps(c, s, r, received);
      case ReceiverSend(r, failed, ids, now) => ReceiverSendKeeps(c, s, r, failed, ids, now);
      case ReceiverDelete(r, removed) => ReceiverDeleteKeeps(c, s, r, removed);
    }
  }

  lemma WorkerStepKeeps(c: Config, s: State, a: Step)
    requires Inv(c, s) && Enabled(c, s, a) && IsWorkerStep(a)
    ensures Inv(c, Apply(c, s, a))
  {
    match a {
      case StartWorker(w) => WorkerMoves(c, s, w, Waiting([]));
      case CrashWorker(w) =>
      case WorkerEmptyPoll(w) => WorkerEmptyPollKeeps(c, s, w);
      case WorkerPoll(w, ids) => WorkerPollKeeps(c, s, w, ids);
      case WorkerParse(w, readings) => WorkerParseKeeps(c, s, w, readings);
      case WorkerCommit(w) => WorkerCommitKeeps(c, s, w);
      case WorkerDelete(w, removed) => WorkerDeleteKeeps(c, s, w, removed);
    }
  }

  lemma StepKeepsInv(c: Config, s: State, a: Step)
    requires Inv(c, s) && Enabled(c, s, a)
    ensures Inv(c, Apply(c, s, a))
  {
    if a.Accept? {
      assert s.accepted[a.msg.id := a.msg] == s.accepted + map[a.msg.id := a.msg];
      AcceptKeeps(c, s, Apply(c, s, a), a.msg);
    } else if IsReceiverStep(a) {
      ReceiverStepKeeps(c, s, a);
    } else if IsWorkerStep(a) {
      WorkerStepKeeps(c, s, a);
    } else {
      QueueStepKeeps(c, s, a);
    }
  }

  lemma {:induction false} InvariantHolds(c: Config, states: seq<State>, steps: seq<Step>, i: nat)
    requires IsRun(c, states, steps) && i <= |steps|
    ensures Inv(c, states[i])
  {
    if i > 0 {
      InvariantHolds(c, states, steps, i - 1);
      assert StepAt(c, states, steps, i - 1);
      StepKeepsInv(c, states[i - 1], steps[i - 1]);
    }
  }
}
