// The generator: numbered messages in batches of ten, batches in chunks of MAX_WORKERS
// concurrent requests, and top-ups until the total limit is reached.
module Generator {
  import opened Wire
  import opened Sequences

  const BATCH_SIZE := 10

  datatype Entry = Entry(id: string, factor: int, scheme: int)

  // The randInt(4, scheme) drawn for each message index.
  type Draws = nat -> int

  function EntryAt(index: nat, scheme: int, draws: Draws): Entry {
    Entry(PrintNat(index), draws(index), scheme)
  }

  // The message attributes of an entry.
  function Attributes(e: Entry, runtime: string): map<string, string> {
    map["Factor" := PrintInt(e.factor), "Scheme" := PrintInt(e.scheme), "Runtime" := runtime]
  }

  // The entries start, start + 1, ..., start + count - 1.
  function Range(start: nat, count: nat, scheme: int, draws: Draws): (es: seq<Entry>)
    ensures |es| == count
    ensures forall i :: 0 <= i < count ==> es[i] == EntryAt(start + i, scheme, draws)
  {
    seq(count, i requires 0 <= i < count => EntryAt(start + i, scheme, draws))
  }

  // The messages with the Ids 0 .. n - 1, each exactly once and in order.
  ghost predicate Numbered(es: seq<Entry>, start: nat) {
    forall i :: 0 <= i < |es| ==> es[i].id == PrintNat(start + i)
  }

  lemma NumberedOnce(es: seq<Entry>, i: nat, j: nat)
    requires Numbered(es, 0) && i < |es| && j < |es|
    ensures es[i].id == es[j].id <==> i == j
  {
    ValueOfPrintNat(i);
    ValueOfPrintNat(j);
  }

  ghost predicate GoodBatches(batches: seq<seq<Entry>>) {
    forall b :: b in batches ==> 1 <= |b| <= BATCH_SIZE
  }

  method BuildEntries(start: nat, count: nat, scheme: int, draws: Draws) returns (es: seq<Entry>)
    ensures es == Range(start, count, scheme, draws)
  {
    es := [];
    for offset := 0 to count
      invariant es == Range(start, offset, scheme, draws)
    {
      es := es + [EntryAt(start + offset, scheme, draws)];
    }
  }

  lemma RangeSplits(start: nat, done: nat, more: nat, scheme: int, draws: Draws)
    ensures Range(start, done + more, scheme, draws)
      == Range(start, done, scheme, draws) + Range(start + done, more, scheme, draws)
  {
  }

  method BuildBatches(count: nat, scheme: int, offset: nat, draws: Draws)
    returns (batches: seq<seq<Entry>>)
    ensures Flatten(batches) == Range(offset, count, scheme, draws)
    ensures GoodBatches(batches) && (count == 0 ==> batches == [])
  {
    batches := [];
    var start := 0;
    while start < count
      invariant 0 <= start && (start <= count || batches != [])
      invariant Flatten(batches) == Range(offset, if start < count then start else count, scheme, draws)
      invariant GoodBatches(batches)
      decreases count - start
    {
      var batchCount := if BATCH_SIZE < count - start then BATCH_SIZE else count - start;
      var es := BuildEntries(offset + start, batchCount, scheme, draws);
      FlattenOne(batches, es);
      RangeSplits(offset, start, batchCount, scheme, draws);
      batches := batches + [es];
      start := start + BATCH_SIZE;
    }
  }

  // The chunks of concurrently sent batches.
  method Chunk(batches: seq<seq<Entry>>, maxWorkers: int) returns (chunks: seq<seq<seq<Entry>>>)
    requires maxWorkers >= 1 || batches == []
    ensures Flatten(chunks) == batches
    ensures forall c :: c in chunks ==> 1 <= |c| <= maxWorkers
  {
    chunks := [];
    var i := 0;
    while i < |batches|
      invariant 0 <= i
      invariant Flatten(chunks) == batches[..if i < |batches| then i else |batches|]
      invariant forall c :: c in chunks ==> 1 <= |c| <= maxWorkers
      decreases |batches| - i
    {
      var end := if i + maxWorkers < |batches| then i + maxWorkers else |batches|;
      FlattenOne(chunks, batches[i..end]);
      assert batches[..i] + batches[i..end] == batches[..end];
      chunks := chunks + [batches[i..end]];
      i := i + maxWorkers;
    }
    assert batches[..|batches|] == batches;
  }

  // One chunk after the other; the batches of a chunk go out together.
  method SendChunks(chunks: seq<seq<seq<Entry>>>) returns (sent: seq<seq<Entry>>)
    ensures sent == Flatten(chunks)
  {
    sent := [];
    for i := 0 to |chunks|
      invariant sent == Flatten(chunks[..i])
    {
      assert chunks[..i + 1][..i] == chunks[..i];
      sent := sent + chunks[i];
    }
    assert chunks[..|chunks|] == chunks;
  }

  method SendMessages(count: nat, scheme: int, offset: nat, maxWorkers: int, draws: Draws)
    returns (sent: seq<seq<Entry>>)
    requires maxWorkers >= 1 || count == 0
    ensures Flatten(sent) == Range(offset, count, scheme, draws)
    ensures GoodBatches(sent)
  {
    var batches := BuildBatches(count, scheme, offset, draws);
    var chunks := Chunk(batches, maxWorkers);
    sent := SendChunks(chunks);
  }

  // totalSent after one more top-up.
  function TopUp(total: int, topup: int, limit: int): int {
    var remaining := limit - total;
    total + if topup < remaining then topup else remaining
  }

  // A failure-free run: everything sent, in batches. Each top-up draws its own scheme.
  method Run(initial: nat, topup: int, limit: int, maxWorkers: int, schemes: nat -> int, draws: Draws)
    returns (sent: seq<seq<Entry>>)
    requires initial >= limit || topup >= 1
    requires maxWorkers >= 1 || (initial == 0 && limit <= 0)
    ensures |Flatten(sent)| == if initial >= limit then initial else limit
    ensures Numbered(Flatten(sent), 0)
    ensures GoodBatches(sent)
  {
    sent := SendMessages(initial, schemes(0), 0, maxWorkers, draws);
    var total := initial;
    var round := 0;
    while total < limit
      invariant total == |Flatten(sent)| && initial <= total
      invariant total <= limit || total == initial
      invariant Numbered(Flatten(sent), 0) && GoodBatches(sent)
      decreases limit - total
    {
      round := round + 1;
      var remaining := limit - total;
      var batch := if topup < remaining then topup else remaining;
      var more := SendMessages(batch, schemes(round), total, maxWorkers, draws);
      FlattenAppend(sent, more);
      sent := sent + more;
      total := total + batch;
    }
  }

  function TotalAfter(rounds: nat, initial: int, topup: int, limit: int): int {
    if rounds == 0 then initial else TopUp(TotalAfter(rounds - 1, initial, topup, limit), topup, limit)
  }

  lemma {:induction false} TotalGrows(rounds: nat, initial: int, topup: int, limit: int)
    requires topup >= 1 && initial < limit
    ensures var t := TotalAfter(rounds, initial, topup, limit);
      t == limit || (t < limit && t >= initial + rounds)
  {
    if rounds > 0 { TotalGrows(rounds - 1, initial, topup, limit); }
  }

  lemma {:induction false} TotalStuck(rounds: nat, initial: int, topup: int, limit: int)
    requires topup < 1 && initial < limit
    ensures TotalAfter(rounds, initial, topup, limit) <= initial
  {
    if rounds > 0 { TotalStuck(rounds - 1, initial, topup, limit); }
  }

  // The top-up loop ends if and only if nothing is left to send or a top-up sends something.
  lemma LoopEndsIff(initial: int, topup: int, limit: int)
    ensures (exists rounds: nat :: TotalAfter(rounds, initial, topup, limit) >= limit)
      <==> initial >= limit || topup >= 1
  {
    if initial >= limit {
      assert TotalAfter(0, initial, topup, limit) >= limit;
    } else if topup >= 1 {
      var rounds: nat := limit - initial;
      TotalGrows(rounds, initial, topup, limit);
      assert TotalAfter(rounds, initial, topup, limit) >= limit;
    } else {
      forall rounds: nat ensures TotalAfter(rounds, initial, topup, limit) < limit {
        TotalStuck(rounds, initial, topup, limit);
      }
    }
  }
}
