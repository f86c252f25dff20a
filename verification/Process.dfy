// The process stage: a receiver takes factor messages, computes the divisors, sends one
// result message for each and deletes the factor messages whose result was accepted.
module Process {
  import opened Wrappers
  import opened Wire
  import opened Divisors
  import opened Sequences

  // A received queue message: its MessageId, the StringValue of each message attribute,
  // and the SentTimestamp the queue stamped on it. Its receipt handle names the message.
  datatype Message = Message(id: string, attrs: map<string, string>, sentAtMs: nat)

  // Entries of a send_message_batch and of a delete_message_batch request.
  datatype SendEntry = SendEntry(id: string, attrs: map<string, string>)
  datatype DeleteEntry = DeleteEntry(id: string, receipt: string)

  function Attribute(attrs: map<string, string>, name: string): Option<string> {
    if name in attrs then Some(attrs[name]) else None
  }

  // int(...) or parseInt(...) of an attribute; None stands for KeyError, ValueError and, in
  // TypeScript, the TypeError of a missing attribute.
  function IntAttribute(d: Dialect, attrs: map<string, string>, name: string): Option<Numeral> {
    if name in attrs then ReadInt(d, attrs[name]) else None
  }

  // Nothing raises while the message is handled. TypeScript only passes Scheme on and never
  // raises on a text, so there both attributes need only be present.
  predicate Readable(d: Dialect, m: Message) {
    IntAttribute(d, m.attrs, "Factor").Some? && IntAttribute(d, m.attrs, "Scheme").Some?
  }

  function Factor(d: Dialect, m: Message): Numeral
    requires Readable(d, m)
  {
    IntAttribute(d, m.attrs, "Factor").value
  }

  function Scheme(d: Dialect, m: Message): Numeral
    requires Readable(d, m)
  {
    IntAttribute(d, m.attrs, "Scheme").value
  }

  // The divisors that the stage computes; on NaN every comparison fails and none is found.
  function FactorList(n: Numeral): seq<int> {
    if n.Number? then ProperDivisors(n.value) else []
  }

  // The texts of Factor and Scheme read as numbers, said without reference to the readers.
  ghost predicate SpellsNumber(d: Dialect, s: string) {
    if d.Python? then exists i :: Spells(s, i) else StartsWithNumber(s)
  }

  lemma ReadsNumberIff(d: Dialect, s: string)
    ensures (ReadInt(d, s).Some? && ReadInt(d, s).value.Number?) <==> SpellsNumber(d, s)
    ensures d.Python? && ReadInt(d, s).Some? ==> ReadInt(d, s).value.Number?
    ensures d.Json? ==> ReadInt(d, s).Some?
  {
    if d.Json? {
      JsonReadsNumberIff(s);
    } else {
      forall i ensures ReadInt(d, s) == Some(Number(i)) <==> Spells(s, i) { PythonReadsIff(s, i); }
    }
  }

  // What a message must hold so that handling it raises nothing.
  lemma ReadableIff(d: Dialect, m: Message)
    ensures Readable(d, m) <==>
      && "Factor" in m.attrs && "Scheme" in m.attrs
      && (d.Python? ==> SpellsNumber(d, m.attrs["Factor"]) && SpellsNumber(d, m.attrs["Scheme"]))
  {
    if "Factor" in m.attrs { ReadsNumberIff(d, m.attrs["Factor"]); }
    if "Scheme" in m.attrs { ReadsNumberIff(d, m.attrs["Scheme"]); }
  }

  function DefaultRuntime(d: Dialect): string {
    if d.Python? then "python" else "typescript"
  }

  function PassOn(d: Dialect, m: Message, name: string): string
    requires IntAttribute(d, m.attrs, name).Some?
  {
    if d.Python? then PrintNumeral(IntAttribute(d, m.attrs, name).value) else m.attrs[name]
  }

  // The attributes of the result message. Python prints the integers it read; TypeScript
  // passes the texts of Factor and Scheme on.
  function ResultAttributes(d: Dialect, m: Message, factors: seq<int>, pulledAtMs: int, factorMs: int)
    : map<string, string>
    requires Readable(d, m)
  {
    var elapsed := pulledAtMs - m.sentAtMs;
    var runtime := Attribute(m.attrs, "Runtime");
    map[
      "Result" := PrintList(d, factors),
      "SentTime" := PrintInt(m.sentAtMs),
      "PulledTime" := PrintInt(pulledAtMs),
      "Sequence" := m.id,
      "Factor" := PassOn(d, m, "Factor"),
      "Scheme" := PassOn(d, m, "Scheme"),
      "ms" := PrintInt(if elapsed > 0 then elapsed else 0),
      "FactorTime" := PrintInt(factorMs),
      "Runtime" := if runtime.Some? then runtime.value else DefaultRuntime(d)
    ]
  }

  // Whichever way an attribute is passed on, it reads as what it read before.
  lemma PassOnReads(d: Dialect, m: Message, name: string)
    requires IntAttribute(d, m.attrs, name).Some?
    ensures ReadInt(d, PassOn(d, m, name)) == IntAttribute(d, m.attrs, name)
  {
    if d.Python? {
      ReadsNumberIff(d, m.attrs[name]);
      ReadPrinted(d, ReadInt(d, m.attrs[name]).value.value);
    }
  }

  // A result message that speaks for the factor message m: what the persist stage relies on.
  ghost predicate SpeaksFor(d: Dialect, attrs: map<string, string>, m: Message) {
    && Readable(d, m)
    && Attribute(attrs, "Sequence") == Some(m.id)
    && Attribute(attrs, "SentTime") == Some(PrintInt(m.sentAtMs))
    && IntAttribute(d, attrs, "Factor") == Some(Factor(d, m))
    && IntAttribute(d, attrs, "Scheme") == Some(Scheme(d, m))
    && Attribute(attrs, "Result") == Some(PrintList(d, FactorList(Factor(d, m))))
  }

  lemma AttributesExact(d: Dialect, m: Message, factors: seq<int>, pulledAtMs: int, factorMs: int)
    requires Readable(d, m)
    ensures var attrs := ResultAttributes(d, m, factors, pulledAtMs, factorMs);
      && Attribute(attrs, "Sequence") == Some(m.id)
      && Attribute(attrs, "SentTime") == Some(PrintInt(m.sentAtMs))
      && Attribute(attrs, "Result") == Some(PrintList(d, factors))
      && Attribute(attrs, "Factor") == Some(PassOn(d, m, "Factor"))
      && Attribute(attrs, "Scheme") == Some(PassOn(d, m, "Scheme"))
  {
  }

  lemma ResultSpeaksForSource(d: Dialect, m: Message, pulledAtMs: int, factorMs: int)
    requires Readable(d, m)
    ensures SpeaksFor(d,
      ResultAttributes(d, m, FactorList(Factor(d, m)), pulledAtMs, factorMs), m)
  {
    PassOnReads(d, m, "Factor");
    PassOnReads(d, m, "Scheme");
    AttributesExact(d, m, FactorList(Factor(d, m)), pulledAtMs, factorMs);
  }

  // ---------------------------------------------------------------------
  // One round
  // ---------------------------------------------------------------------

  // A received message with the two clock readings that its result message reports.
  datatype Delivery = Delivery(msg: Message, pulledAtMs: int, factorMs: int)

  // What the outside supplies to one iteration: the received messages, and the Ids that the
  // response to their results lists as Failed.
  datatype Reply = Reply(received: seq<Delivery>, failed: set<string>)

  predicate AllReadable(d: Dialect, ds: seq<Delivery>) {
    forall i {:trigger Readable(d, ds[i].msg)} :: 0 <= i < |ds| ==> Readable(d, ds[i].msg)
  }

  function EntryFor(d: Dialect, index: nat, x: Delivery): SendEntry
    requires Readable(d, x.msg)
  {
    SendEntry(PrintNat(index),
      ResultAttributes(d, x.msg, FactorList(Factor(d, x.msg)), x.pulledAtMs, x.factorMs))
  }

  // The entries at the positions below k, from what builds one.
  function Built(build: nat --> SendEntry, k: nat): (s: seq<SendEntry>)
    requires forall i: nat :: i < k ==> build.requires(i)
    ensures |s| == k
  {
    if k == 0 then [] else Built(build, k - 1) + [build(k - 1)]
  }

  function Building(d: Dialect, ds: seq<Delivery>): (build: nat --> SendEntry)
    requires AllReadable(d, ds)
    ensures forall i: nat :: i < |ds| ==> build.requires(i)
  {
    (i: nat) requires i < |ds| && Readable(d, ds[i].msg) => EntryFor(d, i, ds[i])
  }

  // The entries for the first k messages.
  function SendEntries(d: Dialect, ds: seq<Delivery>, k: nat): (s: seq<SendEntry>)
    requires AllReadable(d, ds) && k <= |ds|
    ensures |s| == k
  {
    Built(Building(d, ds), k)
  }

  function DeleteEntries(ds: seq<Delivery>, k: nat): (s: seq<DeleteEntry>)
    requires k <= |ds|
    ensures |s| == k
  {
    if k == 0 then []
    else DeleteEntries(ds, k - 1) + [DeleteEntry(PrintNat(k - 1), ds[k - 1].msg.id)]
  }

  function Sends(d: Dialect, ds: seq<Delivery>): (s: seq<SendEntry>)
    requires AllReadable(d, ds)
    ensures |s| == |ds|
  {
    SendEntries(d, ds, |ds|)
  }

  function Deletes(ds: seq<Delivery>): (s: seq<DeleteEntry>)
    ensures |s| == |ds|
  {
    DeleteEntries(ds, |ds|)
  }

  lemma {:induction false} DeleteEntryAt(ds: seq<Delivery>, k: nat, i: nat)
    requires i < k <= |ds|
    ensures DeleteEntries(ds, k)[i] == DeleteEntry(PrintNat(i), ds[i].msg.id)
  {
    if i < k - 1 { DeleteEntryAt(ds, k - 1, i); }
  }

  lemma DeleteAt(ds: seq<Delivery>, i: nat)
    requires i < |ds|
    ensures Deletes(ds)[i] == DeleteEntry(PrintNat(i), ds[i].msg.id)
  {
    DeleteEntryAt(ds, |ds|, i);
  }

  lemma EntrySpeaks(d: Dialect, index: nat, x: Delivery)
    requires Readable(d, x.msg)
    ensures EntryFor(d, index, x).id == PrintNat(index)
    ensures SpeaksFor(d, EntryFor(d, index, x).attrs, x.msg)
  {
    ResultSpeaksForSource(d, x.msg, x.pulledAtMs, x.factorMs);
  }

  lemma {:induction false} BuiltAt(build: nat --> SendEntry, k: nat, i: nat)
    requires i < k && forall j: nat :: j < k ==> build.requires(j)
    ensures Built(build, k)[i] == build(i)
  {
    if i < k - 1 { BuiltAt(build, k - 1, i); }
  }

  lemma SendAt(d: Dialect, ds: seq<Delivery>, i: nat)
    requires i < |ds| && AllReadable(d, ds)
    ensures Sends(d, ds)[i].id == PrintNat(i)
    ensures SpeaksFor(d, Sends(d, ds)[i].attrs, ds[i].msg)
  {
    BuiltAt(Building(d, ds), |ds|, i);
    EntrySpeaks(d, i, ds[i]);
  }

  // The delete entries whose Id the response does not list as failed.
  function Accepted(es: seq<DeleteEntry>, failed: set<string>): seq<DeleteEntry> {
    if es == [] then []
    else
      Accepted(es[..|es| - 1], failed)
        + (if es[|es| - 1].id in failed then [] else [es[|es| - 1]])
  }

  lemma {:induction false} AcceptedExact(es: seq<DeleteEntry>, failed: set<string>)
    ensures forall e :: e in Accepted(es, failed) <==> e in es && e.id !in failed
  {
    if es != [] {
      AcceptedExact(es[..|es| - 1], failed);
      assert forall e :: e in es <==> e in es[..|es| - 1] || e == es[|es| - 1];
    }
  }

  // The positions of the entries whose Id did not fail, from left to right.
  function KeptPositions(es: seq<DeleteEntry>, failed: set<string>): (ks: seq<nat>)
    ensures |ks| == |Accepted(es, failed)|
    ensures forall a :: 0 <= a < |ks| ==> ks[a] < |es|
  {
    if es == [] then []
    else
      var n := |es| - 1;
      KeptPositions(es[..n], failed) + (if es[n].id in failed then [] else [n])
  }

  lemma {:induction false} PositionsIncrease(es: seq<DeleteEntry>, failed: set<string>)
    ensures Increasing(KeptPositions(es, failed))
  {
    if es != [] { PositionsIncrease(es[..|es| - 1], failed); }
  }

  lemma {:induction false} PositionsExact(es: seq<DeleteEntry>, failed: set<string>, k: int)
    ensures k in KeptPositions(es, failed) <==> 0 <= k < |es| && es[k].id !in failed
  {
    if es != [] { PositionsExact(es[..|es| - 1], failed, k); }
  }

  lemma {:induction false} PositionsHold(es: seq<DeleteEntry>, failed: set<string>)
    ensures var ks := KeptPositions(es, failed);
      forall a :: 0 <= a < |ks| ==> Accepted(es, failed)[a] == es[ks[a]]
  {
    if es != [] { PositionsHold(es[..|es| - 1], failed); }
  }

  // Order and multiplicity stay: the kept entries are those at exactly the positions whose Id
  // did not fail, from left to right.
  lemma {:induction false} AcceptedInOrder(es: seq<DeleteEntry>, failed: set<string>)
    ensures var ks, kept := KeptPositions(es, failed), Accepted(es, failed);
      && Increasing(ks) && |ks| == |kept|
      && (forall k :: k in ks <==> 0 <= k < |es| && es[k].id !in failed)
      && (forall a :: 0 <= a < |ks| ==> kept[a] == es[ks[a]])
  {
    PositionsIncrease(es, failed);
    forall k ensures k in KeptPositions(es, failed) <==> 0 <= k < |es| && es[k].id !in failed {
      PositionsExact(es, failed, k);
    }
    PositionsHold(es, failed);
  }

  datatype Call = Send(sends: seq<SendEntry>) | Delete(deletes: seq<DeleteEntry>)

  // The requests made for one non-empty receive; None is the exception that an unreadable
  // message raises before any request.
  function RoundCalls(d: Dialect, r: Reply): Option<seq<Call>> {
    if !AllReadable(d, r.received) then None
    else
      var kept := Accepted(Deletes(r.received), r.failed);
      Some([Send(Sends(d, r.received))] + (if kept == [] then [] else [Delete(kept)]))
  }

  // In a round a factor message is deleted if and only if the send entry with its result,
  // carrying the same Id, was not reported Failed; and the Ids of a batch are distinct.
  lemma DeletedIffResultAccepted(d: Dialect, r: Reply, i: nat)
    requires AllReadable(d, r.received) && i < |r.received|
    ensures var sends := Sends(d, r.received);
      && SpeaksFor(d, sends[i].attrs, r.received[i].msg)
      && (DeleteEntry(sends[i].id, r.received[i].msg.id) in Accepted(Deletes(r.received), r.failed)
          <==> sends[i].id !in r.failed)
      && (forall j :: 0 <= j < i ==> sends[j].id != sends[i].id)
  {
    var ds := r.received;
    SendAt(d, ds, i);
    AcceptedExact(Deletes(ds), r.failed);
    DeleteAt(ds, i);
    forall j | 0 <= j < i ensures Sends(d, ds)[j].id != PrintNat(i) {
      SendAt(d, ds, j);
      ValueOfPrintNat(i);
      ValueOfPrintNat(j);
    }
  }

  // Conversely, nothing else is deleted.
  lemma OnlyReceivedAreDeleted(r: Reply, e: DeleteEntry)
    requires e in Accepted(Deletes(r.received), r.failed)
    ensures exists i :: 0 <= i < |r.received| && e == DeleteEntry(PrintNat(i), r.received[i].msg.id)
  {
    AcceptedExact(Deletes(r.received), r.failed);
    var i :| 0 <= i < |r.received| && Deletes(r.received)[i] == e;
    DeleteAt(r.received, i);
  }

  method DoFactorOf(n: Numeral) returns (factors: seq<int>)
    ensures factors == FactorList(n)
  {
    factors := [];
    if n.Number? {
      factors := DoFactor(n.value);
    }
  }

  method BuildEntry(d: Dialect, index: nat, x: Delivery) returns (send: SendEntry, del: DeleteEntry)
    requires Readable(d, x.msg)
    ensures send == EntryFor(d, index, x)
    ensures del == DeleteEntry(PrintNat(index), x.msg.id)
  {
    var factors := DoFactorOf(Factor(d, x.msg));
    send := SendEntry(PrintNat(index),
      ResultAttributes(d, x.msg, factors, x.pulledAtMs, x.factorMs));
    del := DeleteEntry(PrintNat(index), x.msg.id);
  }

  lemma NextEntry(d: Dialect, ds: seq<Delivery>, k: nat, send: SendEntry)
    requires AllReadable(d, ds) && k < |ds| && send == EntryFor(d, k, ds[k])
    ensures SendEntries(d, ds, k + 1) == SendEntries(d, ds, k) + [send]
  {
  }

  method BuildEntries(d: Dialect, ds: seq<Delivery>)
    returns (sends: seq<SendEntry>, deletes: seq<DeleteEntry>)
    requires AllReadable(d, ds)
    ensures sends == Sends(d, ds) && deletes == Deletes(ds)
  {
    sends, deletes := [], [];
    for i := 0 to |ds|
      invariant sends == SendEntries(d, ds, i)
      invariant deletes == DeleteEntries(ds, i)
    {
      var send, del := BuildEntry(d, i, ds[i]);
      NextEntry(d, ds, i, send);
      sends, deletes := sends + [send], deletes + [del];
    }
  }

  method FilterFailed(es: seq<DeleteEntry>, failed: set<string>) returns (kept: seq<DeleteEntry>)
    ensures kept == Accepted(es, failed)
  {
    kept := [];
    for i := 0 to |es|
      invariant kept == Accepted(es[..i], failed)
    {
      assert es[..i + 1][..i] == es[..i];
      if es[i].id !in failed {
        kept := kept + [es[i]];
      }
    }
    assert es[..|es|] == es;
  }

  method Round(d: Dialect, r: Reply) returns (calls: Option<seq<Call>>)
    ensures calls == RoundCalls(d, r)
  {
    if !AllReadable(d, r.received) {
      return None;
    }
    var sends, deletes := BuildEntries(d, r.received);
    var kept := FilterFailed(deletes, r.failed);
    return Some([Send(sends)] + (if kept == [] then [] else [Delete(kept)]));
  }

  // ---------------------------------------------------------------------
  // The loop
  // ---------------------------------------------------------------------

  // Finished: the third empty poll in a row. Died: an attribute could not be read, and the
  // exception ended the thread. Cut: the process was stopped while waiting for a message.
  datatype Ending = Finished | Died | Cut

  // The number of empty receives at the end of the first k.
  function EmptyRun(rs: seq<Reply>, k: nat): nat
    requires k <= |rs|
  {
    if k == 0 || rs[k - 1].received != [] then 0 else 1 + EmptyRun(rs, k - 1)
  }

  // The number of messages in the first k receives.
  function Received(rs: seq<Reply>, k: nat): nat
    requires k <= |rs|
  {
    if k == 0 then 0 else Received(rs, k - 1) + |rs[k - 1].received|
  }

  // How one receive is handled; the receivers handle theirs by RoundCalls.
  type Handler = Reply -> Option<seq<Call>>

  function Handling(d: Dialect): Handler {
    r => RoundCalls(d, r)
  }

  // The loop makes another receive after the first k: no three empty receives in a row so
  // far, and no exception.
  ghost predicate StillPolling(handle: Handler, rs: seq<Reply>, k: nat)
    requires k <= |rs|
  {
    k == 0 || (StillPolling(handle, rs, k - 1) && EmptyRun(rs, k) < 3
               && (rs[k - 1].received != [] ==> handle(rs[k - 1]).Some?))
  }

  // The requests of the first k iterations.
  function LoopCalls(handle: Handler, rs: seq<Reply>, k: nat): seq<Call>
    requires k <= |rs|
  {
    if k == 0 then []
    else
      var before := LoopCalls(handle, rs, k - 1);
      if rs[k - 1].received == [] then before
      else match handle(rs[k - 1]) { case None => before case Some(calls) => before + calls }
  }

  predicate ThreeEmpty(rs: seq<Reply>, k: nat)
    requires 3 <= k <= |rs|
  {
    rs[k - 3].received == rs[k - 2].received == rs[k - 1].received == []
  }

  lemma EmptyRunOfThree(rs: seq<Reply>, k: nat)
    requires k <= |rs|
    ensures EmptyRun(rs, k) >= 3 <==> k >= 3 && ThreeEmpty(rs, k)
  {
    if k >= 2 { assert EmptyRun(rs, k - 1) >= 1 <==> rs[k - 2].received == []; }
    if k >= 3 { assert EmptyRun(rs, k - 2) >= 1 <==> rs[k - 3].received == []; }
  }

  lemma {:induction false} StillPollingExact(handle: Handler, rs: seq<Reply>, k: nat)
    requires k <= |rs|
    ensures StillPolling(handle, rs, k) <==>
      && (forall j :: 3 <= j <= k ==> !ThreeEmpty(rs, j))
      && (forall j :: 0 <= j < k && rs[j].received != [] ==> handle(rs[j]).Some?)
  {
    if k > 0 {
      StillPollingExact(handle, rs, k - 1);
      EmptyRunOfThree(rs, k);
    }
  }

  method ReceiverLoop(handle: Handler, rs: seq<Reply>)
    returns (calls: seq<Call>, processed: nat, ending: Ending, used: nat)
    ensures used <= |rs|
    ensures calls == LoopCalls(handle, rs, used) && processed == Received(rs, used)
    ensures ending == Finished ==>
      used > 0 && StillPolling(handle, rs, used - 1) && EmptyRun(rs, used) == 3
    ensures ending != Finished ==> StillPolling(handle, rs, used)
    ensures ending == Died ==> used < |rs| && rs[used].received != [] && handle(rs[used]) == None
    ensures ending == Cut ==> used == |rs|
  {
    calls, processed := [], 0;
    var emptyPolls, i := 0, 0;
    while i < |rs|
      invariant i <= |rs|
      invariant calls == LoopCalls(handle, rs, i)
      invariant processed == Received(rs, i)
      invariant emptyPolls == EmptyRun(rs, i) < 3 && StillPolling(handle, rs, i)
    {
      var r := rs[i];
      if r.received == [] {
        emptyPolls := emptyPolls + 1;
        i := i + 1;
        if emptyPolls >= 3 {
          return calls, processed, Finished, i;
        }
        continue;
      }
      emptyPolls := 0;
      var round := handle(r);
      if round.None? {
        return calls, processed, Died, i;
      }
      calls := calls + round.value;
      processed := processed + |r.received|;
      i := i + 1;
    }
    return calls, processed, Cut, i;
  }

  // The request o of the round j is a request of the loop, and so is the one before it.
  ghost predicate RoundRequest(handle: Handler, rs: seq<Reply>, calls: seq<Call>, i: nat, j: nat, o: nat)
    requires i < |calls| && j < |rs|
  {
    && handle(rs[j]).Some? && o < |handle(rs[j]).value| && o <= i
    && calls[i] == handle(rs[j]).value[o]
    && (o > 0 ==> calls[i - 1] == handle(rs[j]).value[o - 1])
  }

  lemma {:induction false} LoopCallAt(handle: Handler, rs: seq<Reply>, k: nat, i: nat) returns (j: nat, o: nat)
    requires k <= |rs| && i < |LoopCalls(handle, rs, k)|
    ensures j < k && RoundRequest(handle, rs, LoopCalls(handle, rs, k), i, j, o)
  {
    var before := LoopCalls(handle, rs, k - 1);
    if i < |before| {
      j, o := LoopCallAt(handle, rs, k - 1, i);
    } else {
      j, o := k - 1, i - |before|;
    }
  }

  // A round's delete request comes right after its send request and holds exactly the
  // messages whose result was accepted.
  lemma RoundDeletes(d: Dialect, r: Reply, o: nat)
    requires RoundCalls(d, r).Some? && o < |RoundCalls(d, r).value| && RoundCalls(d, r).value[o].Delete?
    ensures o > 0 && RoundCalls(d, r).value[o - 1] == Send(Sends(d, r.received))
    ensures RoundCalls(d, r).value[o] == Delete(Accepted(Deletes(r.received), r.failed))
  {
  }

  ghost predicate DeleteAfterSend(d: Dialect, calls: seq<Call>, i: nat, r: Reply)
    requires i < |calls|
  {
    && i > 0 && AllReadable(d, r.received)
    && calls[i - 1] == Send(Sends(d, r.received))
    && calls[i] == Delete(Accepted(Deletes(r.received), r.failed))
  }

  // So it is in the requests of the whole loop.
  lemma LoopDeletesFollowSends(d: Dialect, rs: seq<Reply>, k: nat, i: nat)
    requires k <= |rs| && i < |LoopCalls(Handling(d), rs, k)|
    requires LoopCalls(Handling(d), rs, k)[i].Delete?
    ensures exists j :: 0 <= j < k && DeleteAfterSend(d, LoopCalls(Handling(d), rs, k), i, rs[j])
  {
    var j, o := LoopCallAt(Handling(d), rs, k, i);
    assert Handling(d)(rs[j]) == RoundCalls(d, rs[j]);
    RoundDeletes(d, rs[j], o);
    assert DeleteAfterSend(d, LoopCalls(Handling(d), rs, k), i, rs[j]);
  }
}
