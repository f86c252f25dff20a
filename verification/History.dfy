// The dashboard's problem history: problems are stamped with the time they were seen, and
// each poll appends its problems and prunes those older than thirty minutes.
module History {
  import opened Wrappers
  import opened Problems

  const WINDOW: real := 1800.0

  // Only stamped problems enter the history; reading the time of another one raises.
  type Stamped = p: Problem | p.timestamp.Some?
    witness Problem("", "", "", "", Some(0.0))

  function Time(p: Stamped): real {
    p.timestamp.value
  }

  // One call of `_update_history`: its problems and its clock.
  datatype Call = Call(problems: seq<Stamped>, now: real) {
    function Cutoff(): real {
      now - WINDOW
    }
  }

  function Prune(ps: seq<Stamped>, cutoff: real): seq<Stamped> {
    if ps == [] then []
    else
      var p := ps[|ps| - 1];
      Prune(ps[..|ps| - 1], cutoff) + (if Time(p) > cutoff then [p] else [])
  }

  // What repeated append-and-prune keeps.
  function Kept(calls: seq<Call>): seq<Stamped> {
    if calls == [] then []
    else
      var c := calls[|calls| - 1];
      Prune(Kept(calls[..|calls| - 1]) + c.problems, c.Cutoff())
  }

  // The complete log of the first k calls, never pruned.
  function Log(calls: seq<Call>, k: nat): seq<Stamped>
    requires k <= |calls|
  {
    if k == 0 then [] else Log(calls, k - 1) + calls[k - 1].problems
  }

  // ---------------------------------------------------------------------
  // Kept problems, for any clock
  // ---------------------------------------------------------------------

  // A problem that arrived with the i-th call is newer than every cutoff from then on.
  predicate Survives(calls: seq<Call>, i: nat, p: Stamped) {
    forall j :: i <= j < |calls| ==> Time(p) > calls[j].Cutoff()
  }

  function Survivors(calls: seq<Call>, i: nat, ps: seq<Stamped>): seq<Stamped> {
    if ps == [] then []
    else
      var p := ps[|ps| - 1];
      Survivors(calls, i, ps[..|ps| - 1]) + (if Survives(calls, i, p) then [p] else [])
  }

  // The survivors of the first k calls, in order of arrival.
  function AllSurvivors(calls: seq<Call>, k: nat): seq<Stamped>
    requires k <= |calls|
  {
    if k == 0 then [] else AllSurvivors(calls, k - 1) + Survivors(calls, k - 1, calls[k - 1].problems)
  }

  lemma {:induction false} PruneAppend(ps: seq<Stamped>, qs: seq<Stamped>, cutoff: real)
    ensures Prune(ps + qs, cutoff) == Prune(ps, cutoff) + Prune(qs, cutoff)
  {
    if qs == [] {
      assert ps + qs == ps;
    } else {
      var n := |qs| - 1;
      assert (ps + qs)[..|ps| + n] == ps + qs[..n];
      PruneAppend(ps, qs[..n], cutoff);
    }
  }

  lemma SurvivesNext(before: seq<Call>, c: Call, i: nat, p: Stamped)
    requires i <= |before|
    ensures Survives(before + [c], i, p) <==> Survives(before, i, p) && Time(p) > c.Cutoff()
  {
    var calls := before + [c];
    assert calls[|before|] == c;
    if Survives(calls, i, p) {
      forall j | i <= j < |before| ensures Time(p) > before[j].Cutoff() {
        assert calls[j] == before[j];
      }
    }
  }

  // One more call prunes the survivors so far down to the survivors.
  lemma {:induction false} PruneSurvivors(before: seq<Call>, c: Call, i: nat, ps: seq<Stamped>)
    requires i < |before|
    ensures Prune(Survivors(before, i, ps), c.Cutoff()) == Survivors(before + [c], i, ps)
  {
    if ps != [] {
      var n := |ps| - 1;
      PruneSurvivors(before, c, i, ps[..n]);
      SurvivesNext(before, c, i, ps[n]);
      var last := if Survives(before, i, ps[n]) then [ps[n]] else [];
      PruneAppend(Survivors(before, i, ps[..n]), last, c.Cutoff());
      assert Prune([ps[n]], c.Cutoff()) == if Time(ps[n]) > c.Cutoff() then [ps[n]] else [];
    }
  }

  lemma PruneParts(a: seq<Stamped>, b: seq<Stamped>, cutoff: real, a': seq<Stamped>, b': seq<Stamped>)
    requires Prune(a, cutoff) == a' && Prune(b, cutoff) == b'
    ensures Prune(a + b, cutoff) == a' + b'
  {
    PruneAppend(a, b, cutoff);
  }

  // Pruning what arrived with the i-th of the earlier calls leaves its survivors.
  ghost predicate PrunesAt(before: seq<Call>, calls: seq<Call>, cutoff: real, i: nat)
    requires i < |before|
  {
    Prune(Survivors(before, i, before[i].problems), cutoff) == Survivors(calls, i, before[i].problems)
  }

  lemma {:induction false} PruneAll(before: seq<Call>, calls: seq<Call>, cutoff: real, k: nat)
    requires k <= |before| <= |calls|
    requires forall i :: 0 <= i < k ==> calls[i].problems == before[i].problems
    requires forall i :: 0 <= i < k ==> PrunesAt(before, calls, cutoff, i)
    ensures Prune(AllSurvivors(before, k), cutoff) == AllSurvivors(calls, k)
  {
    if k > 0 {
      var ps := before[k - 1].problems;
      PruneAll(before, calls, cutoff, k - 1);
      assert PrunesAt(before, calls, cutoff, k - 1);
      PruneParts(AllSurvivors(before, k - 1), Survivors(before, k - 1, ps), cutoff,
                 AllSurvivors(calls, k - 1), Survivors(calls, k - 1, ps));
    }
  }

  lemma PruneAllSurvivors(before: seq<Call>, c: Call)
    ensures Prune(AllSurvivors(before, |before|), c.Cutoff()) == AllSurvivors(before + [c], |before|)
  {
    forall i | 0 <= i < |before| ensures PrunesAt(before, before + [c], c.Cutoff(), i) {
      PruneSurvivors(before, c, i, before[i].problems);
    }
    PruneAll(before, before + [c], c.Cutoff(), |before|);
  }

  lemma {:induction false} NewSurvivors(before: seq<Call>, c: Call, ps: seq<Stamped>)
    ensures Survivors(before + [c], |before|, ps) == Prune(ps, c.Cutoff())
  {
    if ps != [] {
      NewSurvivors(before, c, ps[..|ps| - 1]);
      SurvivesNext(before, c, |before|, ps[|ps| - 1]);
    }
  }

  // Whatever the clock does, a problem that arrived with the i-th call is kept if and only if
  // it is newer than the cutoffs of that call and of all later ones; the kept problems stay in
  // order of arrival.
  lemma {:induction false} KeptIsSurviving(calls: seq<Call>)
    ensures Kept(calls) == AllSurvivors(calls, |calls|)
  {
    if calls != [] {
      var n := |calls| - 1;
      var before, c := calls[..n], calls[n];
      assert calls == before + [c];
      KeptIsSurviving(before);
      PruneAllSurvivors(before, c);
      NewSurvivors(before, c, c.problems);
      PruneAppend(Kept(before), c.problems, c.Cutoff());
    }
  }

  // ---------------------------------------------------------------------
  // Kept problems against a filter of the complete log
  // ---------------------------------------------------------------------

  // The problem p of the i-th call is newer than the last cutoff, but the j-th call's cutoff
  // had dropped it.
  ghost predicate DroppedEarly(calls: seq<Call>, i: nat, j: nat, p: Stamped) {
    && i <= j < |calls|
    && p in calls[i].problems
    && calls[|calls| - 1].Cutoff() < Time(p) <= calls[j].Cutoff()
  }

  // Every problem of ps that is newer than the last cutoff survives.
  ghost predicate NoneLost(calls: seq<Call>, i: nat, ps: seq<Stamped>)
    requires calls != []
  {
    forall p :: p in ps && Time(p) > calls[|calls| - 1].Cutoff() ==> Survives(calls, i, p)
  }

  lemma NoneLostNext(calls: seq<Call>, i: nat, ps: seq<Stamped>)
    requires calls != [] && ps != []
    ensures var p := ps[|ps| - 1]; NoneLost(calls, i, ps) <==>
      && NoneLost(calls, i, ps[..|ps| - 1])
      && (Time(p) > calls[|calls| - 1].Cutoff() ==> Survives(calls, i, p))
  {
    assert forall p :: p in ps <==> p in ps[..|ps| - 1] || p == ps[|ps| - 1];
  }

  lemma SameLast(a: seq<Stamped>, b: seq<Stamped>, p: Stamped)
    ensures a + [p] == b + [p] <==> a == b
  {
    if a + [p] == b + [p] {
      assert a == (a + [p])[..|a|] && b == (b + [p])[..|b|];
    }
  }

  // The survivors of one call against the filter of its problems.
  lemma {:induction false} SurvivorsAreFilterIff(calls: seq<Call>, i: nat, ps: seq<Stamped>)
    requires i < |calls|
    ensures var filtered := Prune(ps, calls[|calls| - 1].Cutoff());
      && |Survivors(calls, i, ps)| <= |filtered|
      && (Survivors(calls, i, ps) == filtered <==> NoneLost(calls, i, ps))
  {
    if ps != [] {
      var n, cutoff := |ps| - 1, calls[|calls| - 1].Cutoff();
      SurvivorsAreFilterIff(calls, i, ps[..n]);
      NoneLostNext(calls, i, ps);
      if Survives(calls, i, ps[n]) {
        assert Time(ps[n]) > cutoff;
        SameLast(Survivors(calls, i, ps[..n]), Prune(ps[..n], cutoff), ps[n]);
      } else if Time(ps[n]) > cutoff {
        assert |Survivors(calls, i, ps)| < |Prune(ps, cutoff)|;
      } else {
        assert Survivors(calls, i, ps) == Survivors(calls, i, ps[..n]);
        assert Prune(ps, cutoff) == Prune(ps[..n], cutoff);
      }
    }
  }

  lemma PartsAgree(a1: seq<Stamped>, a2: seq<Stamped>, b1: seq<Stamped>, b2: seq<Stamped>)
    requires |a1| <= |b1| && |a2| <= |b2|
    ensures a1 + a2 == b1 + b2 <==> a1 == b1 && a2 == b2
  {
    if a1 + a2 == b1 + b2 {
      assert |a1 + a2| == |b1 + b2|;
      assert a1 == (a1 + a2)[..|a1|] && a2 == (a1 + a2)[|a1|..];
      assert b1 == (b1 + b2)[..|b1|] && b2 == (b1 + b2)[|b1|..];
    }
  }

  // A list in two parts is the filter of a log in two parts exactly when each part is.
  lemma FilterParts(a1: seq<Stamped>, a2: seq<Stamped>, log: seq<Stamped>, ps: seq<Stamped>, cutoff: real,
                    a: seq<Stamped>, all: seq<Stamped>)
    requires |a1| <= |Prune(log, cutoff)| && |a2| <= |Prune(ps, cutoff)|
    requires a == a1 + a2 && all == log + ps
    ensures |a| <= |Prune(all, cutoff)|
    ensures a == Prune(all, cutoff) <==> a1 == Prune(log, cutoff) && a2 == Prune(ps, cutoff)
  {
    PruneAppend(log, ps, cutoff);
    PartsAgree(a1, a2, Prune(log, cutoff), Prune(ps, cutoff));
  }

  // The same for the problems of the first k calls.
  ghost predicate NoneLostBefore(calls: seq<Call>, k: nat)
    requires k <= |calls|
  {
    forall i :: 0 <= i < k ==> NoneLost(calls, i, calls[i].problems)
  }

  lemma NoneLostBeforeNext(calls: seq<Call>, k: nat)
    requires k < |calls|
    ensures NoneLostBefore(calls, k + 1) <==>
      NoneLostBefore(calls, k) && NoneLost(calls, k, calls[k].problems)
  {
  }

  lemma {:induction false} AllSurvivorsAreFilterIff(calls: seq<Call>, k: nat)
    requires k <= |calls| && calls != []
    ensures var filtered := Prune(Log(calls, k), calls[|calls| - 1].Cutoff());
      && |AllSurvivors(calls, k)| <= |filtered|
      && (AllSurvivors(calls, k) == filtered <==> NoneLostBefore(calls, k))
  {
    if k > 0 {
      var cutoff, ps := calls[|calls| - 1].Cutoff(), calls[k - 1].problems;
      AllSurvivorsAreFilterIff(calls, k - 1);
      SurvivorsAreFilterIff(calls, k - 1, ps);
      NoneLostBeforeNext(calls, k - 1);
      FilterParts(AllSurvivors(calls, k - 1), Survivors(calls, k - 1, ps), Log(calls, k - 1), ps, cutoff,
                  AllSurvivors(calls, k), Log(calls, k));
    }
  }

  lemma NoneLostIff(calls: seq<Call>, i: nat)
    requires i < |calls|
    ensures NoneLost(calls, i, calls[i].problems) <==> !exists j: nat, p :: DroppedEarly(calls, i, j, p)
  {
    if !NoneLost(calls, i, calls[i].problems) {
      var p :| p in calls[i].problems && Time(p) > calls[|calls| - 1].Cutoff() && !Survives(calls, i, p);
      var j: nat :| i <= j < |calls| && Time(p) <= calls[j].Cutoff();
      assert DroppedEarly(calls, i, j, p);
    }
    if j: nat, p :| DroppedEarly(calls, i, j, p) {
      assert !Survives(calls, i, p);
    }
  }

  // The pruned list is the complete log filtered by the latest cutoff if and only if no call
  // brought a problem that is newer than that cutoff and not newer than the cutoff of that or
  // of a later call.
  lemma PrunedIsFilterIff(calls: seq<Call>)
    requires calls != []
    ensures Kept(calls) == Prune(Log(calls, |calls|), calls[|calls| - 1].Cutoff())
      <==> !exists i: nat, j: nat, p :: DroppedEarly(calls, i, j, p)
  {
    KeptIsSurviving(calls);
    AllSurvivorsAreFilterIff(calls, |calls|);
    forall i | 0 <= i < |calls|
      ensures NoneLost(calls, i, calls[i].problems) <==> !exists j: nat, p :: DroppedEarly(calls, i, j, p)
    {
      NoneLostIff(calls, i);
    }
    if i: nat, j: nat, p :| DroppedEarly(calls, i, j, p) {
      assert !NoneLost(calls, i, calls[i].problems);
    }
  }

  ghost predicate NonDecreasing(calls: seq<Call>) {
    forall i, j :: 0 <= i < j < |calls| ==> calls[i].now <= calls[j].now
  }

  // With a clock that does not run backwards, pruning at every poll loses nothing: the list
  // is the complete log filtered to the last thirty minutes, in order.
  lemma PruningRefinesLog(calls: seq<Call>)
    requires calls != [] && NonDecreasing(calls)
    ensures Kept(calls) == Prune(Log(calls, |calls|), calls[|calls| - 1].Cutoff())
  {
    PrunedIsFilterIff(calls);
  }

  // ---------------------------------------------------------------------
  // The methods
  // ---------------------------------------------------------------------

  // Stamps, in place, every problem that has no timestamp.
  method StampProblems(ps: array<Problem>, now: real)
    modifies ps
    ensures forall i :: 0 <= i < ps.Length ==>
      ps[i] == (if old(ps[i]).timestamp.Some? then old(ps[i]) else old(ps[i]).(timestamp := Some(now)))
  {
    for i := 0 to ps.Length
      invariant forall k :: i <= k < ps.Length ==> ps[k] == old(ps[k])
      invariant forall k :: 0 <= k < i ==>
        ps[k] == (if old(ps[k]).timestamp.Some? then old(ps[k]) else old(ps[k]).(timestamp := Some(now)))
    {
      if ps[i].timestamp.None? {
        ps[i] := ps[i].(timestamp := Some(now));
      }
    }
  }

  lemma PruneNext(ps: seq<Stamped>, i: nat, cutoff: real)
    requires i < |ps|
    ensures Prune(ps[..i + 1], cutoff)
      == Prune(ps[..i], cutoff) + (if Time(ps[i]) > cutoff then [ps[i]] else [])
  {
    assert ps[..i + 1][..i] == ps[..i];
  }

  // The problems of the history that are newer than the cutoff.
  method Recent(history: seq<Stamped>, cutoff: real) returns (recent: seq<Stamped>)
    ensures recent == Prune(history, cutoff)
  {
    recent := [];
    for i := 0 to |history|
      invariant recent == Prune(history[..i], cutoff)
    {
      PruneNext(history, i, cutoff);
      if Time(history[i]) > cutoff {
        recent := recent + [history[i]];
      }
    }
    assert history[..|history|] == history;
  }

  class Recorder {
    var history: seq<Stamped>

    // The calls made so far.
    ghost var calls: seq<Call>

    ghost predicate Valid()
      reads this
    {
      history == Kept(calls)
    }

    constructor ()
      ensures Valid() && calls == []
    {
      history, calls := [], [];
    }

    method UpdateHistory(problems: seq<Stamped>, now: real) returns (current: seq<Stamped>)
      requires Valid()
      modifies this
      ensures Valid() && calls == old(calls) + [Call(problems, now)]
      ensures current == history == Kept(calls)
    {
      var cutoff := now - WINDOW;
      history := history + problems;
      calls := calls + [Call(problems, now)];
      assert calls[..|calls| - 1] == old(calls);
      history := Recent(history, cutoff);
      current := history;
    }
  }
}
