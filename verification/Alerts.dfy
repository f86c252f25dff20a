// The dashboard's alerting: urgent problems are published at most once per cooldown for
// each source, component and severity.
module Alerts {
  import opened Problems

  const COOLDOWN: real := 300.0

  type Cooldowns = map<string, real>

  // One call of `_fire_alerts`: the current problems and the clock.
  datatype Call = Call(problems: seq<Problem>, now: real)

  // One published alert.
  datatype Alert = Alert(key: string, at: real)

  predicate Urgent(p: Problem) {
    p.severity == "CRITICAL" || p.severity == "HIGH"
  }

  function Key(p: Problem): string {
    p.source + ":" + p.component + ":" + p.severity
  }

  function LastAlert(cooldowns: Cooldowns, key: string): real {
    if key in cooldowns then cooldowns[key] else 0.0
  }

  predicate Due(cooldowns: Cooldowns, key: string, now: real) {
    now - LastAlert(cooldowns, key) > COOLDOWN
  }

  // ---------------------------------------------------------------------
  // One call
  // ---------------------------------------------------------------------

  datatype Scan = Scan(cooldowns: Cooldowns, selected: seq<Problem>)

  // The selection loop over the current problems; the others are not urgent.
  function ScanAll(cooldowns: Cooldowns, ps: seq<Problem>, now: real): Scan {
    if ps == [] then Scan(cooldowns, [])
    else
      var before, p := ScanAll(cooldowns, ps[..|ps| - 1], now), ps[|ps| - 1];
      if Urgent(p) && Due(before.cooldowns, Key(p), now) then
        Scan(before.cooldowns[Key(p) := now], before.selected + [p])
      else before
  }

  ghost predicate UrgentKey(ps: seq<Problem>, key: string) {
    exists p :: p in ps && Urgent(p) && Key(p) == key
  }

  ghost predicate Selects(selected: seq<Problem>, key: string) {
    exists p :: p in selected && Key(p) == key
  }

  ghost predicate SameAt(a: Cooldowns, b: Cooldowns, key: string) {
    (key in a <==> key in b) && (key in a ==> a[key] == b[key])
  }

  // A key is selected exactly when an urgent problem has it and its last alert is more than
  // the cooldown ago; only the selected keys get a new time.
  lemma {:induction false} SelectedExact(cooldowns: Cooldowns, ps: seq<Problem>, now: real, key: string)
    ensures var r := ScanAll(cooldowns, ps, now);
      && (Selects(r.selected, key) <==> UrgentKey(ps, key) && Due(cooldowns, key, now))
      && (Selects(r.selected, key) ==> key in r.cooldowns && r.cooldowns[key] == now)
      && (!Selects(r.selected, key) ==> SameAt(cooldowns, r.cooldowns, key))
  {
    if ps != [] {
      var n := |ps| - 1;
      SelectedExact(cooldowns, ps[..n], now, key);
      assert forall p :: p in ps <==> p in ps[..n] || p == ps[n];
      var before, r := ScanAll(cooldowns, ps[..n], now), ScanAll(cooldowns, ps, now);
      assert forall p :: p in before.selected ==> p in r.selected;
      if Urgent(ps[n]) && Due(before.cooldowns, Key(ps[n]), now) {
        assert ps[n] in r.selected;
      }
    }
  }

  // In one call a key is selected at most once, whatever duplicates the problems hold.
  lemma {:induction false} SelectedOnce(cooldowns: Cooldowns, ps: seq<Problem>, now: real)
    ensures var s := ScanAll(cooldowns, ps, now).selected;
      forall i, j :: 0 <= i < j < |s| ==> Key(s[i]) != Key(s[j])
  {
    if ps != [] {
      var n := |ps| - 1;
      SelectedOnce(cooldowns, ps[..n], now);
      var before := ScanAll(cooldowns, ps[..n], now);
      forall i | 0 <= i < |before.selected|
        ensures LastAlert(before.cooldowns, Key(before.selected[i])) == now
      {
        assert before.selected[i] in before.selected;
        SelectedExact(cooldowns, ps[..n], now, Key(before.selected[i]));
      }
    }
  }

  // ---------------------------------------------------------------------
  // A run of calls
  // ---------------------------------------------------------------------

  function CooldownsAfter(calls: seq<Call>): Cooldowns {
    if calls == [] then map[]
    else
      var c := calls[|calls| - 1];
      ScanAll(CooldownsAfter(calls[..|calls| - 1]), c.problems, c.now).cooldowns
  }

  // The problems that the n-th call publishes.
  function Published(calls: seq<Call>, n: nat): seq<Problem>
    requires n < |calls|
  {
    ScanAll(CooldownsAfter(calls[..n]), calls[n].problems, calls[n].now).selected
  }

  // The times at which a key was alerted, in the order of the calls.
  ghost function AlertTimes(calls: seq<Call>, key: string): seq<real> {
    if calls == [] then []
    else
      var n := |calls| - 1;
      AlertTimes(calls[..n], key) + (if Selects(Published(calls, n), key) then [calls[n].now] else [])
  }

  ghost predicate Spaced(ts: seq<real>) {
    forall i, j :: 0 <= i < j < |ts| ==> ts[j] - ts[i] > COOLDOWN
  }

  // The stored time of a key is that of its last alert.
  lemma {:induction false} LastAlertIsStored(calls: seq<Call>, key: string)
    ensures var ts, cd := AlertTimes(calls, key), CooldownsAfter(calls);
      && (key in cd <==> ts != [])
      && (ts != [] ==> cd[key] == ts[|ts| - 1])
  {
    if calls != [] {
      var n := |calls| - 1;
      LastAlertIsStored(calls[..n], key);
      SelectedExact(CooldownsAfter(calls[..n]), calls[n].problems, calls[n].now, key);
    }
  }

  lemma SpacedAppend(ts: seq<real>, t: real)
    requires Spaced(ts)
    ensures (ts != [] ==> t - ts[|ts| - 1] > COOLDOWN) ==> Spaced(ts + [t])
  {
  }

  // Alerts for one key are strictly more than the cooldown apart in every run, whichever way
  // the clock moves, and the stored time is that of the last one.
  lemma {:induction false} AlertsAreSpaced(calls: seq<Call>, key: string)
    ensures var ts, cd := AlertTimes(calls, key), CooldownsAfter(calls);
      && Spaced(ts)
      && (key in cd <==> ts != [])
      && (ts != [] ==> cd[key] == ts[|ts| - 1])
  {
    if calls != [] {
      var n := |calls| - 1;
      AlertsAreSpaced(calls[..n], key);
      SelectedExact(CooldownsAfter(calls[..n]), calls[n].problems, calls[n].now, key);
      SpacedAppend(AlertTimes(calls[..n], key), calls[n].now);
    }
    LastAlertIsStored(calls, key);
  }

  // Exactly the urgent keys more than the cooldown after their last alert are alerted; a key
  // never alerted counts from time 0.
  lemma AlertedIff(calls: seq<Call>, n: nat, key: string)
    requires n < |calls|
    ensures var ts := AlertTimes(calls[..n], key);
      Selects(Published(calls, n), key) <==>
        && UrgentKey(calls[n].problems, key)
        && calls[n].now - (if ts == [] then 0.0 else ts[|ts| - 1]) > COOLDOWN
  {
    AlertsAreSpaced(calls[..n], key);
    SelectedExact(CooldownsAfter(calls[..n]), calls[n].problems, calls[n].now, key);
  }

  function CountIn(ts: seq<real>, from: real, to: real): nat {
    if ts == [] then 0
    else CountIn(ts[..|ts| - 1], from, to) + (if from <= ts[|ts| - 1] <= to then 1 else 0)
  }

  lemma {:induction false} CountInNarrower(ts: seq<real>, from: real, to: real, bound: real)
    requires forall i :: 0 <= i < |ts| ==> ts[i] <= bound
    ensures CountIn(ts, from, to) <= CountIn(ts, from, bound)
  {
    if ts != [] { CountInNarrower(ts[..|ts| - 1], from, to, bound); }
  }

  lemma {:induction false} NoneBefore(ts: seq<real>, from: real, to: real)
    requires to < from
    ensures CountIn(ts, from, to) == 0
  {
    if ts != [] { NoneBefore(ts[..|ts| - 1], from, to); }
  }

  lemma {:induction false} SpacedRate(ts: seq<real>, from: real, to: real)
    requires Spaced(ts) && from <= to
    ensures CountIn(ts, from, to) <= ((to - from) / COOLDOWN).Floor + 1
  {
    if ts != [] {
      var n := |ts| - 1;
      var t := ts[n];
      if from <= t <= to {
        var bound := t - COOLDOWN;
        CountInNarrower(ts[..n], from, to, bound);
        if bound < from {
          NoneBefore(ts[..n], from, bound);
        } else {
          SpacedRate(ts[..n], from, bound);
          assert (bound - from) / COOLDOWN <= (to - from) / COOLDOWN - 1.0;
        }
      } else {
        SpacedRate(ts[..n], from, to);
      }
    }
  }

  // In any window of length T at most floor(T / 300) + 1 alerts go out for one key.
  lemma RateBound(calls: seq<Call>, key: string, from: real, to: real)
    requires from <= to
    ensures CountIn(AlertTimes(calls, key), from, to) <= ((to - from) / COOLDOWN).Floor + 1
  {
    AlertsAreSpaced(calls, key);
    SpacedRate(AlertTimes(calls, key), from, to);
  }

  lemma FirstColon(a: string, x: string, b: string, y: string)
    requires ':' !in a && ':' !in b && a + ":" + x == b + ":" + y
    ensures a == b && x == y
  {
    var s := a + ":" + x;
    assert s[|a|] == ':' && s[|b|] == ':';
    assert |a| == |b|;
    assert a == s[..|a|] && b == s[..|b|];
    assert x == s[|a| + 1..] && y == s[|b| + 1..];
  }

  lemma LastColon(a: string, x: string, b: string, y: string)
    requires ':' !in x && ':' !in y && a + ":" + x == b + ":" + y
    ensures a == b && x == y
  {
    var s := a + ":" + x;
    assert s[|a|] == ':' && s[|b|] == ':';
    assert |a| == |b|;
    assert a == s[..|a|] && b == s[..|b|];
    assert x == s[|a| + 1..] && y == s[|b| + 1..];
  }

  // Keys tell problems apart as long as sources and severities hold no colon, as all the
  // dashboard's do.
  lemma KeyInjective(p: Problem, q: Problem)
    requires ':' !in p.source && ':' !in q.source && ':' !in p.severity && ':' !in q.severity
    requires Key(p) == Key(q)
    ensures p.source == q.source && p.component == q.component && p.severity == q.severity
  {
    var x, y := p.component + ":" + p.severity, q.component + ":" + q.severity;
    assert Key(p) == p.source + ":" + x && Key(q) == q.source + ":" + y;
    FirstColon(p.source, x, q.source, y);
    LastColon(p.component, p.severity, q.component, q.severity);
  }

  // ---------------------------------------------------------------------
  // The alerter
  // ---------------------------------------------------------------------

  class Alerter {
    var cooldowns: Cooldowns
    const enabled: bool

    // The calls made so far, while alerting is enabled.
    ghost var calls: seq<Call>

    ghost predicate Valid()
      reads this
    {
      cooldowns == CooldownsAfter(calls)
    }

    constructor (enabled: bool)
      ensures Valid() && calls == [] && this.enabled == enabled
    {
      this.enabled, cooldowns, calls := enabled, map[], [];
    }

    // The alerts handed to the topic; an empty list is not published.
    method FireAlerts(problems: seq<Problem>, now: real) returns (alerts: seq<Problem>)
      requires Valid()
      modifies this
      ensures Valid()
      ensures !enabled ==> alerts == [] && calls == old(calls)
      ensures enabled ==>
        calls == old(calls) + [Call(problems, now)] && alerts == Published(calls, |old(calls)|)
    {
      alerts := [];
      if !enabled {
        return;
      }
      calls := calls + [Call(problems, now)];
      assert calls[..|calls| - 1] == old(calls);
      for i := 0 to |problems|
        invariant Scan(cooldowns, alerts) == ScanAll(old(cooldowns), problems[..i], now)
        invariant calls == old(calls) + [Call(problems, now)]
      {
        var p := problems[i];
        assert problems[..i + 1][..i] == problems[..i];
        if Urgent(p) {
          var last := if Key(p) in cooldowns then cooldowns[Key(p)] else 0.0;
          if now - last > COOLDOWN {
            alerts := alerts + [p];
            cooldowns := cooldowns[Key(p) := now];
          }
        }
      }
      assert problems[..|problems|] == problems;
    }
  }
}
