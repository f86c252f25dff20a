// The dashboard's log monitor: each poll of a task compares the fingerprints of its log
// with a rolling baseline of earlier polls, reports anomalies, and extends the baseline.
module LogBaseline {
  import opened Sequences
  import Sums
  import Wire

  datatype Snapshot = Snapshot(ts: real, lineCount: nat, fingerprints: set<string>, freq: map<string, int>)

  datatype Kind = NewPattern | VolumeSpike | FrequencySpike

  datatype Anomaly = Anomaly(kind: Kind, fingerprint: string, sample: string, count: nat)

  datatype Analysis = Analysis(
    lineCount: nat, uniquePatterns: nat, knownPatterns: nat, anomalies: seq<Anomaly>, learning: bool)

  // ---------------------------------------------------------------------
  // The stored window
  // ---------------------------------------------------------------------

  // Python's h[-w:], for a w of either sign.
  function Suffix(h: seq<Snapshot>, w: int): seq<Snapshot> {
    if w > 0 then (if |h| <= w then h else h[|h| - w..])
    else if -w <= |h| then h[-w..]
    else []
  }

  // One update: append, and cut when the list is longer than the window.
  function Push(w: int, h: seq<Snapshot>, snap: Snapshot): seq<Snapshot> {
    var longer := h + [snap];
    if |longer| > w then Suffix(longer, w) else longer
  }

  // What is stored for a task after all its updates.
  function Stored(w: int, all: seq<Snapshot>): seq<Snapshot> {
    if all == [] then [] else Push(w, Stored(w, all[..|all| - 1]), all[|all| - 1])
  }

  lemma StoredNext(w: int, all: seq<Snapshot>, snap: Snapshot)
    ensures Stored(w, all + [snap]) == Push(w, Stored(w, all), snap)
  {
    assert (all + [snap])[..|all|] == all;
  }

  function Last(all: seq<Snapshot>, n: nat): (r: seq<Snapshot>)
    ensures |r| == if n <= |all| then n else |all|
  {
    if n >= |all| then all else all[|all| - n..]
  }

  lemma {:induction false} StoredIsWindow(w: int, all: seq<Snapshot>)
    requires w >= 1
    ensures Stored(w, all) == Last(all, w)
  {
    if all != [] {
      var n := |all| - 1;
      StoredIsWindow(w, all[..n]);
      assert all == all[..n] + [all[n]];
    }
  }

  // BASELINE_WINDOW = 0 keeps every snapshot, because h[-0:] is the whole list.
  lemma {:induction false} ZeroKeepsAll(all: seq<Snapshot>)
    ensures Stored(0, all) == all
  {
    if all != [] {
      var n := |all| - 1;
      ZeroKeepsAll(all[..n]);
      assert all == all[..n] + [all[n]];
    }
  }

  lemma {:induction false} NegativeKeepsNone(w: int, all: seq<Snapshot>)
    requires w < 0
    ensures Stored(w, all) == []
  {
    if all != [] { NegativeKeepsNone(w, all[..|all| - 1]); }
  }

  ghost predicate KeepsLast(w: int, all: seq<Snapshot>) {
    Stored(w, all) == Last(all, if w > 0 then w else 0)
  }

  // The stored history is always the last BASELINE_WINDOW snapshots, unless that is 0.
  lemma WindowExactIff(w: int)
    ensures (forall all :: KeepsLast(w, all)) <==> w != 0
  {
    if w == 0 {
      var one := [Snapshot(0.0, 0, {}, map[])];
      ZeroKeepsAll(one);
      assert !KeepsLast(w, one);
    } else {
      forall all ensures KeepsLast(w, all) {
        if w > 0 { StoredIsWindow(w, all); } else { NegativeKeepsNone(w, all); }
      }
    }
  }

  // `learning` of the poll that follows the polls `before`: the local list has not been cut yet.
  predicate Learning(w: int, before: seq<Snapshot>) {
    |Stored(w, before)| + 1 <= 2
  }

  ghost predicate LearnsTwice(w: int, before: seq<Snapshot>) {
    Learning(w, before) <==> |before| < 2
  }

  lemma StoredLength(w: int, all: seq<Snapshot>)
    ensures w > 0 ==> |Stored(w, all)| == if |all| <= w then |all| else w
    ensures w == 0 ==> |Stored(w, all)| == |all|
    ensures w < 0 ==> |Stored(w, all)| == 0
  {
    if w > 0 { StoredIsWindow(w, all); }
    else if w == 0 { ZeroKeepsAll(all); }
    else { NegativeKeepsNone(w, all); }
  }

  // `learning` is true on exactly the first two polls if the window is at least 2 or is 0;
  // a window of 1, or a negative one, learns forever.
  lemma LearnsTwiceIff(w: int)
    ensures (forall before :: LearnsTwice(w, before)) <==> w >= 2 || w == 0
  {
    forall before ensures w >= 2 || w == 0 ==> LearnsTwice(w, before) {
      StoredLength(w, before);
    }
    var s := Snapshot(0.0, 0, {}, map[]);
    StoredLength(w, [s, s]);
    assert LearnsTwice(w, [s, s]) <==> w >= 2 || w == 0;
  }

  // ---------------------------------------------------------------------
  // One log
  // ---------------------------------------------------------------------

  // What `strip` removes from ASCII text: more than `int` skips.
  predicate IsWhite(c: char) {
    Wire.IsBlank(c) || 0x1c as char <= c <= 0x1f as char
  }

  function Strip(s: string): string {
    CutWhile(IsWhite, SkipWhile(IsWhite, s))
  }

  // The stripped lines that are not blank.
  function Clean(raw: seq<string>): seq<string> {
    if raw == [] then []
    else
      var line := Strip(raw[|raw| - 1]);
      Clean(raw[..|raw| - 1]) + (if line == "" then [] else [line])
  }

  type Groups = map<string, seq<string>>

  // A line joins the lines with the same fingerprint.
  function AddLine(g: Groups, fp: string, line: string): Groups {
    g[fp := (if fp in g then g[fp] else []) + [line]]
  }

  function Group(f: string -> string, lines: seq<string>): Groups {
    if lines == [] then map[]
    else AddLine(Group(f, lines[..|lines| - 1]), f(lines[|lines| - 1]), lines[|lines| - 1])
  }

  lemma GroupNext(f: string -> string, lines: seq<string>, more: seq<string>, line: string)
    ensures Group(f, lines + (more + [line])) == AddLine(Group(f, lines + more), f(line), line)
  {
    var all := lines + (more + [line]);
    assert all[..|all| - 1] == lines + more;
  }

  // The lines with a given fingerprint, in order.
  function Matching(f: string -> string, lines: seq<string>, fp: string): seq<string> {
    if lines == [] then []
    else
      var line := lines[|lines| - 1];
      Matching(f, lines[..|lines| - 1], fp) + (if f(line) == fp then [line] else [])
  }

  lemma {:induction false} GroupExact(f: string -> string, lines: seq<string>)
    ensures forall fp :: fp in Group(f, lines) <==> Matching(f, lines, fp) != []
    ensures forall fp :: fp in Group(f, lines) ==> Group(f, lines)[fp] == Matching(f, lines, fp)
  {
    if lines != [] { GroupExact(f, lines[..|lines| - 1]); }
  }

  function Frequencies(g: Groups): map<string, int> {
    map fp | fp in g :: |g[fp]|
  }

  // Every non-blank line is counted under exactly one fingerprint.
  lemma {:induction false} FrequenciesAddUp(f: string -> string, lines: seq<string>)
    ensures Sums.Sum(Frequencies(Group(f, lines))) == |lines|
  {
    if lines != [] {
      var n := |lines| - 1;
      FrequenciesAddUp(f, lines[..n]);
      var g, fp := Group(f, lines[..n]), f(lines[n]);
      var v := |Group(f, lines)[fp]|;
      assert Frequencies(Group(f, lines)) == Frequencies(g)[fp := v];
      Sums.SumUpdate(Frequencies(g), fp, v);
    }
  }

  function SnapshotOf(ts: real, f: string -> string, lines: seq<string>): Snapshot {
    var g := Group(f, lines);
    Snapshot(ts, |lines|, g.Keys, Frequencies(g))
  }

  // ---------------------------------------------------------------------
  // The rules
  // ---------------------------------------------------------------------

  function Known(history: seq<Snapshot>): set<string> {
    if history == [] then {}
    else Known(history[..|history| - 1]) + history[|history| - 1].fingerprints
  }

  lemma {:induction false} KnownExact(history: seq<Snapshot>, fp: string)
    ensures fp in Known(history) <==> exists snap :: snap in history && fp in snap.fingerprints
  {
    if history != [] {
      var n := |history| - 1;
      KnownExact(history[..n], fp);
      assert forall s :: s in history <==> s in history[..n] || s == history[n];
    }
  }

  function Volumes(history: seq<Snapshot>): (v: seq<int>)
    ensures |v| == |history|
  {
    seq(|history|, i requires 0 <= i < |history| => history[i].lineCount)
  }

  // recent_freq[fp]: the counts in the snapshots that have the fingerprint.
  function Counts(history: seq<Snapshot>, fp: string): seq<int> {
    if history == [] then []
    else
      var last := history[|history| - 1];
      Counts(history[..|history| - 1], fp) + (if fp in last.freq then [last.freq[fp]] else [])
  }

  function Total(v: seq<int>): int {
    if v == [] then 0 else Total(v[..|v| - 1]) + v[|v| - 1]
  }

  // At least two earlier values, a positive average, and a value above factor times it.
  predicate Spikes(value: nat, earlier: seq<int>, factor: real) {
    |earlier| >= 2 &&
    var average := Total(earlier) as real / |earlier| as real;
    average > 0.0 && value as real > average * factor
  }

  function NewFingerprints(g: Groups, history: seq<Snapshot>): set<string> {
    if Known(history) == {} then {} else g.Keys - Known(history)
  }

  function Spiking(g: Groups, history: seq<Snapshot>, factor: real): set<string> {
    if Known(history) == {} then {}
    else set fp | fp in g && Spikes(|g[fp]|, Counts(history, fp), factor)
  }

  // A fingerprint is new exactly when it occurs now, in no snapshot of the history, and the
  // history has some fingerprint at all.
  lemma NewExact(g: Groups, history: seq<Snapshot>, fp: string)
    ensures fp in NewFingerprints(g, history) <==>
      && fp in g
      && (forall snap :: snap in history ==> fp !in snap.fingerprints)
      && (exists snap :: snap in history && snap.fingerprints != {})
  {
    KnownExact(history, fp);
    if Known(history) != {} {
      var x :| x in Known(history);
      KnownExact(history, x);
    }
    if snap :| snap in history && snap.fingerprints != {} {
      var x :| x in snap.fingerprints;
      KnownExact(history, x);
    }
  }

  function Cut(s: string, n: nat): string {
    if |s| <= n then s else s[..n]
  }

  ghost predicate Grouping(g: Groups) {
    forall fp :: fp in g ==> g[fp] != []
  }

  function PatternAnomaly(kind: Kind, g: Groups, fp: string): Anomaly
    requires fp in g && g[fp] != []
  {
    Anomaly(kind, Cut(fp, 120), Cut(g[fp][0], 200), |g[fp]|)
  }

  ghost predicate ReportsInOrder(anomalies: seq<Anomaly>, kind: Kind, g: Groups, fps: set<string>,
                                 order: seq<string>)
  {
    && |order| == |anomalies|
    && (forall i, j :: 0 <= i < j < |order| ==> order[i] != order[j])
    && (forall fp :: fp in order <==> fp in fps)
    && (forall i :: 0 <= i < |order| ==>
          order[i] in g && g[order[i]] != [] && anomalies[i] == PatternAnomaly(kind, g, order[i]))
  }

  // One anomaly for each fingerprint of a set, in some order.
  ghost predicate Reports(anomalies: seq<Anomaly>, kind: Kind, g: Groups, fps: set<string>) {
    exists order :: ReportsInOrder(anomalies, kind, g, fps, order)
  }

  // total / n in the format .0f: to the nearest integer, and a tie to the even one.
  function Rounded(total: int, n: int): int
    requires n > 0
  {
    var q, r := total / n, total % n;
    if 2 * r < n || (2 * r == n && q % 2 == 0) then q else q + 1
  }

  // Rounding is off by at most one half, and by one half only to an even integer.
  lemma RoundedIsNearest(total: int, n: int)
    requires n > 0
    ensures var error := 2 * (Rounded(total, n) * n - total);
      -n <= error <= n && (error == n || error == -n ==> Rounded(total, n) % 2 == 0)
  {
    var q, r := total / n, total % n;
    assert total == q * n + r;
    assert (q + 1) * n == q * n + n;
    if 2 * r == n && q % 2 != 0 { assert (q + 1) % 2 == 0; }
  }

  function VolumeAnomaly(count: nat, earlier: seq<int>): Anomaly
    requires earlier != []
  {
    var average := Rounded(Total(earlier), |earlier|);
    Anomaly(VolumeSpike, "",
      "Current: " + Wire.PrintNat(count) + " lines vs baseline avg " + Wire.PrintInt(average), count)
  }

  ghost predicate ExactParts(a: seq<Anomaly>, b: seq<Anomaly>, c: seq<Anomaly>, g: Groups,
                             lineCount: nat, history: seq<Snapshot>, factor: real)
  {
    && Reports(a, NewPattern, g, NewFingerprints(g, history))
    && b == (if Spikes(lineCount, Volumes(history), factor) then [VolumeAnomaly(lineCount, Volumes(history))] else [])
    && Reports(c, FrequencySpike, g, Spiking(g, history, factor))
  }

  // The anomalies of one poll, rule by rule.
  ghost predicate Exact(anomalies: seq<Anomaly>, g: Groups, lineCount: nat, history: seq<Snapshot>,
                        factor: real)
  {
    exists a, b, c :: anomalies == a + b + c && ExactParts(a, b, c, g, lineCount, history, factor)
  }

  method ReportEach(kind: Kind, g: Groups, fps: set<string>) returns (anomalies: seq<Anomaly>)
    requires Grouping(g) && fps <= g.Keys
    ensures Reports(anomalies, kind, g, fps)
  {
    anomalies := [];
    ghost var order: seq<string> := [];
    var todo := fps;
    while todo != {}
      invariant todo <= fps
      invariant ReportsInOrder(anomalies, kind, g, fps - todo, order)
      decreases todo
    {
      var fp :| fp in todo;
      anomalies := anomalies + [PatternAnomaly(kind, g, fp)];
      assert fp !in order;
      order := order + [fp];
      todo := todo - {fp};
    }
    assert fps - {} == fps;
  }

  // ---------------------------------------------------------------------
  // The monitor
  // ---------------------------------------------------------------------

  // What one poll reports, given the earlier polls of the task.
  ghost predicate IsAnalysis(r: Analysis, f: string -> string, lines: seq<string>, w: int,
                             factor: real, before: seq<Snapshot>)
  {
    && r.lineCount == |lines|
    && r.uniquePatterns == |Group(f, lines)|
    && r.knownPatterns == |Known(Stored(w, before))|
    && r.learning == Learning(w, before)
    && Exact(r.anomalies, Group(f, lines), |lines|, Stored(w, before), factor)
  }

  function Appended(before: map<string, seq<int>>, freq: map<string, int>, fp: string): seq<int> {
    (if fp in before then before[fp] else []) + (if fp in freq then [freq[fp]] else [])
  }

  // The inner loop, over one snapshot's counts in any order.
  method AddCounts(freq: map<string, int>, before: map<string, seq<int>>)
    returns (after: map<string, seq<int>>)
    ensures after.Keys == before.Keys + freq.Keys
    ensures forall fp :: fp in after ==> after[fp] == Appended(before, freq, fp)
  {
    after := before;
    var todo := freq.Keys;
    while todo != {}
      invariant todo <= freq.Keys
      invariant after.Keys == before.Keys + (freq.Keys - todo)
      invariant forall fp :: fp in after ==> after[fp] == Appended(before, freq - todo, fp)
      decreases todo
    {
      var fp :| fp in todo;
      assert fp in after ==> after[fp] == before[fp];
      after := after[fp := (if fp in after then after[fp] else []) + [freq[fp]]];
      todo := todo - {fp};
    }
    assert freq - {} == freq;
  }

  // recent_freq: for each fingerprint of the history, its counts in order.
  method RecentFrequencies(history: seq<Snapshot>) returns (recent: map<string, seq<int>>)
    ensures forall fp :: fp in recent <==> Counts(history, fp) != []
    ensures forall fp :: fp in recent ==> recent[fp] == Counts(history, fp)
  {
    recent := map[];
    for i := 0 to |history|
      invariant forall fp :: fp in recent <==> Counts(history[..i], fp) != []
      invariant forall fp :: fp in recent ==> recent[fp] == Counts(history[..i], fp)
    {
      assert history[..i + 1][..i] == history[..i];
      recent := AddCounts(history[i].freq, recent);
    }
    assert history[..|history|] == history;
  }

  class Monitor {
    var baselines: map<string, seq<Snapshot>>
    const window: int
    const factor: real
    const fingerprint: string -> string

    // Every snapshot ever committed for a task, in commit order.
    ghost var committed: map<string, seq<Snapshot>>

    ghost predicate Valid()
      reads this
    {
      && baselines.Keys == committed.Keys
      && forall key :: key in baselines ==> baselines[key] == Stored(window, committed[key])
    }

    ghost function All(key: string): seq<Snapshot>
      reads this
    {
      if key in committed then committed[key] else []
    }

    constructor (window: int, factor: real, fingerprint: string -> string)
      ensures Valid() && committed == map[]
      ensures this.window == window && this.factor == factor && this.fingerprint == fingerprint
    {
      this.window, this.factor, this.fingerprint := window, factor, fingerprint;
      baselines, committed := map[], map[];
    }

    method Collect(raw: seq<string>, g0: Groups, ghost lines: seq<string>) returns (g: Groups, count: nat)
      requires g0 == Group(fingerprint, lines)
      ensures g == Group(fingerprint, lines + Clean(raw)) && count == |Clean(raw)|
    {
      g, count := g0, 0;
      assert lines + [] == lines;
      for i := 0 to |raw|
        invariant g == Group(fingerprint, lines + Clean(raw[..i])) && count == |Clean(raw[..i])|
      {
        var line := Strip(raw[i]);
        assert raw[..i + 1][..i] == raw[..i];
        GroupNext(fingerprint, lines, Clean(raw[..i]), line);
        if line == "" {
          assert Clean(raw[..i + 1]) == Clean(raw[..i]);
          continue;
        }
        count := count + 1;
        g := AddLine(g, fingerprint(line), line);
      }
      assert raw[..|raw|] == raw;
    }

    // The first critical section.
    method ReadBaseline(key: string)
      returns (history: seq<Snapshot>, known: set<string>, volumes: seq<int>)
      requires Valid()
      ensures history == Stored(window, All(key))
      ensures known == Known(history) && volumes == Volumes(history)
    {
      history := if key in baselines then baselines[key] else [];
      known, volumes := {}, [];
      for i := 0 to |history|
        invariant known == Known(history[..i]) && volumes == Volumes(history[..i])
      {
        assert history[..i + 1][..i] == history[..i];
        known := known + history[i].fingerprints;
        volumes := volumes + [history[i].lineCount];
      }
      assert history[..|history|] == history;
    }

    // The second critical section. The length is that of the list before it was cut.
    method UpdateBaseline(key: string, snap: Snapshot) returns (length: nat)
      requires Valid()
      modifies this
      ensures Valid()
      ensures committed == old(committed)[key := old(All(key)) + [snap]]
      ensures length == |Stored(window, old(All(key)))| + 1
    {
      var history := if key in baselines then baselines[key] else [];
      history := history + [snap];
      length := |history|;
      committed := committed[key := All(key) + [snap]];
      StoredNext(window, old(All(key)), snap);
      baselines := baselines[key := if length > window then Suffix(history, window) else history];
    }

    method Anomalies(g: Groups, lineCount: nat, history: seq<Snapshot>, known: set<string>,
                     volumes: seq<int>)
      returns (anomalies: seq<Anomaly>)
      requires Grouping(g) && known == Known(history) && volumes == Volumes(history)
      ensures Exact(anomalies, g, lineCount, history, factor)
    {
      var a := ReportEach(NewPattern, g, if known == {} then {} else g.Keys - known);
      var b := if Spikes(lineCount, volumes, factor) then [VolumeAnomaly(lineCount, volumes)] else [];
      var spiking := {};
      if known != {} && history != [] {
        var recent := RecentFrequencies(history);
        spiking := set fp | fp in g && fp in recent && Spikes(|g[fp]|, recent[fp], factor);
      }
      assert spiking == Spiking(g, history, factor);
      var c := ReportEach(FrequencySpike, g, spiking);
      anomalies := a + b + c;
      assert ExactParts(a, b, c, g, lineCount, history, factor);
    }

    method Analyze(key: string, stderr: seq<string>, stdout: seq<string>, now: real)
      returns (r: Analysis)
      requires Valid()
      modifies this
      ensures Valid()
      ensures committed == old(committed)[key := old(All(key))
        + [SnapshotOf(now, fingerprint, Clean(stderr) + Clean(stdout))]]
      ensures IsAnalysis(r, fingerprint, Clean(stderr) + Clean(stdout), window, factor, old(All(key)))
    {
      var g, errLines := Collect(stderr, map[], []);
      assert [] + Clean(stderr) == Clean(stderr);
      var outLines;
      g, outLines := Collect(stdout, g, Clean(stderr));
      var lineCount := errLines + outLines;
      GroupExact(fingerprint, Clean(stderr) + Clean(stdout));
      var history, known, volumes := ReadBaseline(key);
      var anomalies := Anomalies(g, lineCount, history, known, volumes);
      var snapshot := Snapshot(now, lineCount, g.Keys, Frequencies(g));
      assert snapshot == SnapshotOf(now, fingerprint, Clean(stderr) + Clean(stdout));
      var length := UpdateBaseline(key, snapshot);
      r := Analysis(lineCount, |g|, |known|, anomalies, length <= 2);
    }
  }

  // ---------------------------------------------------------------------
  // Over sequential polls
  // ---------------------------------------------------------------------

  // What is reported as new, in terms of all polls of the task so far.
  lemma NewPatternOverPolls(w: int, before: seq<Snapshot>, g: Groups, fp: string)
    requires w >= 1
    ensures fp in NewFingerprints(g, Stored(w, before)) <==>
      && fp in g
      && (forall snap :: snap in Last(before, w) ==> fp !in snap.fingerprints)
      && (exists snap :: snap in Last(before, w) && snap.fingerprints != {})
  {
    StoredIsWindow(w, before);
    NewExact(g, Last(before, w), fp);
  }

  function OfKind(anomalies: seq<Anomaly>, kind: Kind): seq<Anomaly> {
    if anomalies == [] then []
    else
      var before, last := OfKind(anomalies[..|anomalies| - 1], kind), anomalies[|anomalies| - 1];
      if last.kind == kind then before + [last] else before
  }

  lemma {:induction false} OfKindAppend(a: seq<Anomaly>, b: seq<Anomaly>, kind: Kind)
    ensures OfKind(a + b, kind) == OfKind(a, kind) + OfKind(b, kind)
  {
    if b == [] {
      assert a + b == a;
    } else {
      var n := |b| - 1;
      assert (a + b)[..|a| + n] == a + b[..n];
      OfKindAppend(a, b[..n], kind);
    }
  }

  lemma {:induction false} OfOneKind(a: seq<Anomaly>, kind: Kind, all: Kind)
    requires forall i :: 0 <= i < |a| ==> a[i].kind == all
    ensures OfKind(a, kind) == if kind == all then a else []
  {
    if a != [] { OfOneKind(a[..|a| - 1], kind, all); }
  }

  lemma {:induction false} DistinctCount(order: seq<string>, fps: set<string>)
    requires forall i, j :: 0 <= i < j < |order| ==> order[i] != order[j]
    requires forall fp :: fp in order <==> fp in fps
    ensures |order| == |fps|
  {
    if order == [] {
      assert fps == {};
    } else {
      var n := |order| - 1;
      assert order[n] in order;
      assert forall fp :: fp in order <==> fp in order[..n] || fp == order[n];
      assert order[n] !in order[..n];
      DistinctCount(order[..n], fps - {order[n]});
    }
  }

  lemma OfKindParts(a: seq<Anomaly>, b: seq<Anomaly>, c: seq<Anomaly>, kind: Kind)
    ensures OfKind(a + b + c, kind) == OfKind(a, kind) + OfKind(b, kind) + OfKind(c, kind)
  {
    OfKindAppend(a + b, c, kind);
    OfKindAppend(a, b, kind);
  }

  lemma OnlyOnePart(a: seq<Anomaly>, b: seq<Anomaly>, c: seq<Anomaly>, kind: Kind)
    requires OfKind(b, kind) == []
    ensures OfKind(c, kind) == [] ==> OfKind(a + b + c, kind) == OfKind(a, kind)
    ensures OfKind(a, kind) == [] ==> OfKind(a + b + c, kind) == OfKind(c, kind)
  {
    OfKindParts(a, b, c, kind);
  }

  lemma ReportsOfKind(anomalies: seq<Anomaly>, kind: Kind, g: Groups, fps: set<string>)
    requires Reports(anomalies, kind, g, fps)
    ensures |anomalies| == |fps|
    ensures forall other :: OfKind(anomalies, other) == if other == kind then anomalies else []
  {
    var order :| ReportsInOrder(anomalies, kind, g, fps, order);
    DistinctCount(order, fps);
    forall other ensures OfKind(anomalies, other) == if other == kind then anomalies else [] {
      OfOneKind(anomalies, other, kind);
    }
  }

  lemma PartsOfKind(a: seq<Anomaly>, b: seq<Anomaly>, c: seq<Anomaly>, g: Groups, unseen: set<string>,
                    spiking: set<string>)
    requires Reports(a, NewPattern, g, unseen) && Reports(c, FrequencySpike, g, spiking)
    requires forall i :: 0 <= i < |b| ==> b[i].kind == VolumeSpike
    ensures |a| == |unseen| && |c| == |spiking|
    ensures OfKind(a + b + c, NewPattern) == a && OfKind(a + b + c, FrequencySpike) == c
  {
    ReportsOfKind(a, NewPattern, g, unseen);
    ReportsOfKind(c, FrequencySpike, g, spiking);
    OfOneKind(b, NewPattern, VolumeSpike);
    OfOneKind(b, FrequencySpike, VolumeSpike);
    OnlyOnePart(a, b, c, NewPattern);
    OnlyOnePart(a, b, c, FrequencySpike);
  }

  // The new_pattern anomalies of a poll are exactly one for each new fingerprint, with its
  // first line and its number of lines.
  lemma NewPatternsReported(anomalies: seq<Anomaly>, g: Groups, lineCount: nat, history: seq<Snapshot>,
                            factor: real)
    requires Exact(anomalies, g, lineCount, history, factor)
    ensures Reports(OfKind(anomalies, NewPattern), NewPattern, g, NewFingerprints(g, history))
    ensures |OfKind(anomalies, NewPattern)| == |NewFingerprints(g, history)|
    ensures |OfKind(anomalies, FrequencySpike)| == |Spiking(g, history, factor)|
  {
    var a, b, c :| anomalies == a + b + c && ExactParts(a, b, c, g, lineCount, history, factor);
    PartsOfKind(a, b, c, g, NewFingerprints(g, history), Spiking(g, history, factor));
  }

  // All polls so far saw the same lines.
  ghost predicate Unchanging(before: seq<Snapshot>, f: string -> string, lines: seq<string>) {
    forall snap :: snap in before ==> snap == SnapshotOf(snap.ts, f, lines)
  }

  lemma {:induction false} StoredAreEarlier(w: int, before: seq<Snapshot>)
    ensures forall snap :: snap in Stored(w, before) ==> snap in before
  {
    if before != [] {
      var n := |before| - 1;
      StoredAreEarlier(w, before[..n]);
      var longer := Stored(w, before[..n]) + [before[n]];
      assert forall s :: s in longer ==> s in before;
      assert forall s :: s in Stored(w, before) ==> s in longer;
    }
  }

  // A value equal to all earlier ones spikes only for a factor below 1.
  lemma {:induction false} TotalOfEqual(v: seq<int>, c: nat)
    requires forall i :: 0 <= i < |v| ==> v[i] == c
    ensures Total(v) == |v| * c
  {
    if v != [] { TotalOfEqual(v[..|v| - 1], c); }
  }

  lemma AverageOfEqual(n: nat, c: nat)
    requires n >= 1
    ensures (n * c) as real / n as real == c as real
  {
    assert (n * c) as real == n as real * c as real;
  }

  lemma EqualSpikesIff(value: nat, earlier: seq<int>, factor: real)
    requires forall i :: 0 <= i < |earlier| ==> earlier[i] == value
    ensures Spikes(value, earlier, factor) <==> |earlier| >= 2 && value > 0 && factor < 1.0
  {
    if |earlier| >= 2 {
      TotalOfEqual(earlier, value);
      AverageOfEqual(|earlier|, value);
      var v := value as real;
      if factor >= 1.0 { assert v * factor >= v by { assert v * (factor - 1.0) >= 0.0; } }
      if factor < 1.0 && value > 0 { assert v * factor < v by { assert v * (1.0 - factor) > 0.0; } }
    }
  }

  lemma {:induction false} CountsOfEqual(history: seq<Snapshot>, f: string -> string,
                                         lines: seq<string>, fp: string)
    requires Unchanging(history, f, lines) && fp in Group(f, lines)
    ensures forall i :: 0 <= i < |Counts(history, fp)| ==> Counts(history, fp)[i] == |Group(f, lines)[fp]|
  {
    if history != [] {
      var n := |history| - 1;
      assert history[n] in history;
      assert forall s :: s in history[..n] ==> s in history;
      CountsOfEqual(history[..n], f, lines, fp);
      assert history[n].freq[fp] == |Group(f, lines)[fp]|;
      assert Counts(history, fp) == Counts(history[..n], fp) + [history[n].freq[fp]];
    }
  }

  // A poll with these lines raises nothing.
  ghost predicate Quiet(g: Groups, lineCount: nat, history: seq<Snapshot>, factor: real) {
    forall anomalies :: Exact(anomalies, g, lineCount, history, factor) ==> anomalies == []
  }

  // Equal values cannot spike: the factor is too large, there is nothing to count, or too
  // little to compare with.
  predicate CannotSpike(lines: seq<string>, history: seq<Snapshot>, factor: real) {
    factor >= 1.0 || lines == [] || |history| < 2
  }

  lemma ReportsNothing(anomalies: seq<Anomaly>, kind: Kind, g: Groups)
    requires Reports(anomalies, kind, g, {})
    ensures anomalies == []
  {
    var order :| ReportsInOrder(anomalies, kind, g, {}, order);
    HeadIsElement(order);
  }

  lemma {:induction false} CountsAreFew(history: seq<Snapshot>, fp: string)
    ensures |Counts(history, fp)| <= |history|
  {
    if history != [] { CountsAreFew(history[..|history| - 1], fp); }
  }

  lemma SteadyCount(history: seq<Snapshot>, f: string -> string, lines: seq<string>, factor: real,
                    fp: string)
    requires Unchanging(history, f, lines) && CannotSpike(lines, history, factor)
    requires fp in Group(f, lines)
    ensures !Spikes(|Group(f, lines)[fp]|, Counts(history, fp), factor)
  {
    CountsOfEqual(history, f, lines, fp);
    CountsAreFew(history, fp);
    EqualSpikesIff(|Group(f, lines)[fp]|, Counts(history, fp), factor);
  }

  lemma NothingNew(history: seq<Snapshot>, f: string -> string, lines: seq<string>)
    requires Unchanging(history, f, lines)
    ensures NewFingerprints(Group(f, lines), history) == {}
  {
    forall fp ensures fp !in NewFingerprints(Group(f, lines), history) {
      NewExact(Group(f, lines), history, fp);
    }
  }

  lemma VolumesOfEqual(history: seq<Snapshot>, f: string -> string, lines: seq<string>)
    requires Unchanging(history, f, lines)
    ensures forall i :: 0 <= i < |history| ==> Volumes(history)[i] == |lines|
  {
    forall i | 0 <= i < |history| ensures Volumes(history)[i] == |lines| {
      assert history[i] in history;
    }
  }

  lemma QuietRules(history: seq<Snapshot>, f: string -> string, lines: seq<string>, factor: real)
    requires Unchanging(history, f, lines) && CannotSpike(lines, history, factor)
    ensures NewFingerprints(Group(f, lines), history) == {}
    ensures !Spikes(|lines|, Volumes(history), factor)
    ensures Spiking(Group(f, lines), history, factor) == {}
  {
    NothingNew(history, f, lines);
    VolumesOfEqual(history, f, lines);
    EqualSpikesIff(|lines|, Volumes(history), factor);
    forall fp ensures fp !in Spiking(Group(f, lines), history, factor) {
      if fp in Group(f, lines) { SteadyCount(history, f, lines, factor, fp); }
    }
  }

  // Nothing is ever new in an unchanging log, and then nothing spikes either.
  lemma UnchangingIsQuiet(w: int, before: seq<Snapshot>, f: string -> string, lines: seq<string>,
                          factor: real)
    requires Unchanging(before, f, lines) && CannotSpike(lines, Stored(w, before), factor)
    ensures Quiet(Group(f, lines), |lines|, Stored(w, before), factor)
  {
    var history, g := Stored(w, before), Group(f, lines);
    StoredAreEarlier(w, before);
    QuietRules(history, f, lines, factor);
    forall anomalies | Exact(anomalies, g, |lines|, history, factor) ensures anomalies == [] {
      var a, b, c :| anomalies == a + b + c && ExactParts(a, b, c, g, |lines|, history, factor);
      ReportsNothing(a, NewPattern, g);
      ReportsNothing(c, FrequencySpike, g);
    }
  }

  // Otherwise every report of it has a volume anomaly.
  lemma UnchangingAlarms(w: int, before: seq<Snapshot>, f: string -> string, lines: seq<string>,
                         factor: real)
    requires Unchanging(before, f, lines) && !CannotSpike(lines, Stored(w, before), factor)
    ensures forall anomalies ::
      Exact(anomalies, Group(f, lines), |lines|, Stored(w, before), factor) ==>
        VolumeAnomaly(|lines|, Volumes(Stored(w, before))) in anomalies
  {
    var history := Stored(w, before);
    StoredAreEarlier(w, before);
    VolumesOfEqual(history, f, lines);
    EqualSpikesIff(|lines|, Volumes(history), factor);
  }

  lemma {:induction false} SomeReport(kind: Kind, g: Groups, fps: set<string>)
    returns (anomalies: seq<Anomaly>, order: seq<string>)
    requires Grouping(g) && fps <= g.Keys
    ensures ReportsInOrder(anomalies, kind, g, fps, order)
    decreases fps
  {
    anomalies, order := [], [];
    if fps != {} {
      var fp :| fp in fps;
      anomalies, order := SomeReport(kind, g, fps - {fp});
      assert fp !in order;
      anomalies, order := anomalies + [PatternAnomaly(kind, g, fp)], order + [fp];
    }
  }

  // Every poll has a report that the rules allow.
  lemma SomeExact(g: Groups, lineCount: nat, history: seq<Snapshot>, factor: real) returns (r: seq<Anomaly>)
    requires Grouping(g)
    ensures Exact(r, g, lineCount, history, factor)
  {
    var a, o1 := SomeReport(NewPattern, g, NewFingerprints(g, history));
    var c, o2 := SomeReport(FrequencySpike, g, Spiking(g, history, factor));
    var volumes := Volumes(history);
    var b := if Spikes(lineCount, volumes, factor) then [VolumeAnomaly(lineCount, volumes)] else [];
    r := a + b + c;
    assert ExactParts(a, b, c, g, lineCount, history, factor);
  }

  // An unchanging log is quiet if and only if the factor is at least 1, or it is empty, or
  // fewer than two snapshots are stored.
  lemma UnchangingQuietIff(w: int, before: seq<Snapshot>, f: string -> string, lines: seq<string>,
                           factor: real)
    requires Unchanging(before, f, lines)
    ensures Quiet(Group(f, lines), |lines|, Stored(w, before), factor)
      <==> factor >= 1.0 || lines == [] || |Stored(w, before)| < 2
  {
    if CannotSpike(lines, Stored(w, before), factor) {
      UnchangingIsQuiet(w, before, f, lines, factor);
    } else {
      GroupExact(f, lines);
      var r := SomeExact(Group(f, lines), |lines|, Stored(w, before), factor);
      UnchangingAlarms(w, before, f, lines, factor);
      assert r != [];
    }
  }
}
