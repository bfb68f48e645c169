/**
 The timestamp check and the replay guard together: how often one signed request can be accepted.

 A request is checked against the clock once for its timestamp and, if that passes, once more by the
 replay guard. How often one request can be accepted depends on the delay between the two readings, and
 on whether requests are handled one after the other.
 */
module GateBounds {
  import opened Prelude
  import opened ReplayWindow

  /** One request at the gate: its parsed timestamp header (None when absent or not a number) and the two readings. */
  datatype Attempt = Attempt(stamp: Option<int>, eventId: Option<string>, sha: string, checkedAt: real, storedAt: real)

  /** Python's `int` of a float: truncation towards zero. */
  function Trunc(x: real): int {
    if x >= 0.0 then x.Floor else -((-x).Floor)
  }

  predicate TimestampOk(w: int, stamp: Option<int>, now: real) {
    stamp.Some? && -w <= Trunc(now) - stamp.value <= w
  }

  /** The guard's view of an attempt; one that fails the timestamp check never reaches the map. */
  function CallOf(w: int, a: Attempt): Call {
    Call(if TimestampOk(w, a.stamp, a.checkedAt) then a.eventId else None, a.sha, a.storedAt)
  }

  function Calls(w: int, run: seq<Attempt>): seq<Call> {
    seq(|run|, i requires 0 <= i < |run| => CallOf(w, run[i]))
  }

  predicate Accepted(w: int, run: seq<Attempt>, i: nat)
    requires i < |run|
  {
    Verdict(w, Calls(w, run), i)
  }

  /** The accepted repetitions of one request. */
  function AcceptedOf(w: int, run: seq<Attempt>, stamp: int, id: string, sha: string): set<nat> {
    set i: nat | i < |run| && Accepted(w, run, i)
                 && run[i].stamp == Some(stamp) && run[i].eventId == Some(id) && run[i].sha == sha
  }

  /** Readings of a clock that never goes back, hashes without colons, requests stored in this order. */
  predicate Threaded(run: seq<Attempt>) {
    && (forall i :: 0 <= i < |run| ==> 0.0 <= run[i].checkedAt <= run[i].storedAt && NoColon(run[i].sha))
    && (forall i, j :: 0 <= i <= j < |run| ==> run[i].storedAt <= run[j].storedAt)
  }

  /** Moreover each request is finished before the next one is looked at. */
  predicate Sequential(run: seq<Attempt>) {
    Threaded(run) && forall i, j :: 0 <= i < j < |run| ==> run[i].storedAt <= run[j].checkedAt
  }

  /** At most d seconds pass between the two readings of a request. */
  predicate Within(run: seq<Attempt>, d: real) {
    forall i :: 0 <= i < |run| ==> run[i].storedAt - run[i].checkedAt <= d
  }

  predicate IsWhole(x: real) {
    x == x.Floor as real
  }

  /** The clock shows whole seconds. */
  predicate WholeSeconds(run: seq<Attempt>) {
    forall i :: 0 <= i < |run| ==> IsWhole(run[i].checkedAt) && IsWhole(run[i].storedAt)
  }

  // ------------------------------------------------------------------------------------------
  // Upper bounds.

  lemma CallsAreClocked(w: int, run: seq<Attempt>)
    requires Threaded(run)
    ensures ClockMoves(Calls(w, run)) && PlainHashes(Calls(w, run))
  {
  }

  lemma InWindow(w: int, run: seq<Attempt>, stamp: int, id: string, sha: string, i: nat)
    requires Threaded(run) && i in AcceptedOf(w, run, stamp, id, sha)
    ensures stamp as real - w as real <= run[i].checkedAt < stamp as real + w as real + 1.0
    ensures WholeSeconds(run) ==> run[i].checkedAt <= stamp as real + w as real
    ensures Calls(w, run)[i].eventId == Some(id) && HasId(Calls(w, run)[i])
  {
    if WholeSeconds(run) {
      assert IsWhole(run[i].checkedAt);
    }
  }

  lemma FarApart(w: int, run: seq<Attempt>, stamp: int, id: string, sha: string, i: nat, j: nat)
    requires Threaded(run) && i < j && {i, j} <= AcceptedOf(w, run, stamp, id, sha)
    ensures run[j].storedAt - run[i].storedAt > w as real
    ensures WholeSeconds(run) ==> run[j].storedAt - run[i].storedAt >= w as real + 1.0
  {
    assert i in {i, j} && j in {i, j};
    InWindow(w, run, stamp, id, sha, i);
    InWindow(w, run, stamp, id, sha, j);
    var h := Calls(w, run);
    assert h[i] == CallOf(w, run[i]) && h[j] == CallOf(w, run[j]);
    CallsAreClocked(w, run);
    AcceptedCallsApart(w, h, i, j);
    if WholeSeconds(run) {
      WholeGap(run[i].storedAt, run[j].storedAt, w);
    }
  }

  lemma WholeGap(x: real, y: real, w: int)
    requires IsWhole(x) && IsWhole(y) && y - x > w as real
    ensures y - x >= w as real + 1.0
  {
    WholeGapInt(x.Floor, y.Floor, w);
  }

  lemma WholeGapInt(a: int, b: int, w: int)
    requires b as real - a as real > w as real
    ensures b as real - a as real >= w as real + 1.0
  {
    if b - a > w {
      assert b as real - a as real >= (w + 1) as real;
    }
  }

  lemma {:induction false} Ascending(s: set<nat>, n: nat) returns (xs: seq<nat>)
    requires |s| >= n
    ensures |xs| == n && (forall k :: 0 <= k < n ==> xs[k] in s)
    ensures forall k, l :: 0 <= k < l < n ==> xs[k] < xs[l]
    decreases n
  {
    if n == 0 {
      xs := [];
    } else {
      var m := Greatest(s);
      xs := Ascending(s - {m}, n - 1);
      xs := xs + [m];
    }
  }

  /** The accepted repetitions spread out: k of them take k windows, on whole seconds k windows and k seconds. */
  lemma {:induction false} Spread(w: int, run: seq<Attempt>, stamp: int, id: string, sha: string, xs: seq<nat>, k: nat)
    requires Threaded(run) && k < |xs|
    requires forall i :: 0 <= i < |xs| ==> xs[i] < |run| && xs[i] in AcceptedOf(w, run, stamp, id, sha)
    requires forall i, j :: 0 <= i < j < |xs| ==> xs[i] < xs[j]
    ensures run[xs[k]].storedAt - run[xs[0]].storedAt >= (k * w) as real
    ensures k > 0 ==> run[xs[k]].storedAt - run[xs[0]].storedAt > (k * w) as real
    ensures WholeSeconds(run) ==> run[xs[k]].storedAt - run[xs[0]].storedAt >= (k * (w + 1)) as real
    decreases k
  {
    if k > 0 {
      Spread(w, run, stamp, id, sha, xs, k - 1);
      FarApart(w, run, stamp, id, sha, xs[k - 1], xs[k]);
      assert k * w == (k - 1) * w + w && k * (w + 1) == (k - 1) * (w + 1) + (w + 1);
    }
  }

  /** Handled one after the other, a request is accepted at most four times; three on a clock of whole seconds. */
  lemma SequentialBound(w: int, run: seq<Attempt>, stamp: int, id: string, sha: string)
    requires w >= 1 && Sequential(run)
    ensures |AcceptedOf(w, run, stamp, id, sha)| <= 4
    ensures WholeSeconds(run) ==> |AcceptedOf(w, run, stamp, id, sha)| <= 3
  {
    var s := AcceptedOf(w, run, stamp, id, sha);
    if |s| >= 4 {
      var xs := Ascending(s, 4);
      var a, b, c, d := xs[0], xs[1], xs[2], xs[3];
      FarApart(w, run, stamp, id, sha, a, b);
      FarApart(w, run, stamp, id, sha, b, c);
      InWindow(w, run, stamp, id, sha, a);
      InWindow(w, run, stamp, id, sha, d);
      if WholeSeconds(run) {
        assert false;
      }
    }
    if |s| >= 5 {
      var xs := Ascending(s, 5);
      FarApart(w, run, stamp, id, sha, xs[0], xs[1]);
      FarApart(w, run, stamp, id, sha, xs[1], xs[2]);
      FarApart(w, run, stamp, id, sha, xs[2], xs[3]);
      InWindow(w, run, stamp, id, sha, xs[0]);
      InWindow(w, run, stamp, id, sha, xs[4]);
      assert false;
    }
  }

  /** What two windows and the delay leave between the first and the last stored reading. */
  lemma Reach(w: int, d: real, run: seq<Attempt>, stamp: int, id: string, sha: string, i: nat, j: nat)
    requires Threaded(run) && Within(run, d) && {i, j} <= AcceptedOf(w, run, stamp, id, sha)
    ensures i < |run| && j < |run|
    ensures run[j].storedAt - run[i].storedAt < (2 * w + 1) as real + d
    ensures WholeSeconds(run) ==> run[j].storedAt - run[i].storedAt <= (2 * w) as real + d
  {
    assert i in {i, j} && j in {i, j};
    InWindow(w, run, stamp, id, sha, i);
    InWindow(w, run, stamp, id, sha, j);
  }

  /** With readings at most d apart, n + 1 acceptances would need more room than that. */
  lemma DelayBound(w: int, d: real, run: seq<Attempt>, stamp: int, id: string, sha: string, n: nat)
    requires Threaded(run) && Within(run, d) && d <= ((n - 2) * w - 1) as real
    ensures |AcceptedOf(w, run, stamp, id, sha)| <= n
  {
    assert n * w == (n - 2) * w + 2 * w;
    BoundByRoom(w, d, run, stamp, id, sha, n, n * w);
  }

  lemma BoundByRoom(w: int, d: real, run: seq<Attempt>, stamp: int, id: string, sha: string, n: nat, room: int)
    requires Threaded(run) && Within(run, d) && room == n * w && d <= (room - 2 * w - 1) as real
    ensures |AcceptedOf(w, run, stamp, id, sha)| <= n
  {
    if |AcceptedOf(w, run, stamp, id, sha)| > n {
      var xs := Ascending(AcceptedOf(w, run, stamp, id, sha), n + 1);
      Reach(w, d, run, stamp, id, sha, xs[0], xs[n]);
      Spread(w, run, stamp, id, sha, xs, n);
      assert false;
    }
  }

  /** On whole seconds each window costs a second more. */
  lemma WholeDelayBound(w: int, d: real, run: seq<Attempt>, stamp: int, id: string, sha: string, n: nat)
    requires Threaded(run) && Within(run, d) && WholeSeconds(run) && d < ((n - 2) * (w + 1) + 2) as real
    ensures |AcceptedOf(w, run, stamp, id, sha)| <= n
  {
    if |AcceptedOf(w, run, stamp, id, sha)| > n {
      var xs := Ascending(AcceptedOf(w, run, stamp, id, sha), n + 1);
      var q := (n - 2) * (w + 1) + 2;
      assert n * (w + 1) == q + 2 * w;
      Reach(w, d, run, stamp, id, sha, xs[0], xs[n]);
      Spread(w, run, stamp, id, sha, xs, n);
      assert false;
    }
  }

  // ------------------------------------------------------------------------------------------
  // Runs that reach the bounds.

  /** The same request n times, read at the given instants. */
  function Repeats(n: nat, stamp: int, id: string, sha: string, checkedAt: nat -> real,
                   storedAt: nat -> real): seq<Attempt> {
    seq(n, (i: nat) => Attempt(Some(stamp), Some(id), sha, checkedAt(i), storedAt(i)))
  }

  /** If every reading is inside the timestamp window and the stored ones are more than w apart, all are accepted. */
  lemma AllAccepted(w: int, n: nat, stamp: int, id: string, sha: string, checkedAt: nat -> real, storedAt: nat -> real)
    requires id != "" && w >= 0
    requires var run := Repeats(n, stamp, id, sha, checkedAt, storedAt);
             && Threaded(run)
             && (forall i :: 0 <= i < n ==> TimestampOk(w, Some(stamp), run[i].checkedAt))
             && (forall i, j :: 0 <= i < j < n ==> run[j].storedAt - run[i].storedAt > w as real)
    ensures |AcceptedOf(w, Repeats(n, stamp, id, sha, checkedAt, storedAt), stamp, id, sha)| == n
  {
    var run := Repeats(n, stamp, id, sha, checkedAt, storedAt);
    var h := Calls(w, run);
    CallsAreClocked(w, run);
    forall i: nat | i < n ensures Accepted(w, run, i) {
      assert HasId(h[i]);
      GuardDecidesLikeHistory(w, h, i);
    }
    var s := AcceptedOf(w, run, stamp, id, sha);
    assert s == Below(n);
  }

  /** The first n numbers. */
  function Below(n: nat): (s: set<nat>)
    ensures |s| == n && forall i: nat :: i in s <==> i < n
  {
    if n == 0 then {} else Below(n - 1) + {n - 1}
  }

  function Later(a: real, b: real): real {
    if a >= b then a else b
  }

  /** Reading i of an even spacing. */
  function Spaced(start: real, gap: real, i: nat): real {
    if i == 0 then start else Spaced(start, gap, i - 1) + gap
  }

  lemma {:induction false} SpacedApart(start: real, gap: real, i: nat, j: nat)
    requires gap >= 0.0 && i <= j
    ensures start <= Spaced(start, gap, i) <= Spaced(start, gap, j)
    ensures i < j ==> Spaced(start, gap, j) - Spaced(start, gap, i) >= gap
    decreases j
  {
    if i < j {
      SpacedApart(start, gap, i, j - 1);
    } else if i > 0 {
      SpacedApart(start, gap, i - 1, i - 1);
    }
  }

  lemma {:induction false} SpacedIs(start: real, gap: real, i: nat)
    ensures Spaced(start, gap, i) == start + i as real * gap
    decreases i
  {
    if i > 0 {
      SpacedIs(start, gap, i - 1);
      assert i as real * gap == (i - 1) as real * gap + gap;
    }
  }

  /** The first reading of repetition i: as early as the delay allows, after the previous request if handled in turn. */
  function FirstReading(start: real, gap: real, d: real, inTurn: bool, i: nat): real {
    Later(if inTurn && i > 0 then Spaced(start, gap, i - 1) else start, Spaced(start, gap, i) - d)
  }

  lemma FirstReadingFits(start: real, gap: real, d: real, inTurn: bool, i: nat, n: nat, limit: real)
    requires d >= 0.0 && gap >= 0.0 && i < n && start < limit && Spaced(start, gap, n - 1) - d < limit
    requires inTurn && n >= 2 ==> Spaced(start, gap, n - 2) < limit
    ensures start <= FirstReading(start, gap, d, inTurn, i) <= Spaced(start, gap, i)
    ensures FirstReading(start, gap, d, inTurn, i) < limit
  {
    SpacedApart(start, gap, i, n - 1);
    if i > 0 {
      SpacedApart(start, gap, i - 1, i);
      SpacedApart(start, gap, i - 1, n - 2);
    }
  }

  function SpacedRun(w: int, d: real, gap: real, n: nat, inTurn: bool, stamp: int, id: string,
                     sha: string): seq<Attempt> {
    var start := (stamp - w) as real;
    Repeats(n, stamp, id, sha, (i: nat) => FirstReading(start, gap, d, inTurn, i), (i: nat) => Spaced(start, gap, i))
  }

  /** Evenly spaced repetitions are all accepted if the gap exceeds w and the last first reading is in the window. */
  lemma SpacedAccepted(w: int, d: real, gap: real, n: nat, inTurn: bool, stamp: int, id: string, sha: string)
    requires 0 <= w <= stamp && d >= 0.0 && id != "" && NoColon(sha) && gap > w as real
    requires n > 0 ==> Spaced((stamp - w) as real, gap, n - 1) - d < (stamp + w + 1) as real
    requires inTurn && n >= 2 ==> Spaced((stamp - w) as real, gap, n - 2) < (stamp + w + 1) as real
    ensures var run := SpacedRun(w, d, gap, n, inTurn, stamp, id, sha);
            && Threaded(run) && Within(run, d) && (inTurn ==> Sequential(run))
            && |AcceptedOf(w, run, stamp, id, sha)| == n
  {
    var start, limit := (stamp - w) as real, (stamp + w + 1) as real;
    var checked := (i: nat) => FirstReading(start, gap, d, inTurn, i);
    var stored := (i: nat) => Spaced(start, gap, i);
    var run := SpacedRun(w, d, gap, n, inTurn, stamp, id, sha);
    forall i | 0 <= i < n ensures start <= run[i].checkedAt <= run[i].storedAt && run[i].checkedAt < limit {
      FirstReadingFits(start, gap, d, inTurn, i, n, limit);
    }
    forall i, j | 0 <= i < j < n
      ensures run[j].storedAt - run[i].storedAt > w as real && (inTurn ==> run[i].storedAt <= run[j].checkedAt)
    {
      SpacedApart(start, gap, i, j);
      SpacedApart(start, gap, i, j - 1);
    }
    assert run == Repeats(n, stamp, id, sha, checked, stored);
    AllAccepted(w, n, stamp, id, sha, checked, stored);
  }

  lemma ShareOf(slack: real, n: nat) returns (share: real)
    requires slack > 0.0 && n > 0
    ensures share > 0.0 && (n - 1) as real * share < slack
  {
    share := slack / n as real;
    assert n as real * share == slack;
    assert (n - 1) as real * share == n as real * share - share;
  }

  /** With a delay of more than (n - 3) w - 1 seconds n acceptances happen, whatever the request. */
  lemma DelayReaches(w: int, d: real, n: nat, stamp: int, id: string, sha: string)
    requires 0 <= w <= stamp && d >= 0.0 && d > ((n - 3) * w - 1) as real && id != "" && NoColon(sha)
    ensures exists run :: Threaded(run) && Within(run, d) && |AcceptedOf(w, run, stamp, id, sha)| == n
  {
    var gap := w as real + 1.0;
    if n > 0 {
      var share := ShareOf(d - ((n - 3) * w - 1) as real, n);
      gap := w as real + share;
      SpacedIs((stamp - w) as real, gap, n - 1);
      assert (n - 1) as real * gap == (n - 1) as real * w as real + (n - 1) as real * share;
      RealProduct(n - 1, w);
      assert (n - 1) * w == (n - 3) * w + 2 * w;
    }
    SpacedAccepted(w, d, gap, n, false, stamp, id, sha);
  }

  lemma {:induction false} RealProduct(n: nat, w: int)
    ensures n as real * w as real == (n * w) as real
    decreases n
  {
    if n > 0 {
      RealProduct(n - 1, w);
      assert n * w == (n - 1) * w + w;
      assert n as real * w as real == (n - 1) as real * w as real + w as real;
    }
  }

  /** Handled one after the other: three always, four with a delay of more than w - 1 seconds. */
  lemma SequentialReaches(w: int, d: real, n: nat, stamp: int, id: string, sha: string)
    requires 1 <= w <= stamp && d >= 0.0 && id != "" && NoColon(sha)
    requires n == 3 || (n == 4 && d > (w - 1) as real)
    ensures exists run :: Sequential(run) && Within(run, d) && |AcceptedOf(w, run, stamp, id, sha)| == n
  {
    var slack := d - (w - 1) as real;
    var share := if n == 3 || slack > 1.0 then 0.25 else slack / 4.0;
    SpacedIs((stamp - w) as real, w as real + share, n - 1);
    SpacedIs((stamp - w) as real, w as real + share, n - 2);
    SpacedAccepted(w, d, w as real + share, n, true, stamp, id, sha);
  }

  // ------------------------------------------------------------------------------------------
  // The same on whole seconds.

  lemma {:induction false} WholeSpaced(start: int, gap: int, i: nat)
    ensures Spaced(start as real, gap as real, i) == (start + i * gap) as real
    decreases i
  {
    if i > 0 {
      WholeSpaced(start, gap, i - 1);
      assert i * gap == (i - 1) * gap + gap;
    }
  }

  lemma WholeReading(start: int, gap: int, d: int, inTurn: bool, i: nat)
    ensures IsWhole(Spaced(start as real, gap as real, i))
    ensures IsWhole(FirstReading(start as real, gap as real, d as real, inTurn, i))
  {
    WholeSpaced(start, gap, i);
    if i > 0 { WholeSpaced(start, gap, i - 1); }
    var at, before := start + i * gap, start + (i - 1) * gap;
    WholeLater(if inTurn && i > 0 then before else start, at - d);
  }

  lemma WholeLater(a: int, b: int)
    ensures IsWhole(a as real) && IsWhole(Later(a as real, b as real))
  {
  }

  /** The delay rounded down to whole seconds is as good as the delay. */
  lemma WholeReaches(w: int, d: real, n: nat, inTurn: bool, stamp: int, id: string, sha: string)
    requires 0 <= w <= stamp && d >= 0.0 && id != "" && NoColon(sha)
    requires (n - 1) * (w + 1) - d.Floor <= 2 * w
    requires inTurn && n >= 2 ==> (n - 2) * (w + 1) <= 2 * w
    ensures exists run :: Threaded(run) && Within(run, d) && WholeSeconds(run) && (inTurn ==> Sequential(run))
                          && |AcceptedOf(w, run, stamp, id, sha)| == n
  {
    var delay := d.Floor as real;
    if n > 0 { WholeSpaced(stamp - w, w + 1, n - 1); }
    if n > 1 { WholeSpaced(stamp - w, w + 1, n - 2); }
    SpacedAccepted(w, delay, (w + 1) as real, n, inTurn, stamp, id, sha);
    var run := SpacedRun(w, delay, (w + 1) as real, n, inTurn, stamp, id, sha);
    forall i | 0 <= i < |run|
      ensures IsWhole(run[i].checkedAt) && IsWhole(run[i].storedAt) && run[i].storedAt - run[i].checkedAt <= d
    {
      WholeReading(stamp - w, w + 1, d.Floor, inTurn, i);
    }
    assert Within(run, d) && WholeSeconds(run);
  }

  lemma WholeDelayReaches(w: int, d: real, n: nat, stamp: int, id: string, sha: string)
    requires 0 <= w <= stamp && d >= 0.0 && d >= ((n - 3) * (w + 1) + 2) as real && id != "" && NoColon(sha)
    ensures exists run :: Threaded(run) && Within(run, d) && WholeSeconds(run)
                          && |AcceptedOf(w, run, stamp, id, sha)| == n
  {
    var q := (n - 3) * (w + 1) + 2;
    assert (n - 1) * (w + 1) == q + 2 * w;
    assert d.Floor >= q;
    WholeReaches(w, d, n, false, stamp, id, sha);
  }

  lemma SequentialWholeReaches(w: int, d: real, n: nat, stamp: int, id: string, sha: string)
    requires 1 <= w <= stamp && d >= 0.0 && id != "" && NoColon(sha)
    requires n == 2 || (n == 3 && d >= 2.0)
    ensures exists run :: Sequential(run) && Within(run, d) && WholeSeconds(run)
                          && |AcceptedOf(w, run, stamp, id, sha)| == n
  {
    WholeReaches(w, d, n, true, stamp, id, sha);
  }

  // ------------------------------------------------------------------------------------------
  // The exact bounds.

  /** In all runs of this kind with readings at most d apart, no request is accepted more than n times. */
  ghost predicate Bounds(w: int, d: real, n: nat, sequential: bool, whole: bool) {
    forall run, stamp, id, sha ::
      Threaded(run) && Within(run, d) && (sequential ==> Sequential(run)) && (whole ==> WholeSeconds(run)) ==>
        |AcceptedOf(w, run, stamp, id, sha)| <= n
  }

  lemma NotBounded(w: int, d: real, n: nat, sequential: bool, whole: bool, run: seq<Attempt>, stamp: int)
    requires Threaded(run) && Within(run, d) && (sequential ==> Sequential(run)) && (whole ==> WholeSeconds(run))
    requires |AcceptedOf(w, run, stamp, "e", "")| > n
    ensures !Bounds(w, d, n, sequential, whole)
  {
  }

  /** Requests in any order: n acceptances are the most if and only if the readings are at most (n - 2) w - 1 apart. */
  lemma DelayBoundIff(w: int, d: real, n: nat)
    requires w >= 0 && d >= 0.0
    ensures Bounds(w, d, n, false, false) <==> d <= ((n - 2) * w - 1) as real
  {
    if d <= ((n - 2) * w - 1) as real {
      forall run, stamp, id, sha | Threaded(run) && Within(run, d)
        ensures |AcceptedOf(w, run, stamp, id, sha)| <= n
      {
        DelayBound(w, d, run, stamp, id, sha, n);
      }
    } else {
      DelayReaches(w, d, n + 1, w, "e", "");
      var run :| Threaded(run) && Within(run, d) && |AcceptedOf(w, run, w, "e", "")| == n + 1;
      NotBounded(w, d, n, false, false, run, w);
    }
  }

  /** On whole seconds, if and only if they are less than (n - 2) (w + 1) + 2 apart. */
  lemma WholeDelayBoundIff(w: int, d: real, n: nat)
    requires w >= 0 && d >= 0.0
    ensures Bounds(w, d, n, false, true) <==> d < ((n - 2) * (w + 1) + 2) as real
  {
    if d < ((n - 2) * (w + 1) + 2) as real {
      forall run, stamp, id, sha | Threaded(run) && Within(run, d) && WholeSeconds(run)
        ensures |AcceptedOf(w, run, stamp, id, sha)| <= n
      {
        WholeDelayBound(w, d, run, stamp, id, sha, n);
      }
    } else {
      WholeDelayReaches(w, d, n + 1, w, "e", "");
      var run :| Threaded(run) && Within(run, d) && WholeSeconds(run) && |AcceptedOf(w, run, w, "e", "")| == n + 1;
      NotBounded(w, d, n, false, true, run, w);
    }
  }

  /** One after the other, four are always the most, and three if and only if the readings are at most w - 1 apart. */
  lemma SequentialBoundIff(w: int, d: real, n: nat)
    requires w >= 1 && d >= 0.0
    ensures Bounds(w, d, n, true, false) <==> n >= 4 || (n == 3 && d <= (w - 1) as real)
  {
    if n >= 4 || (n == 3 && d <= (w - 1) as real) {
      forall run, stamp, id, sha | Sequential(run) && Within(run, d)
        ensures |AcceptedOf(w, run, stamp, id, sha)| <= n
      {
        SequentialBound(w, run, stamp, id, sha);
        if n == 3 { DelayBound(w, d, run, stamp, id, sha, n); }
      }
    } else {
      var m := if n == 3 then 4 else 3;
      SequentialReaches(w, d, m, w, "e", "");
      var run :| Sequential(run) && Within(run, d) && |AcceptedOf(w, run, w, "e", "")| == m;
      NotBounded(w, d, n, true, false, run, w);
    }
  }

  /** On whole seconds three are the most, and two if and only if the readings are less than two seconds apart. */
  lemma SequentialWholeBoundIff(w: int, d: real, n: nat)
    requires w >= 1 && d >= 0.0
    ensures Bounds(w, d, n, true, true) <==> n >= 3 || (n == 2 && d < 2.0)
  {
    if n >= 3 || (n == 2 && d < 2.0) {
      forall run, stamp, id, sha | Sequential(run) && Within(run, d) && WholeSeconds(run)
        ensures |AcceptedOf(w, run, stamp, id, sha)| <= n
      {
        SequentialBound(w, run, stamp, id, sha);
        if n == 2 { WholeDelayBound(w, d, run, stamp, id, sha, n); }
      }
    } else {
      var m := if n == 2 then 3 else 2;
      SequentialWholeReaches(w, d, m, w, "e", "");
      var run :| Sequential(run) && Within(run, d) && WholeSeconds(run) && |AcceptedOf(w, run, w, "e", "")| == m;
      NotBounded(w, d, n, true, true, run, w);
    }
  }

  /** Whatever the request, the bounds for readings at most w apart and for readings that agree are attained. */
  lemma BoundsAttained(w: int, stamp: int, id: string, sha: string)
    requires 1 <= w <= stamp && id != "" && NoColon(sha)
    ensures exists run :: Sequential(run) && |AcceptedOf(w, run, stamp, id, sha)| == 4
    ensures exists run :: Sequential(run) && WholeSeconds(run) && |AcceptedOf(w, run, stamp, id, sha)| == 3
    ensures exists run :: Threaded(run) && Within(run, 0.0) && |AcceptedOf(w, run, stamp, id, sha)| == 3
    ensures exists run :: Threaded(run) && Within(run, 0.0) && WholeSeconds(run)
              && |AcceptedOf(w, run, stamp, id, sha)| == 2
  {
    SequentialReaches(w, w as real, 4, stamp, id, sha);
    SequentialWholeReaches(w, 2.0, 3, stamp, id, sha);
    DelayReaches(w, 0.0, 3, stamp, id, sha);
    WholeDelayReaches(w, 0.0, 2, stamp, id, sha);
  }

  /** When nothing bounds the delay, all may pass the timestamp check first: no number of acceptances is too many. */
  lemma ThreadsUnbounded(w: int, stamp: int, id: string, sha: string, n: nat)
    requires w >= 0 && stamp >= 0 && id != "" && NoColon(sha)
    ensures exists run :: Threaded(run) && WholeSeconds(run) && |AcceptedOf(w, run, stamp, id, sha)| == n
  {
    var t, v := stamp as real, w as real;
    var checked := (i: nat) => t;
    var stored := (i: nat) => t + (i * (w + 1)) as real;
    var run := Repeats(n, stamp, id, sha, checked, stored);
    forall i, j | 0 <= i < j < n ensures run[j].storedAt - run[i].storedAt > v {
      Multiples(i, j, w + 1);
    }
    forall i | 0 <= i < n ensures run[i].storedAt >= t && IsWhole(run[i].storedAt) {
      Multiples(0, i + 1, w + 1);
      assert run[i].storedAt == (stamp + i * (w + 1)) as real;
    }
    assert IsWhole(t);
    AllAccepted(w, n, stamp, id, sha, checked, stored);
    assert Threaded(run) && WholeSeconds(run);
  }

  lemma Multiples(i: nat, j: nat, m: nat)
    requires i < j
    ensures j * m - i * m >= m
  {
    assert j * m - i * m == (j - i) * m;
    assert (j - i - 1) * m >= 0;
  }
}
