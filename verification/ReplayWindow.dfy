/**
 The webhook receiver's replay guard: a map of recently seen events, pruned on every call, against
 the decision a full, never pruned history would take.
 */
module ReplayWindow {
  import opened Prelude

  /** One call of the guard: the event id header, the body hash, the clock reading. */
  datatype Call = Call(eventId: Option<string>, sha: string, now: real)

  type Seen = map<string, real>

  predicate HasId(c: Call) {
    c.eventId.Some? && c.eventId.value != ""
  }

  /** The map key `id:sha`. */
  function Key(id: string, sha: string): string {
    id + ":" + sha
  }

  function KeyOf(c: Call): string
    requires HasId(c)
  {
    Key(c.eventId.value, c.sha)
  }

  function Prune(w: int, seen: Seen, now: real): Seen {
    map k | k in seen && !(seen[k] < now - w as real) :: seen[k]
  }

  /** The map and the verdict after one call. */
  function Remember(w: int, seen: Seen, c: Call): (Seen, bool) {
    if !HasId(c) then (seen, false)
    else
      var live := Prune(w, seen, c.now);
      if KeyOf(c) in live then (live, false) else (live[KeyOf(c) := c.now], true)
  }

  /** The map after a history of calls. */
  function SeenAfter(w: int, h: seq<Call>): Seen {
    if h == [] then map[] else Remember(w, SeenAfter(w, h[..|h| - 1]), h[|h| - 1]).0
  }

  /** What the guard answered to call i. */
  predicate Verdict(w: int, h: seq<Call>, i: nat)
    requires i < |h|
  {
    Remember(w, SeenAfter(w, h[..i]), h[i]).1
  }

  /** The same event: same id, same body hash. */
  predicate SameEvent(a: Call, b: Call) {
    HasId(a) && HasId(b) && a.eventId == b.eventId && a.sha == b.sha
  }

  /** The decision taken from the whole history: no accepted call for the same event within the last w seconds. */
  predicate Fresh(w: int, h: seq<Call>, i: nat)
    requires i < |h|
    decreases i
  {
    HasId(h[i]) && forall j: nat :: j < i && SameEvent(h[j], h[i]) && h[i].now - h[j].now <= w as real ==>
        !Fresh(w, h, j)
  }

  predicate ClockMoves(h: seq<Call>) {
    forall i, j :: 0 <= i <= j < |h| ==> h[i].now <= h[j].now
  }

  predicate NoColon(s: string) {
    ':' !in s
  }

  /** Body hashes are hexadecimal. */
  predicate PlainHashes(h: seq<Call>) {
    forall i :: 0 <= i < |h| ==> NoColon(h[i].sha)
  }

  // ------------------------------------------------------------------------------------------
  // The key names the event.

  /** The key determines both parts as long as hashes contain no colon; ids may contain any. */
  lemma KeyInjective(id: string, sha: string, id': string, sha': string)
    requires NoColon(sha) && NoColon(sha') && Key(id, sha) == Key(id', sha')
    ensures id == id' && sha == sha'
  {
    var k := Key(id, sha);
    assert k[|id|] == ':' && k[|id'|] == ':';
    if |id| < |id'| {
      assert false;
    } else if |id'| < |id| {
      assert false;
    } else {
      assert id == k[..|id|] == id' && sha == k[|id| + 1..] == sha';
    }
  }

  /** With a colon in a hash two different events can share a key. */
  lemma KeyAmbiguousWithColon()
    ensures Key("a", "b:c") == Key("a:b", "c")
  {
  }

  lemma SameEventSameKey(a: Call, b: Call)
    requires HasId(a) && HasId(b) && NoColon(a.sha) && NoColon(b.sha)
    ensures SameEvent(a, b) <==> KeyOf(a) == KeyOf(b)
  {
    if KeyOf(a) == KeyOf(b) {
      KeyInjective(a.eventId.value, a.sha, b.eventId.value, b.sha);
    }
  }

  // ------------------------------------------------------------------------------------------
  // The pruned map decides like the full history.

  /** Entry k of the map is the accepted call i. */
  predicate Backs(w: int, h: seq<Call>, seen: Seen, k: string, i: nat) {
    i < |h| && HasId(h[i]) && KeyOf(h[i]) == k && Fresh(w, h, i) && k in seen && seen[k] == h[i].now
  }

  /** Every entry is an accepted call, and every accepted call still in the window has its entry. */
  predicate Agrees(w: int, h: seq<Call>, seen: Seen) {
    && (forall k :: k in seen ==> exists i: nat | i < |h| :: Backs(w, h, seen, k, i))
    && (forall i: nat :: i < |h| && Fresh(w, h, i) && h[|h| - 1].now - h[i].now <= w as real ==>
                           Backs(w, h, seen, KeyOf(h[i]), i))
  }

  /** Decisions about a call depend only on the calls up to it. */
  lemma {:induction false} FreshPrefix(w: int, h: seq<Call>, n: nat, i: nat)
    requires i < n <= |h|
    ensures Fresh(w, h[..n], i) <==> Fresh(w, h, i)
    decreases i
  {
    forall j: nat | j < i ensures Fresh(w, h[..n], j) <==> Fresh(w, h, j) {
      FreshPrefix(w, h, n, j);
    }
  }

  /** The invariant: for a clock that never goes back, map and history agree after every call. */
  lemma {:induction false} MapAgrees(w: int, h: seq<Call>)
    requires ClockMoves(h) && PlainHashes(h)
    ensures Agrees(w, h, SeenAfter(w, h))
    ensures h != [] ==> (Verdict(w, h, |h| - 1) <==> Fresh(w, h, |h| - 1))
    decreases |h|
  {
    if h != [] {
      var n := |h| - 1;
      MapAgrees(w, h[..n]);
      var seen := SeenAfter(w, h[..n]);
      StillAgreed(w, h, seen);
      if HasId(h[n]) {
        VerdictIsFresh(w, h, seen);
        EntriesBacked(w, h, seen);
      }
      WindowCovered(w, h, seen);
    }
  }

  /** Agreement before a call, seen from after it. */
  lemma StillAgreed(w: int, h: seq<Call>, seen: Seen)
    requires h != [] && ClockMoves(h) && PlainHashes(h) && Agrees(w, h[..|h| - 1], seen)
    ensures AgreedBefore(w, h, seen)
  {
    var n := |h| - 1;
    var before := h[..n];
    forall i: nat | i < n ensures Fresh(w, before, i) <==> Fresh(w, h, i) {
      FreshPrefix(w, h, n, i);
    }
    forall k | k in seen ensures exists i: nat | i < n :: Backs(w, h, seen, k, i) {
      var i: nat :| i < n && Backs(w, before, seen, k, i);
      assert Backs(w, h, seen, k, i);
    }
    forall i: nat | i < n && Fresh(w, h, i) && h[n].now - h[i].now <= w as real
      ensures Backs(w, h, seen, KeyOf(h[i]), i)
    {
      assert before[|before| - 1].now - before[i].now <= w as real;
      assert Backs(w, before, seen, KeyOf(before[i]), i);
    }
  }

  /** What the induction knows about the map before the last call. */
  predicate AgreedBefore(w: int, h: seq<Call>, seen: Seen)
    requires h != []
  {
    && ClockMoves(h) && PlainHashes(h)
    && (forall k :: k in seen ==> exists i: nat | i < |h| - 1 :: Backs(w, h, seen, k, i))
    && (forall i: nat :: i < |h| - 1 && Fresh(w, h, i) && h[|h| - 1].now - h[i].now <= w as real ==>
                           Backs(w, h, seen, KeyOf(h[i]), i))
  }

  lemma VerdictIsFresh(w: int, h: seq<Call>, seen: Seen)
    requires h != [] && AgreedBefore(w, h, seen) && HasId(h[|h| - 1])
    ensures Remember(w, seen, h[|h| - 1]).1 <==> Fresh(w, h, |h| - 1)
  {
    var n := |h| - 1;
    var live := Prune(w, seen, h[n].now);
    if KeyOf(h[n]) in live {
      var i: nat :| i < n && Backs(w, h, seen, KeyOf(h[n]), i);
      SameEventSameKey(h[i], h[n]);
      assert !Fresh(w, h, n);
    } else {
      forall j: nat | j < n && SameEvent(h[j], h[n]) && h[n].now - h[j].now <= w as real
        ensures !Fresh(w, h, j)
      {
        if Fresh(w, h, j) {
          assert false;
        }
      }
    }
  }

  lemma EntriesBacked(w: int, h: seq<Call>, seen: Seen)
    requires h != [] && AgreedBefore(w, h, seen) && HasId(h[|h| - 1])
    requires Remember(w, seen, h[|h| - 1]).1 <==> Fresh(w, h, |h| - 1)
    ensures var after := Remember(w, seen, h[|h| - 1]).0;
            forall k :: k in after ==> exists i: nat | i < |h| :: Backs(w, h, after, k, i)
  {
    var n := |h| - 1;
    var after := Remember(w, seen, h[n]).0;
    forall k | k in after ensures exists i: nat | i < |h| :: Backs(w, h, after, k, i) {
      if k in Prune(w, seen, h[n].now) {
        var i: nat :| i < n && Backs(w, h, seen, k, i);
        assert Backs(w, h, after, k, i);
      } else {
        assert Backs(w, h, after, k, n);
      }
    }
  }

  lemma WindowCovered(w: int, h: seq<Call>, seen: Seen)
    requires h != [] && AgreedBefore(w, h, seen)
    requires Remember(w, seen, h[|h| - 1]).1 <==> Fresh(w, h, |h| - 1)
    ensures var after := Remember(w, seen, h[|h| - 1]).0;
            forall i: nat :: i < |h| && Fresh(w, h, i) && h[|h| - 1].now - h[i].now <= w as real ==>
                               Backs(w, h, after, KeyOf(h[i]), i)
  {
    var n := |h| - 1;
    var after := Remember(w, seen, h[n]).0;
    forall i: nat | i < |h| && Fresh(w, h, i) && h[n].now - h[i].now <= w as real
      ensures Backs(w, h, after, KeyOf(h[i]), i)
    {
      if i < n {
        assert Backs(w, h, seen, KeyOf(h[i]), i);
      }
    }
  }

  /** Every answer the guard ever gives is the answer of the full history. */
  lemma GuardDecidesLikeHistory(w: int, h: seq<Call>, i: nat)
    requires i < |h| && ClockMoves(h) && PlainHashes(h)
    ensures Verdict(w, h, i) <==> Fresh(w, h, i)
  {
    var p := h[..i + 1];
    assert p[..i] == h[..i] && p[i] == h[i] && |p| - 1 == i;
    assert Verdict(w, p, i) == Verdict(w, h, i);
    MapAgrees(w, p);
    FreshPrefix(w, h, i + 1, i);
  }

  /** Two accepted calls for one event are more than w seconds apart. */
  lemma AcceptedCallsApart(w: int, h: seq<Call>, i: nat, j: nat)
    requires i < j < |h| && ClockMoves(h) && PlainHashes(h) && SameEvent(h[i], h[j])
    requires Verdict(w, h, i) && Verdict(w, h, j)
    ensures h[j].now - h[i].now > w as real
  {
    GuardDecidesLikeHistory(w, h, i);
    GuardDecidesLikeHistory(w, h, j);
  }

  // ------------------------------------------------------------------------------------------
  // Any clock.

  /** No call with an id from j on, up to n calls in all, has read the clock more than w after call j. */
  predicate Unpruned(w: int, h: seq<Call>, j: nat, n: nat)
    requires n <= |h|
  {
    forall k | j < k < n :: HasId(h[k]) ==> h[k].now - h[j].now <= w as real
  }

  /** Call j was accepted and its entry has survived every pruning of the first n calls. */
  predicate Holds(w: int, h: seq<Call>, j: nat, n: nat)
    requires j < n <= |h|
  {
    HasId(h[j]) && Verdict(w, h, j) && Unpruned(w, h, j, n)
  }

  /** The entries of the map, one by one. */
  ghost predicate EntriesHold(w: int, h: seq<Call>, n: nat, seen: Seen)
    requires n <= |h|
  {
    && (forall k :: k in seen ==> exists j: nat | j < n :: Holds(w, h, j, n) && KeyOf(h[j]) == k)
    && (forall j: nat :: j < n && Holds(w, h, j, n) ==> KeyOf(h[j]) in seen && seen[KeyOf(h[j])] == h[j].now)
  }

  /** Whatever the clock does, the map is exactly the accepted calls no pruning has reached. */
  lemma {:induction false} MapUnderAnyClock(w: int, h: seq<Call>, n: nat)
    requires n <= |h|
    ensures EntriesHold(w, h, n, SeenAfter(w, h[..n]))
    decreases n
  {
    if n > 0 {
      MapUnderAnyClock(w, h, n - 1);
      assert h[..n][..n - 1] == h[..n - 1] && h[..n][n - 1] == h[n - 1];
      EntriesAfterCall(w, h, n - 1, SeenAfter(w, h[..n - 1]));
    }
  }

  /** An entry that held before call n holds after it unless the call has an id and reads the clock too late. */
  lemma HoldsOn(w: int, h: seq<Call>, j: nat, n: nat)
    requires j < n < |h|
    ensures Holds(w, h, j, n + 1) <==> Holds(w, h, j, n) && (HasId(h[n]) ==> h[n].now - h[j].now <= w as real)
  {
  }

  lemma EntriesAfterCall(w: int, h: seq<Call>, n: nat, seen: Seen)
    requires n < |h| && seen == SeenAfter(w, h[..n]) && EntriesHold(w, h, n, seen)
    ensures EntriesHold(w, h, n + 1, Remember(w, seen, h[n]).0)
  {
    var after := Remember(w, seen, h[n]).0;
    forall k | k in after ensures exists j: nat | j < n + 1 :: Holds(w, h, j, n + 1) && KeyOf(h[j]) == k {
      EntryBacked(w, h, n, seen, k);
    }
    forall j: nat | j < n + 1 && Holds(w, h, j, n + 1)
      ensures KeyOf(h[j]) in after && after[KeyOf(h[j])] == h[j].now
    {
      if j < n {
        HoldsOn(w, h, j, n);
      }
    }
  }

  lemma EntryBacked(w: int, h: seq<Call>, n: nat, seen: Seen, k: string)
    requires n < |h| && seen == SeenAfter(w, h[..n]) && EntriesHold(w, h, n, seen)
    requires k in Remember(w, seen, h[n]).0
    ensures exists j: nat | j < n + 1 :: Holds(w, h, j, n + 1) && KeyOf(h[j]) == k
  {
    if HasId(h[n]) && k !in Prune(w, seen, h[n].now) {
      assert Holds(w, h, n, n + 1);
    } else {
      var j: nat :| j < n && Holds(w, h, j, n) && KeyOf(h[j]) == k;
      HoldsOn(w, h, j, n);
    }
  }

  /**
   What the guard answers under any clock at all: a call with an id is refused if and only if an earlier accepted
   call with the same key has stayed within w of every reading taken since by a call with an id, this one included.
   */
  lemma GuardUnderAnyClock(w: int, h: seq<Call>, i: nat)
    requires i < |h| && HasId(h[i])
    ensures !Verdict(w, h, i) <==>
            exists j: nat | j < i :: Holds(w, h, j, i + 1) && KeyOf(h[j]) == KeyOf(h[i])
  {
    var seen := SeenAfter(w, h[..i]);
    MapUnderAnyClock(w, h, i);
    if KeyOf(h[i]) in Prune(w, seen, h[i].now) {
      var j: nat :| j < i && Holds(w, h, j, i) && KeyOf(h[j]) == KeyOf(h[i]);
      HoldsOn(w, h, j, i);
    } else if j: nat :| j < i && Holds(w, h, j, i + 1) && KeyOf(h[j]) == KeyOf(h[i]) {
      HoldsOn(w, h, j, i);
    }
  }

  /** With a clock that goes back, the pruned map can accept a replay the history would refuse. */
  lemma ClockBackwardsBreaksGuard()
    ensures var h := [Call(Some("e"), "aa", 100.0), Call(Some("x"), "bb", 200.0), Call(Some("e"), "aa", 105.0)];
            PlainHashes(h) && Verdict(10, h, 2) && !Fresh(10, h, 2)
  {
    var a, b, c := Call(Some("e"), "aa", 100.0), Call(Some("x"), "bb", 200.0), Call(Some("e"), "aa", 105.0);
    var h := [a, b, c];
    assert h[..2] == [a, b] && [a, b][..1] == [a] && [a][..0] == [];
    assert KeyOf(a) == KeyOf(c) == "e:aa" && KeyOf(b) == "x:bb";
    assert SeenAfter(10, [a]) == map["e:aa" := 100.0];
    assert SeenAfter(10, [a, b]) == map["x:bb" := 200.0];
    assert Fresh(10, h, 0) && SameEvent(h[0], h[2]);
  }

  // ------------------------------------------------------------------------------------------
  // What the map holds.

  /** The accepted calls of the last w seconds, seen from time t. */
  function LiveCalls(w: int, h: seq<Call>, t: real): set<nat> {
    set i: nat | i < |h| && Fresh(w, h, i) && t - h[i].now <= w as real
  }

  /** The entries of the last w seconds. */
  function LiveKeys(w: int, seen: Seen, t: real): set<string> {
    set k | k in seen && t - seen[k] <= w as real
  }

  /** At any later moment the live part of the map is exactly the keys of the accepted calls in the window. */
  lemma LiveMapIsLiveHistory(w: int, h: seq<Call>, t: real)
    requires ClockMoves(h) && PlainHashes(h) && (h != [] ==> h[|h| - 1].now <= t)
    ensures LiveKeys(w, SeenAfter(w, h), t) == set i | i in LiveCalls(w, h, t) :: KeyOf(h[i])
  {
    MapAgrees(w, h);
    var seen := SeenAfter(w, h);
    forall k | k in LiveKeys(w, seen, t) ensures exists i :: i in LiveCalls(w, h, t) && KeyOf(h[i]) == k {
      var i: nat :| i < |h| && Backs(w, h, seen, k, i);
      assert i in LiveCalls(w, h, t) && KeyOf(h[i]) == k;
    }
    forall i | i in LiveCalls(w, h, t) ensures KeyOf(h[i]) in LiveKeys(w, seen, t) {
      assert Backs(w, h, seen, KeyOf(h[i]), i);
    }
  }

  /** Two live accepted calls never share a key. */
  lemma LiveCallsDistinct(w: int, h: seq<Call>, t: real, i: nat, j: nat)
    requires ClockMoves(h) && PlainHashes(h) && (h != [] ==> h[|h| - 1].now <= t)
    requires i in LiveCalls(w, h, t) && j in LiveCalls(w, h, t) && KeyOf(h[i]) == KeyOf(h[j])
    ensures i == j
  {
    SameEventSameKey(h[i], h[j]);
  }

  lemma {:induction false} ImageSize<A>(s: set<nat>, f: nat -> A, image: set<A>)
    requires forall i, j :: i in s && j in s && f(i) == f(j) ==> i == j
    requires image == set i | i in s :: f(i)
    ensures |image| == |s|
    decreases |s|
  {
    if s == {} {
      assert image == {};
    } else {
      var i :| i in s;
      var rest := s - {i};
      var imageOfRest := set j | j in rest :: f(j);
      ImageSize(rest, f, imageOfRest);
      assert image == imageOfRest + {f(i)};
      assert f(i) !in imageOfRest;
    }
  }

  /** Right after a call with a non-empty id, for a window of at least zero, the map holds nothing else. */
  lemma MapSizeCountsAccepted(w: nat, h: seq<Call>)
    requires ClockMoves(h) && PlainHashes(h) && h != [] && HasId(h[|h| - 1])
    ensures var now := h[|h| - 1].now;
            && SeenAfter(w, h).Keys == LiveKeys(w, SeenAfter(w, h), now)
            && |SeenAfter(w, h)| == |LiveCalls(w, h, now)|
  {
    var seen, now := SeenAfter(w, h), h[|h| - 1].now;
    LiveMapIsLiveHistory(w, h, now);
    var live := LiveCalls(w, h, now);
    var f := (i: nat) => if i < |h| && HasId(h[i]) then KeyOf(h[i]) else "";
    forall i, j | i in live && j in live && f(i) == f(j) ensures i == j {
      LiveCallsDistinct(w, h, now, i, j);
    }
    assert (set i | i in live :: KeyOf(h[i])) == (set i | i in live :: f(i));
    ImageSize(live, f, LiveKeys(w, seen, now));
    assert seen.Keys == LiveKeys(w, seen, now);
    assert |seen| == |seen.Keys|;
  }
}
