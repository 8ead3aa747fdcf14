/** Gap-limited discovery of used addresses on one derivation branch, and the
    advance of a cosigner's change and receive positions that it drives
    (the "Address gap limit" rule of BIP 44). */
module Discovery {
  import opened Types

  /** Gap limit used when the wallet refreshes its positions. */
  const ScanWindow: nat := 20

  /** What the chain collaborator answers about one derivation branch: the
      positions whose addresses have activity, and the window start positions
      at which the activity query fails. Finitely many positions are active. */
  datatype Branch = Branch(active: set<nat>, failsAt: set<nat>)

  /** Outcome of a scan: the last active position (-1 when none was found) and
      the size of every window that was derived and queried, in order. */
  datatype Scan = Scan(lastActive: int, windows: seq<nat>)

  /** No position in [k, k + gap) is active. */
  ghost predicate Quiet(active: set<nat>, k: int, gap: nat) {
    forall j: nat :: k <= j < k + gap ==> j !in active
  }

  /** Some position in [k, k + gap) is active. */
  ghost predicate Covered(active: set<nat>, k: int, gap: nat) {
    exists j: nat :: k <= j < k + gap && j in active
  }

  /** Active positions beyond `last`; the scan terminates because each window
      with activity removes at least one of them. */
  function Above(active: set<nat>, last: int): set<nat> {
    set i | i in active && i > last
  }

  function Sum(s: seq<nat>): nat {
    if s == [] then 0 else s[0] + Sum(s[1..])
  }

  /** The fold over the activity flags of the window [from, from + size): the
      last active position in it, or `prior` when none is active. */
  function RecentActive(active: set<nat>, from: nat, size: nat, prior: int): (r: int)
    ensures r == prior || (from <= r < from + size && r in active)
    decreases size
  {
    if size == 0 then prior
    else RecentActive(active, from + 1, size - 1, if from in active then from else prior)
  }

  /** The fold finds the last active position of the window: either the
      window is quiet and the prior value is kept, or the result is active
      and nothing after it in the window is. */
  lemma {:induction false} RecentActiveIsLast(active: set<nat>, from: nat, size: nat, prior: int)
    ensures var r := RecentActive(active, from, size, prior);
      || (r == prior && forall j: nat :: from <= j < from + size ==> j !in active)
      || (from <= r < from + size && r in active && forall j: nat :: r < j < from + size ==> j !in active)
    decreases size
  {
    if size > 0 {
      RecentActiveIsLast(active, from + 1, size - 1, if from in active then from else prior);
    }
  }

  lemma AboveShrinks(active: set<nat>, last: int, next: nat)
    requires next in active && next > last
    ensures |Above(active, next)| < |Above(active, last)|
  {
    assert Above(active, next) <= Above(active, last) - {next};
    assert next in Above(active, last);
    SubsetCardinality(Above(active, next), Above(active, last) - {next});
  }

  /** The scan starting at `scanIndex` after the last active position
      `lastActive`: the first window has the full gap, each later one
      gap - (scanIndex - lastActive) + 1 positions, and the scan stops after the
      first window without new activity. */
  function Discover(b: Branch, gap: nat, scanIndex: nat, lastActive: int): (r: Result<Scan, Failure>)
    requires lastActive >= -1
    requires lastActive == -1 || lastActive < scanIndex <= lastActive + gap + 1
    ensures r.Ok? ==> r.value.lastActive >= lastActive
    decreases |Above(b.active, lastActive)|
  {
    var window: nat := if lastActive == -1 then gap else gap - (scanIndex - lastActive) + 1;
    if scanIndex in b.failsAt then Err(ChainQueryFailed(scanIndex))
    else
      var recent := RecentActive(b.active, scanIndex, window, lastActive);
      if recent != lastActive then
        AboveShrinks(b.active, lastActive, recent);
        Prefixed([window], Discover(b, gap, scanIndex + window, recent))
      else Ok(Scan(lastActive, [window]))
  }

  /** The windows already queried, put in front of the outcome of the rest. */
  function Prefixed(done: seq<nat>, rest: Result<Scan, Failure>): Result<Scan, Failure> {
    match rest
    case Ok(s) => Ok(Scan(s.lastActive, done + s.windows))
    case Err(e) => Err(e)
  }

  lemma PrefixedTwice(done: seq<nat>, window: nat, rest: Result<Scan, Failure>)
    ensures Prefixed(done, Prefixed([window], rest)) == Prefixed(done + [window], rest)
  {
    if rest.Ok? {
      assert done + ([window] + rest.value.windows) == (done + [window]) + rest.value.windows;
    }
  }

  /** indexDiscovery: scans from `start` with windows derived and queried one
      after the other, and reports the last active position (-1 if none). */
  method IndexDiscovery(start: nat, gap: nat, b: Branch) returns (r: Result<Scan, Failure>)
    ensures r == Discover(b, gap, start, -1)
  {
    var scanIndex: nat := start;
    var lastActive: int := -1;
    var hasActivity := true;
    var windows: seq<nat> := [];
    assert Prefixed([], Discover(b, gap, start, -1)) == Discover(b, gap, start, -1) by {
      var d := Discover(b, gap, start, -1);
      if d.Ok? {
        assert [] + d.value.windows == d.value.windows;
      }
    }
    while hasActivity
      invariant lastActive >= -1
      invariant lastActive == -1 || lastActive < scanIndex <= lastActive + gap + 1
      invariant hasActivity ==> Discover(b, gap, start, -1) == Prefixed(windows, Discover(b, gap, scanIndex, lastActive))
      invariant !hasActivity ==> Discover(b, gap, start, -1) == Ok(Scan(lastActive, windows))
      decreases |Above(b.active, lastActive)| + (if hasActivity then 1 else 0)
    {
      var scanWindow: nat := if lastActive == -1 then gap else gap - (scanIndex - lastActive) + 1;
      if scanIndex in b.failsAt {
        return Err(ChainQueryFailed(scanIndex));
      }
      var recentActive := RecentActive(b.active, scanIndex, scanWindow, lastActive);
      hasActivity := lastActive != recentActive;
      if hasActivity {
        AboveShrinks(b.active, lastActive, recentActive);
        PrefixedTwice(windows, scanWindow, Discover(b, gap, scanIndex + scanWindow, recentActive));
      }
      lastActive := recentActive;
      scanIndex := scanIndex + scanWindow;
      windows := windows + [scanWindow];
    }
    r := Ok(Scan(lastActive, windows));
  }

  /** What the scan from `scanIndex` knows so far: `lastActive` is the last
      active position at or after `start`, nothing between it and `scanIndex`
      is active, and every gap-wide window starting in [start, lastActive]
      holds an active position. */
  ghost predicate ScanState(active: set<nat>, gap: nat, start: nat, scanIndex: nat, lastActive: int) {
    && lastActive >= -1
    && (lastActive == -1 ==> scanIndex == start)
    && (lastActive != -1 ==>
          && start <= lastActive < scanIndex <= lastActive + gap + 1
          && lastActive in active
          && (forall j: nat :: lastActive < j < scanIndex ==> j !in active)
          && (forall k: nat :: start <= k <= lastActive ==> Covered(active, k, gap)))
  }

  lemma {:induction false} DiscoverFrom(b: Branch, gap: nat, start: nat, scanIndex: nat, lastActive: int)
    requires ScanState(b.active, gap, start, scanIndex, lastActive)
    ensures Discover(b, gap, scanIndex, lastActive).Ok? ==>
      var last := Discover(b, gap, scanIndex, lastActive).value.lastActive;
      && (last == -1 ==> Quiet(b.active, start, gap))
      && (last != -1 ==>
            && start <= last && last in b.active
            && Quiet(b.active, last + 1, gap)
            && (forall k: nat :: start <= k <= last ==> Covered(b.active, k, gap)))
    decreases |Above(b.active, lastActive)|
  {
    var window: nat := if lastActive == -1 then gap else gap - (scanIndex - lastActive) + 1;
    if scanIndex !in b.failsAt {
      var recent := RecentActive(b.active, scanIndex, window, lastActive);
      RecentActiveIsLast(b.active, scanIndex, window, lastActive);
      if recent != lastActive {
        AboveShrinks(b.active, lastActive, recent);
        forall k: nat | start <= k <= recent
          ensures Covered(b.active, k, gap)
        {
          if k > lastActive {
            assert k <= recent < k + gap;
          }
        }
        DiscoverFrom(b, gap, start, scanIndex + window, recent);
      } else {
        forall j: nat | (if lastActive == -1 then start else lastActive + 1) <= j < (if lastActive == -1 then start else lastActive + 1) + gap
          ensures j !in b.active
        {
          if j >= scanIndex {
            assert j < scanIndex + window;
          }
        }
      }
    }
  }

  /** On success, indexDiscovery reports -1 when the first gap-wide window is
      quiet, and otherwise an active position at or after `start` that is
      followed by `gap` inactive positions, while every gap-wide window starting
      between `start` and it holds activity: the result is one less than the
      first position from which `gap` quiet addresses follow. */
  lemma DiscoveryFindsLastActive(b: Branch, gap: nat, start: nat)
    ensures Discover(b, gap, start, -1).Ok? ==>
      var last := Discover(b, gap, start, -1).value.lastActive;
      && (last == -1 ==> Quiet(b.active, start, gap))
      && (last != -1 ==>
            && start <= last && last in b.active
            && Quiet(b.active, last + 1, gap)
            && (forall k: nat :: start <= k <= last ==> Covered(b.active, k, gap)))
  {
    DiscoverFrom(b, gap, start, start, -1);
  }

  /** Every window has at most `gap` positions (and at least one when the gap
      is positive), and together they end exactly `gap` positions past the last
      active one (past `scanIndex` when none was found). */
  lemma {:induction false} DiscoveryWindows(b: Branch, gap: nat, scanIndex: nat, lastActive: int)
    requires lastActive >= -1
    requires lastActive == -1 || lastActive < scanIndex <= lastActive + gap
    ensures Discover(b, gap, scanIndex, lastActive).Ok? ==>
      var s := Discover(b, gap, scanIndex, lastActive).value;
      && |s.windows| >= 1
      && (forall w :: w in s.windows ==> w <= gap && (gap >= 1 ==> w >= 1))
      && scanIndex + Sum(s.windows) == (if s.lastActive == -1 then scanIndex + gap else s.lastActive + gap + 1)
    decreases |Above(b.active, lastActive)|
  {
    var window: nat := if lastActive == -1 then gap else gap - (scanIndex - lastActive) + 1;
    if scanIndex !in b.failsAt {
      var recent := RecentActive(b.active, scanIndex, window, lastActive);
      if recent != lastActive {
        AboveShrinks(b.active, lastActive, recent);
        DiscoveryWindows(b, gap, scanIndex + window, recent);
        var rest := Discover(b, gap, scanIndex + window, recent);
        if rest.Ok? {
          var ws := [window] + rest.value.windows;
          assert Sum(ws) == window + Sum(rest.value.windows) by {
            assert ws[1..] == rest.value.windows;
          }
          forall w | w in ws
            ensures w <= gap && (gap >= 1 ==> w >= 1)
          {
            if w != window {
              assert w in rest.value.windows;
            }
          }
        }
      }
    }
  }

  /** A scan fails only on a query that the chain collaborator fails, at or
      after `scanIndex`; with no failing query it always reports. */
  lemma {:induction false} DiscoveryFailsOnlyOnQueryFailure(b: Branch, gap: nat, scanIndex: nat, lastActive: int)
    requires lastActive >= -1
    requires lastActive == -1 || lastActive < scanIndex <= lastActive + gap + 1
    ensures Discover(b, gap, scanIndex, lastActive).Err? ==>
      && Discover(b, gap, scanIndex, lastActive).error.ChainQueryFailed?
      && Discover(b, gap, scanIndex, lastActive).error.at in b.failsAt
      && Discover(b, gap, scanIndex, lastActive).error.at >= scanIndex
    decreases |Above(b.active, lastActive)|
  {
    var window: nat := if lastActive == -1 then gap else gap - (scanIndex - lastActive) + 1;
    if scanIndex !in b.failsAt {
      var recent := RecentActive(b.active, scanIndex, window, lastActive);
      if recent != lastActive {
        AboveShrinks(b.active, lastActive, recent);
        DiscoveryFailsOnlyOnQueryFailure(b, gap, scanIndex + window, recent);
      }
    }
  }

  /** Activity only at positions 5 and 17, scanned from 0 with a gap of 20:
      the first window [0, 20) finds 17, the second [20, 38) is quiet, and
      the scan reports 17. */
  lemma DiscoveryExample()
    ensures Discover(Branch({5, 17}, {}), 20, 0, -1) == Ok(Scan(17, [20, 18]))
  {
    var b := Branch({5, 17}, {});
    RecentActiveIsLast(b.active, 0, 20, -1);
    RecentActiveIsLast(b.active, 20, 18, 17);
    AboveShrinks(b.active, -1, 17);
    assert Discover(b, 20, 20, 17) == Ok(Scan(17, [18]));
    assert Discover(b, 20, 0, -1) == Prefixed([20], Discover(b, 20, 20, 17));
    assert [20] + [18] == [20, 18];
  }

  /** Activity only at positions 1 and 5, scanned from 0 with a gap of 4:
      the first window [0, 4) finds 1, the second [4, 6) finds 5, the third
      [6, 10) is quiet, and the scan reports 5. */
  lemma DiscoveryThreeWindowsExample()
    ensures Discover(Branch({1, 5}, {}), 4, 0, -1) == Ok(Scan(5, [4, 2, 4]))
  {
    var b := Branch({1, 5}, {});
    ExampleWindows(b);
    AboveShrinks(b.active, -1, 1);
    AboveShrinks(b.active, 1, 5);
    assert Discover(b, 4, 4, 1) == Prefixed([2], Discover(b, 4, 6, 5));
    assert Discover(b, 4, 0, -1) == Prefixed([4], Discover(b, 4, 4, 1));
    assert [4] + ([2] + [4]) == [4, 2, 4];
  }

  lemma ExampleWindows(b: Branch)
    requires b == Branch({1, 5}, {})
    ensures RecentActive(b.active, 0, 4, -1) == 1
    ensures RecentActive(b.active, 4, 2, 1) == 5
    ensures Discover(b, 4, 6, 5) == Ok(Scan(5, [4]))
  {
    RecentActiveIsLast(b.active, 0, 4, -1);
    RecentActiveIsLast(b.active, 4, 2, 1);
    RecentActiveIsLast(b.active, 6, 4, 5);
    assert 1 in b.active && 5 in b.active;
  }

  /** A position after a scan: unchanged when nothing was found, one past the
      last active position otherwise. */
  function Bump(current: nat, found: int): nat
    requires found >= -1
  {
    if found == -1 then current else found + 1
  }

  /** updateIndex with both scans committed together: the change branch and
      then the receive branch are scanned with the gap limit, and the pair
      moves only when both scans succeed. */
  function Advance(idx: IndexPair, change: Branch, receive: Branch): Result<IndexPair, Failure> {
    match Discover(change, ScanWindow, idx.changeIndex, -1)
    case Err(e) => Err(e)
    case Ok(c) =>
      match Discover(receive, ScanWindow, idx.receiveIndex, -1)
      case Err(e) => Err(e)
      case Ok(rc) =>
        Ok(idx.(changeIndex := Bump(idx.changeIndex, c.lastActive), receiveIndex := Bump(idx.receiveIndex, rc.lastActive)))
  }

  /** Positions never decrease; a position moves exactly when its branch shows
      activity, and then to one past an active address that is followed by
      ScanWindow quiet addresses. */
  lemma AdvanceMovesToActivity(idx: IndexPair, change: Branch, receive: Branch)
    ensures Advance(idx, change, receive).Ok? ==>
      var n := Advance(idx, change, receive).value;
      && n.cosigner == idx.cosigner
      && n.changeIndex >= idx.changeIndex && n.receiveIndex >= idx.receiveIndex
      && (n.changeIndex == idx.changeIndex <==> Quiet(change.active, idx.changeIndex, ScanWindow))
      && (n.receiveIndex == idx.receiveIndex <==> Quiet(receive.active, idx.receiveIndex, ScanWindow))
      && (n.changeIndex > idx.changeIndex ==> n.changeIndex - 1 in change.active && Quiet(change.active, n.changeIndex, ScanWindow))
      && (n.receiveIndex > idx.receiveIndex ==> n.receiveIndex - 1 in receive.active && Quiet(receive.active, n.receiveIndex, ScanWindow))
  {
    DiscoveryFindsLastActive(change, ScanWindow, idx.changeIndex);
    DiscoveryFindsLastActive(receive, ScanWindow, idx.receiveIndex);
    var c := Discover(change, ScanWindow, idx.changeIndex, -1);
    var rc := Discover(receive, ScanWindow, idx.receiveIndex, -1);
    if c.Ok? && rc.Ok? {
      if c.value.lastActive != -1 {
        assert Covered(change.active, idx.changeIndex, ScanWindow);
      }
      if rc.value.lastActive != -1 {
        assert Covered(receive.active, idx.receiveIndex, ScanWindow);
      }
    }
  }

  /** updateIndex as written, with a failing activity query passed on as an
      error (the throw in indexDiscovery is modelled as an error result): the
      change position is stored before the receive branch is scanned, so a
      failing receive scan reports an error after the change position has
      already moved. With the throw left in place no error is reported at
      all, and the change position has moved just the same. */
  function AdvanceAsWritten(idx: IndexPair, change: Branch, receive: Branch): (IndexPair, Option<Failure>) {
    match Discover(change, ScanWindow, idx.changeIndex, -1)
    case Err(e) => (idx, Some(e))
    case Ok(c) =>
      var moved := idx.(changeIndex := Bump(idx.changeIndex, c.lastActive));
      match Discover(receive, ScanWindow, idx.receiveIndex, -1)
      case Err(e) => (moved, Some(e))
      case Ok(rc) => (moved.(receiveIndex := Bump(idx.receiveIndex, rc.lastActive)), None)
  }

  /** A change branch used at position 0 and a receive query that fails: the
      change position is left at 1 (with the failure reported once the throw
      is passed on as an error); the all-or-nothing update moves nothing. */
  lemma PartialAdvanceAsWritten()
    ensures var idx := IndexPair(0, 0, 0);
            var change := Branch({0}, {});
            var receive := Branch({}, {0});
            && AdvanceAsWritten(idx, change, receive) == (IndexPair(0, 1, 0), Some(ChainQueryFailed(0)))
            && Advance(idx, change, receive) == Err(ChainQueryFailed(0))
  {
    var change := Branch({0}, {});
    RecentActiveIsLast(change.active, 0, ScanWindow, -1);
    assert RecentActive(change.active, 0, ScanWindow, -1) == 0;
    assert RecentActive(change.active, 1, ScanWindow, 0) == 0;
    assert Discover(change, ScanWindow, 1, 0) == Ok(Scan(0, [ScanWindow]));
  }

  /** One pair after updateIndex: advanced when both scans succeed, kept as it
      was otherwise. */
  function Updated(idx: IndexPair, change: Branch, receive: Branch): IndexPair {
    match Advance(idx, change, receive)
    case Ok(n) => n
    case Err(_) => idx
  }

  /** An update never moves a position back, nor changes the cosigner. */
  lemma UpdatedNeverDecreases(idx: IndexPair, change: Branch, receive: Branch)
    ensures var n := Updated(idx, change, receive);
      n.cosigner == idx.cosigner && n.changeIndex >= idx.changeIndex && n.receiveIndex >= idx.receiveIndex
  {
    AdvanceMovesToActivity(idx, change, receive);
  }

  /** The branches of a cosigner's pair, change branch first. */
  type Chain = (int, bool) -> Branch

  /** The first failure among the updates of the pairs, in pair order. */
  function FirstFailure(indexes: seq<IndexPair>, chain: Chain): Option<Failure> {
    if indexes == [] then None
    else
      var idx := indexes[0];
      match Advance(idx, chain(idx.cosigner, true), chain(idx.cosigner, false))
      case Err(e) => Some(e)
      case Ok(_) => FirstFailure(indexes[1..], chain)
  }

  /** How updateIndexes finishes: the values its callback receives, in
      order, and whether it notifies and stores. */
  datatype Completion = Completion(callbacks: seq<Option<Failure>>, notified: bool)

  /** updateIndexes as written, once a failure reaches it as an error (the
      throw in indexDiscovery, modelled as an error result, would otherwise
      escape before any callback): after calling back with the error it goes
      on, notifies, stores and calls back a second time, with no error. */
  function CompleteAsWritten(err: Option<Failure>): Completion {
    if err.Some? then Completion([err, None], true) else Completion([None], true)
  }

  /** updateIndexes with the early return: exactly one callback, carrying
      the error if there was one, and notification and storage only on
      success. */
  function Complete(err: Option<Failure>): (r: Completion)
    ensures |r.callbacks| == 1 && r.callbacks[0] == err
    ensures r.notified <==> err.None?
  {
    if err.Some? then Completion([err], false) else Completion([None], true)
  }

  /** A failing update that reaches the completion as an error, as written,
      reports success after reporting the failure, and stores the wallet;
      corrected, it reports the failure once and stores nothing. */
  lemma FailedUpdateCallsBackTwiceAsWritten(e: Failure)
    ensures CompleteAsWritten(Some(e)).callbacks == [Some(e), None]
    ensures CompleteAsWritten(Some(e)).notified
    ensures Complete(Some(e)) == Completion([Some(e)], false)
  {
  }

  /** Extending the pairs keeps an earlier failure, and otherwise reports the
      new pair's failure, if any. */
  lemma {:induction false} FirstFailureAppend(indexes: seq<IndexPair>, idx: IndexPair, chain: Chain)
    ensures FirstFailure(indexes + [idx], chain) ==
      if FirstFailure(indexes, chain).Some? then FirstFailure(indexes, chain)
      else match Advance(idx, chain(idx.cosigner, true), chain(idx.cosigner, false))
        case Err(e) => Some(e)
        case Ok(_) => None
  {
    if indexes == [] {
      assert [] + [idx] == [idx];
      assert [idx][1..] == [];
    } else {
      assert (indexes + [idx])[1..] == indexes[1..] + [idx];
      FirstFailureAppend(indexes[1..], idx, chain);
    }
  }

  /** Every pair updated independently, each as `Updated` says. */
  function AdvanceAll(indexes: seq<IndexPair>, chain: Chain): seq<IndexPair> {
    seq(|indexes|, j requires 0 <= j < |indexes| =>
      Updated(indexes[j], chain(indexes[j].cosigner, true), chain(indexes[j].cosigner, false)))
  }

  /** The index pairs after updateIndexes, committed all together: every
      pair advanced when every pair's update succeeds, all kept otherwise. */
  function Refreshed(indexes: seq<IndexPair>, chain: Chain): seq<IndexPair> {
    if FirstFailure(indexes, chain).Some? then indexes else AdvanceAll(indexes, chain)
  }

  /** The refresh fails exactly when some pair's update fails, and then with
      the error of a failing pair. */
  lemma {:induction false} FirstFailureExactlyWhenSomePairFails(indexes: seq<IndexPair>, chain: Chain)
    ensures FirstFailure(indexes, chain).None? <==>
      forall j :: 0 <= j < |indexes| ==> Advance(indexes[j], chain(indexes[j].cosigner, true), chain(indexes[j].cosigner, false)).Ok?
    ensures FirstFailure(indexes, chain).Some? ==>
      exists j :: 0 <= j < |indexes| &&
        Advance(indexes[j], chain(indexes[j].cosigner, true), chain(indexes[j].cosigner, false)) == Err(FirstFailure(indexes, chain).value)
  {
    if indexes != [] {
      FirstFailureExactlyWhenSomePairFails(indexes[1..], chain);
      var rest := indexes[1..];
      assert forall j :: 0 <= j < |rest| ==> rest[j] == indexes[j + 1];
      if FirstFailure(indexes, chain).None? {
        forall j | 0 <= j < |indexes|
          ensures Advance(indexes[j], chain(indexes[j].cosigner, true), chain(indexes[j].cosigner, false)).Ok?
        {
          if j > 0 {
            assert indexes[j] == rest[j - 1];
          }
        }
      }
      if FirstFailure(indexes, chain).Some? && FirstFailure(rest, chain).Some? &&
         Advance(indexes[0], chain(indexes[0].cosigner, true), chain(indexes[0].cosigner, false)).Ok? {
        var k :| 0 <= k < |rest| &&
          Advance(rest[k], chain(rest[k].cosigner, true), chain(rest[k].cosigner, false)) == Err(FirstFailure(rest, chain).value);
        assert indexes[k + 1] == rest[k];
      }
    }
  }

  /** A refresh is all or nothing: when any pair fails, no pair moves; when
      none fails, every pair moves as its own update says. */
  lemma RefreshAllOrNothing(indexes: seq<IndexPair>, chain: Chain)
    ensures var r := Refreshed(indexes, chain);
      && |r| == |indexes|
      && (FirstFailure(indexes, chain).Some? ==> r == indexes)
      && (FirstFailure(indexes, chain).None? ==> forall j :: 0 <= j < |r| ==>
            var a := Advance(indexes[j], chain(indexes[j].cosigner, true), chain(indexes[j].cosigner, false));
            a.Ok? && r[j] == a.value)
  {
    FirstFailureExactlyWhenSomePairFails(indexes, chain);
  }

  /** updateIndexes as written: every pair's task updates the ring's own
      index object in place, so each pair ends as its own update left it,
      however the other pairs fared. */
  function RefreshAsWritten(indexes: seq<IndexPair>, chain: Chain): seq<IndexPair> {
    seq(|indexes|, j requires 0 <= j < |indexes| =>
      AdvanceAsWritten(indexes[j], chain(indexes[j].cosigner, true), chain(indexes[j].cosigner, false)).0)
  }

  /** Cosigner 0's change branch is used at position 0; cosigner 1's change
      query fails. */
  function TwoCosigners(cosigner: int, change: bool): Branch {
    if cosigner == 0 && change then Branch({0}, {})
    else if cosigner == 1 && change then Branch({}, {0})
    else Branch({}, {})
  }

  /** As written, cosigner 0's pair advances although the refresh fails on
      cosigner 1; the all-or-nothing refresh keeps both pairs. */
  lemma PartialRefreshAsWritten()
    ensures var indexes := [IndexPair(0, 0, 0), IndexPair(1, 0, 0)];
      && FirstFailure(indexes, TwoCosigners) == Some(ChainQueryFailed(0))
      && RefreshAsWritten(indexes, TwoCosigners) == [IndexPair(0, 1, 0), IndexPair(1, 0, 0)]
      && Refreshed(indexes, TwoCosigners) == indexes
  {
    var used := Branch({0}, {});
    var quiet := Branch({}, {});
    RecentActiveIsLast(used.active, 0, ScanWindow, -1);
    RecentActiveIsLast(used.active, 1, ScanWindow, 0);
    RecentActiveIsLast(quiet.active, 0, ScanWindow, -1);
    assert Discover(used, ScanWindow, 1, 0) == Ok(Scan(0, [ScanWindow]));
    assert Discover(used, ScanWindow, 0, -1).Ok? && Discover(used, ScanWindow, 0, -1).value.lastActive == 0;
    assert Discover(quiet, ScanWindow, 0, -1) == Ok(Scan(-1, [ScanWindow]));
    assert Advance(IndexPair(0, 0, 0), used, quiet) == Ok(IndexPair(0, 1, 0));
    var indexes := [IndexPair(0, 0, 0), IndexPair(1, 0, 0)];
    assert indexes[1..] == [IndexPair(1, 0, 0)];
  }
}
