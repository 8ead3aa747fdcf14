/** The wallet's small connection state machines: the reconnect back-off of
    scheduleConnect and _handleDisconnect, the one-time walletReady greeting
    of a seeded join in connectToAll, and the registered-peer cache of
    getRegisteredPeerIds. */
module Connection {
  import opened Types

  /* ---------- reconnect back-off ---------- */

  /** The delay after one online tick of scheduleConnect, from the current
      delay, where 0 stands for an unset delay: `currentDelay * 2 ||
      reconnectDelay` gives the base delay when the current one is unset,
      since the product is then 0 or NaN, both falsy. */
  function NextDelay(current: nat, reconnectDelay: nat): nat {
    if current * 2 != 0 then current * 2 else reconnectDelay
  }

  /** One tick of scheduleConnect: the delay moves only while online. */
  function Tick(current: nat, reconnectDelay: nat, online: bool): nat {
    if online then NextDelay(current, reconnectDelay) else current
  }

  /** The delay after a run of ticks, each online or not. */
  function DelayAfter(current: nat, reconnectDelay: nat, ticks: seq<bool>): nat
    decreases |ticks|
  {
    if ticks == [] then current
    else DelayAfter(Tick(current, reconnectDelay, ticks[0]), reconnectDelay, ticks[1..])
  }

  function Pow2(k: nat): (r: nat)
    ensures r >= 1
  {
    if k == 0 then 1 else 2 * Pow2(k - 1)
  }

  /** Number of online ticks in a run. */
  function OnlineCount(ticks: seq<bool>): nat {
    if ticks == [] then 0 else (if ticks[0] then 1 else 0) + OnlineCount(ticks[1..])
  }

  /** From an unset delay (the start, and the state _handleDisconnect
      restores), k online ticks give reconnectDelay * 2^(k-1): the base delay
      on the first, doubling on each further one; offline ticks leave the
      delay where it is. */
  lemma {:induction false} BackoffDoubles(reconnectDelay: nat, ticks: seq<bool>)
    requires reconnectDelay > 0
    ensures OnlineCount(ticks) == 0 ==> DelayAfter(0, reconnectDelay, ticks) == 0
    ensures OnlineCount(ticks) > 0 ==> DelayAfter(0, reconnectDelay, ticks) == reconnectDelay * Pow2(OnlineCount(ticks) - 1)
  {
    if ticks != [] {
      if ticks[0] {
        DelayFromSet(reconnectDelay, reconnectDelay, ticks[1..]);
      } else {
        BackoffDoubles(reconnectDelay, ticks[1..]);
      }
    }
  }

  /** From a set delay d, k online ticks give d * 2^k. */
  lemma {:induction false} DelayFromSet(d: nat, reconnectDelay: nat, ticks: seq<bool>)
    requires d > 0
    ensures DelayAfter(d, reconnectDelay, ticks) == d * Pow2(OnlineCount(ticks))
    decreases |ticks|
  {
    if ticks != [] {
      if ticks[0] {
        DelayFromSet(2 * d, reconnectDelay, ticks[1..]);
        assert 2 * d * Pow2(OnlineCount(ticks[1..])) == d * Pow2(OnlineCount(ticks));
      } else {
        DelayFromSet(d, reconnectDelay, ticks[1..]);
      }
    }
  }

  /* ---------- seeded join (connectToAll) ---------- */

  /** The seeded copayer id is truthy: set and non-empty. */
  predicate Seeded(seeded: Option<CopayerId>) {
    seeded.Some? && seeded.value != ""
  }

  /** connectToAll: connect to every copayer of the ring, then greet the
      seeded copayer, if any, and forget it. */
  function ConnectStep(all: seq<CopayerId>, seeded: Option<CopayerId>): (seq<NetCall>, Option<CopayerId>) {
    if Seeded(seeded) then ([ConnectTo(all), Send(To(seeded.value), WalletReadyOut)], None)
    else ([ConnectTo(all)], seeded)
  }

  /** Number of walletReady greetings in a list of calls. */
  function Greetings(calls: seq<NetCall>): nat {
    if calls == [] then 0
    else (if calls[0].Send? && calls[0].what == WalletReadyOut then 1 else 0) + Greetings(calls[1..])
  }

  lemma {:induction false} GreetingsAppend(a: seq<NetCall>, b: seq<NetCall>)
    ensures Greetings(a + b) == Greetings(a) + Greetings(b)
  {
    if a != [] {
      assert (a + b)[1..] == a[1..] + b;
      GreetingsAppend(a[1..], b);
    } else {
      assert a + b == b;
    }
  }

  /** Over any number of connectToAll calls, the seeded copayer is greeted
      exactly once when it was set, and nobody is greeted otherwise. */
  lemma {:induction false} SeededGreetedOnce(all: seq<CopayerId>, seeded: Option<CopayerId>, rounds: nat)
    ensures Greetings(ConnectRounds(all, seeded, rounds)) == (if Seeded(seeded) && rounds > 0 then 1 else 0)
    decreases rounds
  {
    if rounds > 0 {
      var (calls, next) := ConnectStep(all, seeded);
      GreetingsAppend(calls, ConnectRounds(all, next, rounds - 1));
      SeededGreetedOnce(all, next, rounds - 1);
      assert Greetings([ConnectTo(all)]) == 0 by {
        assert [ConnectTo(all)][1..] == [];
      }
      if Seeded(seeded) {
        assert calls == [ConnectTo(all)] + [Send(To(seeded.value), WalletReadyOut)];
        GreetingsAppend([ConnectTo(all)], [Send(To(seeded.value), WalletReadyOut)]);
        assert [Send(To(seeded.value), WalletReadyOut)][1..] == [];
      }
    }
  }

  /** The calls of `rounds` successive connectToAll calls. */
  function ConnectRounds(all: seq<CopayerId>, seeded: Option<CopayerId>, rounds: nat): seq<NetCall>
    decreases rounds
  {
    if rounds == 0 then []
    else
      var (calls, next) := ConnectStep(all, seeded);
      calls + ConnectRounds(all, next, rounds - 1)
  }

  /* ---------- registered-peer cache (getRegisteredPeerIds) ---------- */

  /** One cache entry: a registered copayer, its peer id, nickname and position. */
  datatype PeerEntry = PeerEntry(peerId: PeerId, copayerId: CopayerId, nick: string, index: nat)

  /** The cache entries rebuilt from the registered copayers, one per
      copayer, in ring order. */
  method BuildPeerCache(copayers: seq<CopayerId>, peerOf: CopayerId -> PeerId, nickOf: CopayerId -> string)
    returns (r: seq<PeerEntry>)
    ensures |r| == |copayers|
    ensures forall i :: 0 <= i < |r| ==>
      r[i].index == i && r[i].copayerId == copayers[i] && r[i].peerId == peerOf(copayers[i]) && r[i].nick == nickOf(copayers[i])
  {
    r := [];
    for i := 0 to |copayers|
      invariant |r| == i
      invariant forall j :: 0 <= j < i ==>
        r[j].index == j && r[j].copayerId == copayers[j] && r[j].peerId == peerOf(copayers[j]) && r[j].nick == nickOf(copayers[j])
    {
      var cid := copayers[i];
      r := r + [PeerEntry(peerOf(cid), cid, nickOf(cid), i)];
    }
  }
}
