/** Spendable outputs and balances: the filter getUnspent applies to the
    chain's unspent outputs, and the totals getBalance computes from them.
    Amounts are integer satoshis. */
module Balance {
  import opened Types

  /** One unspent output as the chain reports it. */
  datatype Utxo = Utxo(txid: TxId, vout: nat, address: Address, amount: nat, confirmations: int)

  /** The "txid,vout" name under which proposals reserve an output. */
  function OutpointOf(u: Utxo): Outpoint {
    Outpoint(u.txid, u.vout)
  }

  /** An output may be spent: no live proposal reserves it, and it is
      confirmed unless unconfirmed spending is allowed. */
  predicate Spendable(u: Utxo, reserved: set<Outpoint>, spendUnconfirmed: bool) {
    OutpointOf(u) !in reserved && (spendUnconfirmed || u.confirmations >= 1)
  }

  /** The spendable outputs of `us`, in their order. */
  function SafeList(us: seq<Utxo>, reserved: set<Outpoint>, spendUnconfirmed: bool): (r: seq<Utxo>)
    ensures |r| <= |us|
  {
    if us == [] then []
    else
      var last := us[|us| - 1];
      SafeList(us[..|us| - 1], reserved, spendUnconfirmed) + (if Spendable(last, reserved, spendUnconfirmed) then [last] else [])
  }

  /** Sum of the amounts of `us`. */
  function Total(us: seq<Utxo>): nat {
    if us == [] then 0 else Total(us[..|us| - 1]) + us[|us| - 1].amount
  }

  /** Sum of the amounts of the outputs of `us` paying to `a`. */
  function AddressTotal(us: seq<Utxo>, a: Address): nat {
    if us == [] then 0
    else AddressTotal(us[..|us| - 1], a) + (if us[|us| - 1].address == a then us[|us| - 1].amount else 0)
  }

  /** The addresses `us` pays to. */
  function AddressesOf(us: seq<Utxo>): set<Address> {
    set u | u in us :: u.address
  }

  /** Each output is kept exactly as often as the raw list holds it when it
      is spendable, and dropped otherwise. */
  lemma {:induction false} SafeListKeepsExactlySpendable(us: seq<Utxo>, reserved: set<Outpoint>, spendUnconfirmed: bool)
    ensures forall u :: multiset(SafeList(us, reserved, spendUnconfirmed))[u] == (if Spendable(u, reserved, spendUnconfirmed) then multiset(us)[u] else 0)
  {
    if us != [] {
      var init := us[..|us| - 1];
      SafeListKeepsExactlySpendable(init, reserved, spendUnconfirmed);
      assert us == init + [us[|us| - 1]];
    }
  }

  /** `pos` picks `r` out of `us`: one position per element of `r`, strictly
      increasing, each holding that element. */
  predicate Embeds(pos: seq<nat>, us: seq<Utxo>, r: seq<Utxo>) {
    && |pos| == |r|
    && (forall i :: 0 <= i < |pos| ==> pos[i] < |us| && us[pos[i]] == r[i])
    && (forall i, j :: 0 <= i < j < |pos| ==> pos[i] < pos[j])
  }

  /** The positions of the spendable outputs of `us`, in order. */
  function SafePositions(us: seq<Utxo>, reserved: set<Outpoint>, spendUnconfirmed: bool): seq<nat> {
    if us == [] then []
    else
      SafePositions(us[..|us| - 1], reserved, spendUnconfirmed)
        + (if Spendable(us[|us| - 1], reserved, spendUnconfirmed) then [|us| - 1] else [])
  }

  lemma EmbedsExtended(pos: seq<nat>, init: seq<Utxo>, r: seq<Utxo>, x: Utxo, keep: bool)
    requires Embeds(pos, init, r)
    ensures Embeds(pos + (if keep then [|init|] else []), init + [x], r + (if keep then [x] else []))
  {
    var us := init + [x];
    assert forall i :: 0 <= i < |pos| ==> pos[i] < |init| && us[pos[i]] == init[pos[i]];
  }

  /** The spendable list is order-preserving: it is the raw list with the
      unspendable outputs taken out, position by position. */
  lemma {:induction false} SafeListIsSubsequence(us: seq<Utxo>, reserved: set<Outpoint>, spendUnconfirmed: bool)
    ensures exists pos: seq<nat> :: Embeds(pos, us, SafeList(us, reserved, spendUnconfirmed))
  {
    SafePositionsEmbed(us, reserved, spendUnconfirmed);
  }

  lemma {:induction false} SafePositionsEmbed(us: seq<Utxo>, reserved: set<Outpoint>, spendUnconfirmed: bool)
    ensures Embeds(SafePositions(us, reserved, spendUnconfirmed), us, SafeList(us, reserved, spendUnconfirmed))
  {
    if us != [] {
      var init := us[..|us| - 1];
      var last := us[|us| - 1];
      SafePositionsEmbed(init, reserved, spendUnconfirmed);
      EmbedsExtended(SafePositions(init, reserved, spendUnconfirmed), init, SafeList(init, reserved, spendUnconfirmed),
                     last, Spendable(last, reserved, spendUnconfirmed));
      assert init + [last] == us;
    }
  }

  /** The safe balance never exceeds the balance. */
  lemma {:induction false} SafeBalanceAtMostBalance(us: seq<Utxo>, reserved: set<Outpoint>, spendUnconfirmed: bool)
    ensures Total(SafeList(us, reserved, spendUnconfirmed)) <= Total(us)
  {
    if us != [] {
      var init := us[..|us| - 1];
      var last := us[|us| - 1];
      SafeBalanceAtMostBalance(init, reserved, spendUnconfirmed);
      TotalAppend(SafeList(init, reserved, spendUnconfirmed), if Spendable(last, reserved, spendUnconfirmed) then [last] else []);
    }
  }

  lemma {:induction false} TotalAppend(a: seq<Utxo>, b: seq<Utxo>)
    requires |b| <= 1
    ensures Total(a + b) == Total(a) + Total(b)
  {
    if b != [] {
      assert (a + b)[..|a + b| - 1] == a;
      assert (a + b)[|a + b| - 1] == b[0];
      assert b[..0] == [];
      assert Total(b) == Total(b[..0]) + b[0].amount;
    } else {
      assert a + b == a;
    }
  }

  /** An address the outputs do not pay to has a zero total. */
  lemma {:induction false} AbsentAddressTotalsZero(us: seq<Utxo>, a: Address)
    requires a !in AddressesOf(us)
    ensures AddressTotal(us, a) == 0
  {
    if us != [] {
      var init := us[..|us| - 1];
      assert AddressesOf(init) <= AddressesOf(us);
      AbsentAddressTotalsZero(init, a);
    }
  }

  /** Sum over a list of addresses of the per-address totals. */
  function SumByAddress(us: seq<Utxo>, addrs: seq<Address>): nat {
    if addrs == [] then 0 else AddressTotal(us, addrs[0]) + SumByAddress(us, addrs[1..])
  }

  lemma {:induction false} SumByAddressStep(us: seq<Utxo>, x: Utxo, addrs: seq<Address>)
    requires forall i, j :: 0 <= i < j < |addrs| ==> addrs[i] != addrs[j]
    ensures SumByAddress(us + [x], addrs) == SumByAddress(us, addrs) + if x.address in addrs then x.amount else 0
  {
    assert (us + [x])[..|us + [x]| - 1] == us;
    if addrs != [] {
      SumByAddressStep(us, x, addrs[1..]);
      assert x.address in addrs[1..] ==> x.address != addrs[0];
      assert x.address in addrs <==> x.address == addrs[0] || x.address in addrs[1..];
    }
  }

  /** The per-address totals, over any duplicate-free list naming every
      address the outputs pay to, add up to the balance. */
  lemma {:induction false} ByAddressAddsUpToBalance(us: seq<Utxo>, addrs: seq<Address>)
    requires forall i, j :: 0 <= i < j < |addrs| ==> addrs[i] != addrs[j]
    requires AddressesOf(us) <= set a | a in addrs
    ensures SumByAddress(us, addrs) == Total(us)
  {
    if us == [] {
      SumOfEmpty(addrs);
    } else {
      var init := us[..|us| - 1];
      var last := us[|us| - 1];
      assert AddressesOf(init) <= AddressesOf(us);
      ByAddressAddsUpToBalance(init, addrs);
      assert us == init + [last];
      SumByAddressStep(init, last, addrs);
      assert last.address in AddressesOf(us);
    }
  }

  lemma {:induction false} SumOfEmpty(addrs: seq<Address>)
    ensures SumByAddress([], addrs) == 0
  {
    if addrs != [] {
      SumOfEmpty(addrs[1..]);
    }
  }

  /** getUnspent's answer: the spendable outputs and all outputs. */
  datatype Unspent = Unspent(safe: seq<Utxo>, all: seq<Utxo>)

  /** getUnspent: passes on the chain's error, otherwise keeps the raw list
      and filters it. */
  method GetUnspent(raw: Result<seq<Utxo>, Failure>, reserved: set<Outpoint>, spendUnconfirmed: bool)
    returns (r: Result<Unspent, Failure>)
    ensures raw.Err? ==> r == Err(raw.error)
    ensures raw.Ok? ==> r.Ok? && r.value.all == raw.value && r.value.safe == SafeList(raw.value, reserved, spendUnconfirmed)
  {
    if raw.Err? {
      return Err(raw.error);
    }
    var all := raw.value;
    var safe := [];
    for i := 0 to |all|
      invariant safe == SafeList(all[..i], reserved, spendUnconfirmed)
    {
      assert all[..i + 1][..i] == all[..i];
      if Spendable(all[i], reserved, spendUnconfirmed) {
        safe := safe + [all[i]];
      }
    }
    assert all[..|all|] == all;
    r := Ok(Unspent(safe, all));
  }

  /** getBalance's answer: the balance, the balance per address, and the
      balance of the spendable outputs. */
  datatype Balances = Balances(balance: nat, byAddress: map<Address, nat>, safeBalance: nat)

  /** The first loop of getBalance: the balance and the per-address balances. */
  method SumOutputs(all: seq<Utxo>) returns (balance: nat, byAddress: map<Address, nat>)
    ensures balance == Total(all)
    ensures byAddress.Keys == AddressesOf(all)
    ensures forall a :: a in byAddress ==> byAddress[a] == AddressTotal(all, a)
  {
    balance := 0;
    byAddress := map[];
    for i := 0 to |all|
      invariant balance == Total(all[..i])
      invariant byAddress.Keys == AddressesOf(all[..i])
      invariant forall a :: a in byAddress ==> byAddress[a] == AddressTotal(all[..i], a)
    {
      var u := all[i];
      assert all[..i + 1][..i] == all[..i];
      assert all[..i + 1] == all[..i] + [u];
      if u.address !in byAddress {
        AbsentAddressTotalsZero(all[..i], u.address);
      }
      var prior := if u.address in byAddress then byAddress[u.address] else 0;
      balance := balance + u.amount;
      byAddress := byAddress[u.address := prior + u.amount];
    }
    assert all[..|all|] == all;
  }

  /** The second loop of getBalance: the balance of the spendable outputs. */
  method SumAmounts(us: seq<Utxo>) returns (total: nat)
    ensures total == Total(us)
  {
    total := 0;
    for i := 0 to |us|
      invariant total == Total(us[..i])
    {
      assert us[..i + 1][..i] == us[..i];
      total := total + us[i].amount;
    }
    assert us[..|us|] == us;
  }

  /** getBalance: totals over all outputs, per address, and over the
      spendable ones. */
  method GetBalance(raw: Result<seq<Utxo>, Failure>, reserved: set<Outpoint>, spendUnconfirmed: bool)
    returns (r: Result<Balances, Failure>)
    ensures raw.Err? ==> r == Err(raw.error)
    ensures raw.Ok? ==> r.Ok?
    ensures r.Ok? ==> raw.Ok? && r.value.balance == Total(raw.value)
    ensures r.Ok? ==> r.value.safeBalance == Total(SafeList(raw.value, reserved, spendUnconfirmed))
    ensures r.Ok? ==> r.value.byAddress.Keys == AddressesOf(raw.value)
    ensures r.Ok? ==> forall a :: a in r.value.byAddress ==> r.value.byAddress[a] == AddressTotal(raw.value, a)
  {
    var unspent := GetUnspent(raw, reserved, spendUnconfirmed);
    if unspent.Err? {
      return Err(unspent.error);
    }
    var balance, byAddress := SumOutputs(unspent.value.all);
    var safeBalance := SumAmounts(unspent.value.safe);
    r := Ok(Balances(balance, byAddress, safeBalance));
  }
}
