/** The wallet object: its settings, the state it updates in place, and its
    operations, each proved against the specification functions of the
    component modules. Sends, events and storage are kept as records of what
    the wallet handed to its network, its listeners and its storage. */
module WalletCore {
  import opened Types
  import Discovery
  import AddressBook
  import Proposals
  import Balance
  import Connection
  import Config
  import opened Handlers

  class Wallet {
    const id: string
    const name: string
    const requiredCopayers: nat
    const totalCopayers: nat
    const spendUnconfirmed: bool
    const reconnectDelay: nat

    var ring: KeyRing
    var indexes: seq<IndexPair>
    var txps: map<Ntxid, Proposal>
    var addressBook: map<Address, Entry>
    var sent: seq<NetCall>
    var events: seq<Event>
    var stores: nat
    /** The reconnect delay; 0 while unset. */
    var currentDelay: nat
    var seededCopayerId: Option<CopayerId>
    var registeredPeerIds: seq<Connection.PeerEntry>

    /** The part of the wallet the inbound handlers work on. */
    function State(): WalletState
      reads this
    {
      WalletState(ring, indexes, txps, addressBook, sent, events, stores)
    }

    constructor (settings: Config.Settings, ring0: KeyRing, indexes0: seq<IndexPair>,
                 txps0: map<Ntxid, Proposal>, book0: map<Address, Entry>)
      ensures id == settings.id && name == settings.name
      ensures requiredCopayers == settings.requiredCopayers && totalCopayers == settings.totalCopayers
      ensures spendUnconfirmed == settings.spendUnconfirmed && reconnectDelay == settings.reconnectDelay
      ensures State() == WalletState(ring0, indexes0, txps0, book0, [], [], 0)
      ensures currentDelay == 0 && seededCopayerId.None? && registeredPeerIds == []
    {
      id := settings.id;
      name := settings.name;
      requiredCopayers := settings.requiredCopayers;
      totalCopayers := settings.totalCopayers;
      spendUnconfirmed := settings.spendUnconfirmed;
      reconnectDelay := settings.reconnectDelay;
      ring := ring0;
      indexes := indexes0;
      txps := txps0;
      addressBook := book0;
      sent := [];
      events := [];
      stores := 0;
      currentDelay := 0;
      seededCopayerId := None;
      registeredPeerIds := [];
    }

    /** The constructor: checks the options, then builds the wallet. */
    static method Create(opts: Config.Options, forced: Option<string>, randomId: string, ring0: KeyRing,
                         indexes0: seq<IndexPair>, txps0: map<Ntxid, Proposal>, book0: map<Address, Entry>)
      returns (r: Result<Wallet, Failure>)
      ensures r.Ok? <==>
        (forall i :: 0 <= i < |Config.RequiredOptions| ==> Config.RequiredOptions[i] in opts.present) &&
        (forced.None? || forced.value == opts.network)
      ensures r.Ok? ==> fresh(r.value) && r.value.id == Config.WalletId(opts.id, randomId)
      ensures r.Ok? ==> r.value.State() == WalletState(ring0, indexes0, txps0, book0, [], [], 0)
      ensures r.Ok? ==> r.value.name == opts.name && r.value.requiredCopayers == opts.requiredCopayers &&
                        r.value.totalCopayers == opts.totalCopayers && r.value.spendUnconfirmed == opts.spendUnconfirmed &&
                        r.value.reconnectDelay == opts.reconnectDelay
      ensures r.Ok? ==> r.value.currentDelay == 0 && r.value.seededCopayerId.None? && r.value.registeredPeerIds == []
    {
      var settings := Config.Construct(opts, forced, randomId);
      if settings.Err? {
        return Err(settings.error);
      }
      var w := new Wallet(settings.value, ring0, indexes0, txps0, book0);
      r := Ok(w);
    }

    /* ---------- inbound messages ---------- */

    /** _handleData. */
    method HandleData(sender: CopayerId, msg: Message, p: Peers) returns (failure: Option<Failure>)
      requires Enumerates(p.listed, txps.Keys)
      modifies this`ring, this`indexes, this`txps, this`addressBook, this`sent, this`events, this`stores
      ensures State() == Dispatch(old(State()), id, sender, msg, p).state
      ensures failure == Dispatch(old(State()), id, sender, msg, p).failure
    {
      if !msg.body.WalletIdMsg? && msg.walletId != id {
        events := events + [BadMessage(sender)];
        return None;
      }
      failure := None;
      match msg.body {
        case WalletIdMsg =>
          sent := sent + [Send(To(sender), WalletReadyOut)];
        case WalletReadyMsg =>
          sent := sent + [Send(To(sender), PublicKeyRingOut(ring)), Send(To(sender), AddressBookOut(addressBook))];
          SendAllTxProposals(p.listed, To(sender));
        case PublicKeyRingMsg =>
          HandlePublicKeyRing(p.ringMerge);
        case RejectMsg(ntxid) =>
          failure := HandleReject(sender, ntxid, p.now);
        case SeenMsg(ntxid) =>
          failure := HandleSeen(sender, ntxid, p.now);
        case TxProposalMsg =>
          HandleTxProposal(sender, p);
        case IndexesMsg =>
          HandleIndexes(p.indexMerge);
        case AddressBookMsg(entries) =>
          failure := HandleAddressBook(sender, entries, p.verify);
        case UnknownMsg =>
      }
    }

    /** sendAllTxProposals: one proposal message per listed id. */
    method SendAllTxProposals(listed: seq<Ntxid>, to: Recipients)
      modifies this`sent
      ensures sent == old(sent) + ProposalSends(listed, to)
    {
      var out: seq<NetCall> := [];
      for i := 0 to |listed|
        invariant out == ProposalSends(listed[..i], to)
        invariant sent == old(sent)
      {
        ProposalSendsAppend(listed[..i], listed[i], to);
        assert listed[..i + 1] == listed[..i] + [listed[i]];
        out := out + [Send(to, TxProposalOut(listed[i]))];
      }
      assert listed[..|listed|] == listed;
      sent := sent + out;
    }

    /** _handlePublicKeyRing. */
    method HandlePublicKeyRing(m: Option<MergedRing>)
      modifies this`ring, this`sent, this`events, this`stores
      ensures State() == OnPublicKeyRing(old(State()), m)
    {
      match m {
        case None =>
          events := events + [ConnectionError];
        case Some(mr) =>
          var wasIncomplete := !ring.complete;
          ring := mr.ring;
          if mr.hasChanged {
            var reply := if wasIncomplete then [Send(Everyone, PublicKeyRingOut(ring))] else [];
            var lock := if ring.complete then [LockIncoming(ring.copayerIds)] else [];
            sent := sent + reply + lock;
            events := events + [PublicKeyRingUpdated];
            stores := stores + 1;
          }
      }
    }

    /** _handleIndexes. */
    method HandleIndexes(m: MergedIndexes)
      modifies this`indexes, this`events, this`stores
      ensures State() == OnIndexes(old(State()), m)
    {
      indexes := m.indexes;
      if m.hasChanged {
        events := events + [PublicKeyRingUpdated];
        stores := stores + 1;
      }
    }

    /** _handleReject. */
    method HandleReject(sender: CopayerId, ntxid: Ntxid, now: int) returns (failure: Option<Failure>)
      modifies this`txps, this`events, this`stores
      ensures State() == OnReject(old(State()), sender, ntxid, now).state
      ensures failure == OnReject(old(State()), sender, ntxid, now).failure
    {
      if ntxid == "" {
        return Some(MissingNtxid);
      }
      if ntxid !in txps {
        return Some(UnknownProposal(ntxid));
      }
      var txp := txps[ntxid];
      if sender in txp.signedBy {
        return Some(RejectAfterSign(sender));
      }
      txps := txps[ntxid := txp.(rejectedBy := txp.rejectedBy[sender := now])];
      stores := stores + 1;
      events := events + [TxProposalsUpdated, ProposalEvent(RejectedTxp(sender, ntxid))];
      failure := None;
    }

    /** _handleSeen. */
    method HandleSeen(sender: CopayerId, ntxid: Ntxid, now: int) returns (failure: Option<Failure>)
      modifies this`txps, this`events, this`stores
      ensures State() == OnSeen(old(State()), sender, ntxid, now).state
      ensures failure == OnSeen(old(State()), sender, ntxid, now).failure
    {
      if ntxid == "" {
        return Some(MissingNtxid);
      }
      if ntxid !in txps {
        return Some(UnknownProposal(ntxid));
      }
      var txp := txps[ntxid];
      txps := txps[ntxid := txp.(seenBy := txp.seenBy[sender := now])];
      stores := stores + 1;
      events := events + [TxProposalsUpdated, ProposalEvent(SeenTxp(sender, ntxid))];
      failure := None;
    }

    /** _handleTxProposal, with the signer check enforced. */
    method HandleTxProposal(sender: CopayerId, p: Peers)
      modifies this`txps, this`sent, this`events, this`stores
      ensures State() == OnTxProposal(old(State()), sender, p)
    {
      if p.txMerge.None? {
        events := events + [ProposalEvent(CorruptTxp(sender))];
        return;
      }
      var m := p.txMerge.value;
      var keyMap := Proposals.GetKeyMap(m.txp, p.owners);
      if keyMap.Err? {
        events := events + [ProposalEvent(CorruptTxp(sender))];
        return;
      }
      var added := Proposals.Signers(keyMap.value) - m.txp.signedBy.Keys;
      var txp := m.txp.(signedBy := Proposals.Stamp(m.txp.signedBy, added, p.now));
      StoreMerged(sender, m, txp, Proposals.MergeReport(m.isNew, added), p.accepted, p.now);
    }

    /** The steps of _handleTxProposal after an accepted merge: store the
      proposal, acknowledge it (and re-broadcast it while incomplete, or ask
      the chain about it once complete), notify, store, report the merge. */
    method StoreMerged(sender: CopayerId, m: Proposals.TxMerge, txp: Proposal, report: Proposals.MergeReport,
                       accepted: Option<TxId>, now: int)
      modifies this`txps, this`sent, this`events, this`stores
      ensures var r := Proposals.AfterMerge(old(txps), m, txp, sender, report, accepted, now);
        && txps == r.txps && sent == old(sent) + r.calls
        && events == old(events) + r.events && stores == old(stores) + r.stores
    {
      var ev := Proposals.ProposalEventFor(sender, Some(report));
      var reported := if ev.Some? then [ProposalEvent(ev.value)] else [];
      txps := txps[m.ntxid := txp];
      events := events + ([TxProposalsUpdated] + reported);
      stores := stores + 1;
      if m.hasChanged && txp.complete {
        sent := sent + [Send(Everyone, SeenOut(m.ntxid))];
        // the chain's answer arrives after the synchronous part
        if accepted.Some? {
          txps := Proposals.CheckSent(txps, m.ntxid, accepted, now);
          events := events + [TxProposalsUpdated];
          stores := stores + 1;
        }
      } else if m.hasChanged {
        sent := sent + [Send(Everyone, SeenOut(m.ntxid)), Send(Everyone, TxProposalOut(m.ntxid))];
      }
    }

    /** _handleAddressBook: takes each received entry under an unseen key
      that verifies against the sender. */
    method HandleAddressBook(sender: CopayerId, entries: seq<(Address, Entry)>, verify: Verifier)
      returns (failure: Option<Failure>)
      modifies this`addressBook, this`events, this`stores
      ensures State() == OnAddressBook(old(State()), sender, entries, verify).state
      ensures failure == OnAddressBook(old(State()), sender, entries, verify).failure
    {
      ghost var target := AddressBook.MergeBook(addressBook, entries, sender, verify);
      AddressBook.MergeChangedExactlyWhenAdded(addressBook, entries, sender, verify);
      var changed := false;
      var i := 0;
      while i < |entries|
        invariant 0 <= i <= |entries|
        invariant AddressBook.MergeFrom(addressBook, changed, entries, i, sender, verify) == target
        invariant events == old(events) && stores == old(stores)
      {
        var key := entries[i].0;
        var e := entries[i].1;
        if key !in addressBook {
          if key == "" {
            return Some(KeyRequired);
          }
          if AddressBook.Verified(verify, sender, key, e) {
            addressBook := addressBook[key := e];
            changed := true;
          }
        }
        i := i + 1;
      }
      if changed {
        events := events + [AddressBookUpdated];
        stores := stores + 1;
      }
      failure := None;
    }

    /* ---------- proposal lifecycle ---------- */

    /** sign: the builder's state after signing with this copayer's keys is
      `after`; this copayer is recorded, and the proposal re-broadcast and
      stored, only when the signature count grew. */
    method Sign(ntxid: Ntxid, after: Proposals.Signing, now: int) returns (signed: bool, failure: Option<Failure>)
      modifies this`txps, this`sent, this`events, this`stores
      ensures var r := Proposals.SignProposal(old(txps), ntxid, MyId(ring), after, now);
        && (r.Err? ==> failure == Some(r.error) && !signed)
        && (r.Ok? ==> failure.None? && signed == r.value.signed && txps == r.value.txps)
        && (signed ==> sent == old(sent) + [Send(Everyone, TxProposalOut(ntxid))] &&
                       events == old(events) + [TxProposalsUpdated] && stores == old(stores) + 1)
        && (!signed ==> txps == old(txps) && sent == old(sent) && events == old(events) && stores == old(stores))
    {
      var me := MyId(ring);
      if me.None? {
        return false, Some(NoCopayerId);
      }
      if ntxid !in txps {
        return false, Some(UnknownProposal(ntxid));
      }
      var txp := txps[ntxid];
      var before := txp.signatures;
      if after.signatures > before {
        txps := txps[ntxid := txp.(signedBy := txp.signedBy[me.value := now], signatures := after.signatures, complete := after.complete)];
        sent := sent + [Send(Everyone, TxProposalOut(ntxid))];
        stores := stores + 1;
        events := events + [TxProposalsUpdated];
        return true, None;
      }
      return false, None;
    }

    /** sendTx: `broadcast` is the id the chain returns for the raw
      transaction, `accepted` its answer when asked whether the transaction
      was already sent. */
    method SendTx(ntxid: Ntxid, broadcast: Option<TxId>, accepted: Option<TxId>, now: int)
      returns (txid: Option<TxId>, failure: Option<Failure>)
      modifies this`txps, this`sent, this`stores
      ensures var r := Proposals.SendTx(old(txps), ntxid, broadcast, accepted, now);
        && (r.Err? ==> failure == Some(r.error) && txid.None? && txps == old(txps) && sent == old(sent) && stores == old(stores))
        && (r.Ok? ==> failure.None? && txid == r.value.txid && txps == r.value.txps)
        && (r.Ok? && r.value.announce ==> sent == old(sent) + [Send(Everyone, TxProposalOut(ntxid))])
        && (r.Ok? && !r.value.announce ==> sent == old(sent))
        && (r.Ok? ==> stores == old(stores) + (if r.value.txid.Some? then 1 else 0))
    {
      if ntxid !in txps {
        return None, Some(UnknownProposal(ntxid));
      }
      if !txps[ntxid].complete {
        return None, Some(TxNotComplete);
      }
      if broadcast.Some? {
        txps := txps[ntxid := Proposals.MarkSent(txps[ntxid], broadcast.value, now)];
        sent := sent + [Send(Everyone, TxProposalOut(ntxid))];
        stores := stores + 1;
        return broadcast, None;
      }
      txps := Proposals.CheckSent(txps, ntxid, accepted, now);
      if accepted.Some? {
        stores := stores + 1;
      }
      return accepted, None;
    }

    /** createTx over createTxSync: checks, adds the proposal, announces the
      index pairs and the proposal, stores and notifies. */
    method CreateTx(toNetwork: string, hasPrivateKey: bool, comment: string, built: Proposals.Built, now: int)
      returns (ntxid: Option<Ntxid>, failure: Option<Failure>)
      requires |ring.copayerIds| > 0
      modifies this`txps, this`sent, this`events, this`stores
      ensures var r := Proposals.CreateTx(old(txps), ring, ring.copayerIds[0], hasPrivateKey, toNetwork, comment, built, now);
        && (r.Err? ==> failure == Some(r.error) && ntxid.None? && txps == old(txps) && sent == old(sent) &&
                       events == old(events) && stores == old(stores))
        && (r.Ok? ==> failure.None? && ntxid == Some(built.ntxid) && txps == r.value &&
                      sent == old(sent) + [Send(Everyone, IndexesOut(indexes)), Send(Everyone, TxProposalOut(built.ntxid))] &&
                      events == old(events) + [TxProposalsUpdated] && stores == old(stores) + 1)
    {
      var r := Proposals.CreateTx(txps, ring, ring.copayerIds[0], hasPrivateKey, toNetwork, comment, built, now);
      if r.Err? {
        return None, Some(r.error);
      }
      txps := r.value;
      sent := sent + [Send(Everyone, IndexesOut(indexes)), Send(Everyone, TxProposalOut(built.ntxid))];
      stores := stores + 1;
      events := events + [TxProposalsUpdated];
      return Some(built.ntxid), None;
    }

    /* ---------- outputs and balance ---------- */

    /** getUnspent: the reserved outputs are those of proposals with at most
      total - required rejections. */
    method GetUnspent(raw: Result<seq<Balance.Utxo>, Failure>) returns (r: Result<Balance.Unspent, Failure>)
      ensures raw.Err? ==> r == Err(raw.error)
      ensures raw.Ok? ==> r.Ok? && r.value.all == raw.value
      ensures r.Ok? ==> raw.Ok? && r.value.safe == Balance.SafeList(raw.value, Proposals.Reserved(txps, totalCopayers - requiredCopayers), spendUnconfirmed)
    {
      r := Balance.GetUnspent(raw, Proposals.Reserved(txps, totalCopayers - requiredCopayers), spendUnconfirmed);
    }

    /** getBalance over this wallet's reserved outputs. */
    method GetBalance(raw: Result<seq<Balance.Utxo>, Failure>) returns (r: Result<Balance.Balances, Failure>)
      ensures raw.Err? ==> r == Err(raw.error)
      ensures raw.Ok? ==> r.Ok?
      ensures r.Ok? ==> raw.Ok? && r.value.balance == Balance.Total(raw.value)
      ensures r.Ok? ==> raw.Ok? && r.value.safeBalance == Balance.Total(Balance.SafeList(raw.value, Proposals.Reserved(txps, totalCopayers - requiredCopayers), spendUnconfirmed))
      ensures r.Ok? ==> r.value.safeBalance <= r.value.balance
    {
      var reserved := Proposals.Reserved(txps, totalCopayers - requiredCopayers);
      r := Balance.GetBalance(raw, reserved, spendUnconfirmed);
      if raw.Ok? {
        Balance.SafeBalanceAtMostBalance(raw.value, reserved, spendUnconfirmed);
      }
    }

    /* ---------- index discovery ---------- */

    /** updateIndex on the i-th pair, with both scans committed together. */
    method UpdateIndex(i: nat, chain: Discovery.Chain) returns (failure: Option<Failure>)
      requires i < |indexes|
      modifies this`indexes
      ensures var idx := old(indexes)[i];
        var a := Discovery.Advance(idx, chain(idx.cosigner, true), chain(idx.cosigner, false));
        && (failure.None? <==> a.Ok?)
        && (a.Err? ==> failure == Some(a.error))
        && indexes == old(indexes)[i := Discovery.Updated(idx, chain(idx.cosigner, true), chain(idx.cosigner, false))]
    {
      var idx := indexes[i];
      var c := Discovery.IndexDiscovery(idx.changeIndex, Discovery.ScanWindow, chain(idx.cosigner, true));
      if c.Err? {
        return Some(c.error);
      }
      var rc := Discovery.IndexDiscovery(idx.receiveIndex, Discovery.ScanWindow, chain(idx.cosigner, false));
      if rc.Err? {
        return Some(rc.error);
      }
      indexes := indexes[i := idx.(changeIndex := Discovery.Bump(idx.changeIndex, c.value.lastActive),
                                   receiveIndex := Discovery.Bump(idx.receiveIndex, rc.value.lastActive))];
      failure := None;
    }

    /** The parallel tasks of updateIndexes, one per pair, run in turn: every
        pair becomes its own update, and the first failure is returned. */
    method UpdateEach(chain: Discovery.Chain) returns (err: Option<Failure>)
      modifies this`indexes
      ensures indexes == Discovery.AdvanceAll(old(indexes), chain)
      ensures err == Discovery.FirstFailure(old(indexes), chain)
    {
      ghost var saved := indexes;
      err := None;
      var i := 0;
      while i < |indexes|
        invariant 0 <= i <= |indexes| == |saved|
        invariant forall j :: 0 <= j < i ==>
          indexes[j] == Discovery.Updated(saved[j], chain(saved[j].cosigner, true), chain(saved[j].cosigner, false))
        invariant forall j :: i <= j < |indexes| ==> indexes[j] == saved[j]
        invariant err == Discovery.FirstFailure(saved[..i], chain)
      {
        Discovery.FirstFailureAppend(saved[..i], saved[i], chain);
        assert saved[..i + 1] == saved[..i] + [saved[i]];
        var e := UpdateIndex(i, chain);
        if err.None? {
          err := e;
        }
        i := i + 1;
      }
      assert saved[..|saved|] == saved;
    }

    /** updateIndexes: refreshes every pair, keeping the refresh only when
        every pair succeeded, then calls back once and, on success, notifies
        and stores. */
    method UpdateIndexes(chain: Discovery.Chain) returns (callbacks: seq<Option<Failure>>)
      modifies this`indexes, this`events, this`stores
      ensures indexes == Discovery.Refreshed(old(indexes), chain)
      ensures var c := Discovery.Complete(Discovery.FirstFailure(old(indexes), chain));
        && callbacks == c.callbacks
        && (c.notified ==> events == old(events) + [PublicKeyRingUpdated] && stores == old(stores) + 1)
        && (!c.notified ==> events == old(events) && stores == old(stores))
    {
      var saved := indexes;
      var err := UpdateEach(chain);
      if err.Some? {
        // roll back: no partial advance is kept
        indexes := saved;
      }
      var completion := Discovery.Complete(err);
      if completion.notified {
        events := events + [PublicKeyRingUpdated];
        stores := stores + 1;
      }
      callbacks := completion.callbacks;
    }

    /* ---------- connection ---------- */

    /** seedCopayer. */
    method SeedCopayer(pubKey: CopayerId)
      modifies this`seededCopayerId
      ensures seededCopayerId == Some(pubKey)
    {
      seededCopayerId := Some(pubKey);
    }

    /** connectToAll. */
    method ConnectToAll()
      modifies this`sent, this`seededCopayerId
      ensures sent == old(sent) + Connection.ConnectStep(ring.copayerIds, old(seededCopayerId)).0
      ensures seededCopayerId == Connection.ConnectStep(ring.copayerIds, old(seededCopayerId)).1
    {
      sent := sent + [ConnectTo(ring.copayerIds)];
      if seededCopayerId.Some? && seededCopayerId.value != "" {
        sent := sent + [Send(To(seededCopayerId.value), WalletReadyOut)];
        seededCopayerId := None;
      }
    }

    /** scheduleConnect: one timer tick, with the network online or not. */
    method ScheduleConnect(online: bool)
      modifies this`currentDelay, this`sent, this`seededCopayerId
      ensures currentDelay == Connection.Tick(old(currentDelay), reconnectDelay, online)
      ensures online ==> sent == old(sent) + Connection.ConnectStep(ring.copayerIds, old(seededCopayerId)).0 &&
                         seededCopayerId == Connection.ConnectStep(ring.copayerIds, old(seededCopayerId)).1
      ensures !online ==> sent == old(sent) && seededCopayerId == old(seededCopayerId)
    {
      if online {
        ConnectToAll();
        currentDelay := Connection.NextDelay(currentDelay, reconnectDelay);
      }
    }

    /** _handleDisconnect: unsets the delay and reports the peer. */
    method HandleDisconnect(peer: PeerId)
      modifies this`currentDelay, this`events
      ensures currentDelay == 0
      ensures events == old(events) + [Disconnected(peer)]
    {
      currentDelay := 0;
      events := events + [Disconnected(peer)];
    }

    /** getRegisteredPeerIds: rebuilds the cache only when its length differs
      from the number of registered copayers. */
    method GetRegisteredPeerIds(peerOf: CopayerId -> PeerId, nickOf: CopayerId -> string)
      returns (r: seq<Connection.PeerEntry>)
      modifies this`registeredPeerIds
      ensures r == registeredPeerIds && |r| == |ring.copayerIds|
      ensures |old(registeredPeerIds)| == |ring.copayerIds| ==> r == old(registeredPeerIds)
      ensures |old(registeredPeerIds)| != |ring.copayerIds| ==> forall i :: 0 <= i < |r| ==>
        r[i] == Connection.PeerEntry(peerOf(ring.copayerIds[i]), ring.copayerIds[i], nickOf(ring.copayerIds[i]), i)
    {
      if |registeredPeerIds| != |ring.copayerIds| {
        registeredPeerIds := Connection.BuildPeerCache(ring.copayerIds, peerOf, nickOf);
      }
      r := registeredPeerIds;
    }

    /* ---------- address-book commands ---------- */

    /** setAddressBook: adds this copayer's signed entry, announces the book
      and stores. */
    method SetAddressBook(key: Address, entryName: string, now: int, sign: SignedFields -> string)
      returns (failure: Option<Failure>)
      requires |ring.copayerIds| > 0
      modifies this`addressBook, this`sent, this`stores
      ensures var r := AddressBook.SetEntry(old(addressBook), key, entryName, ring.copayerIds[0], now, sign);
        && (r.Err? ==> failure == Some(r.error) && addressBook == old(addressBook) && sent == old(sent) && stores == old(stores))
        && (r.Ok? ==> failure.None? && addressBook == r.value &&
                      sent == old(sent) + [Send(Everyone, AddressBookOut(r.value))] && stores == old(stores) + 1)
    {
      var r := AddressBook.SetEntry(addressBook, key, entryName, ring.copayerIds[0], now, sign);
      if r.Err? {
        return Some(r.error);
      }
      addressBook := r.value;
      sent := sent + [Send(Everyone, AddressBookOut(addressBook))];
      stores := stores + 1;
      failure := None;
    }

    /** toggleAddressBookEntry. */
    method ToggleAddressBookEntry(key: Address) returns (failure: Option<Failure>)
      modifies this`addressBook, this`stores
      ensures var r := AddressBook.Toggle(old(addressBook), key);
        && (r.Err? ==> failure == Some(r.error) && addressBook == old(addressBook) && stores == old(stores))
        && (r.Ok? ==> failure.None? && addressBook == r.value && stores == old(stores) + 1)
    {
      if key == "" {
        return Some(KeyRequired);
      }
      if key !in addressBook {
        return Some(UnknownEntry(key));
      }
      addressBook := addressBook[key := addressBook[key].(hidden := !addressBook[key].hidden)];
      stores := stores + 1;
      failure := None;
    }
  }
}
