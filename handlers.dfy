/** The inbound side of the wallet as a function of its state: the wallet-id
    filter and routing of _handleData, and the effect of every handler it
    routes to, over the key ring, index pairs, proposals, address book and
    the records of what the wallet sends, emits and stores. */
module Handlers {
  import opened Types
  import AddressBook
  import Proposals

  /** The part of the wallet the inbound handlers read and change. */
  datatype WalletState = WalletState(
    ring: KeyRing,
    indexes: seq<IndexPair>,
    txps: map<Ntxid, Proposal>,
    book: map<Address, Entry>,
    sent: seq<NetCall>,
    events: seq<Event>,
    stores: nat)

  /** What the key ring's merge did with a received ring. */
  datatype MergedRing = MergedRing(ring: KeyRing, hasChanged: bool)

  /** What the key ring's index merge did with received index pairs. */
  datatype MergedIndexes = MergedIndexes(indexes: seq<IndexPair>, hasChanged: bool)

  /** The answers of the collaborators a message reaches: the key ring's merges
      (None when the ring merge throws), the proposal set's merge (None when
      it throws), the key ring's map from public keys to copayers, the chain's
      answer on whether a complete transaction was already accepted, the
      proposal ids in the order the proposal set lists them, the signature
      check, and the clock. */
  datatype Peers = Peers(
    ringMerge: Option<MergedRing>,
    indexMerge: MergedIndexes,
    txMerge: Option<Proposals.TxMerge>,
    owners: map<PubKey, CopayerId>,
    accepted: Option<TxId>,
    listed: seq<Ntxid>,
    verify: Verifier,
    now: int)

  /** `listed` enumerates the proposal ids `keys`, each exactly once, as
      the proposal set's id listing does. */
  predicate Enumerates(listed: seq<Ntxid>, keys: set<Ntxid>) {
    && (forall i, j :: 0 <= i < j < |listed| ==> listed[i] != listed[j])
    && (forall t :: t in listed ==> t in keys)
    && (forall t :: t in keys ==> t in listed)
  }

  /** A handler's effect: the new state, and the failure it throws, if any. */
  datatype Outcome = Outcome(state: WalletState, failure: Option<Failure>)

  /** This copayer's id: the key ring's first copayer, when there is one. */
  function MyId(ring: KeyRing): (r: Option<CopayerId>)
    ensures r.Some? <==> |ring.copayerIds| > 0
    ensures r.Some? ==> r.value == ring.copayerIds[0]
  {
    if |ring.copayerIds| > 0 then Some(ring.copayerIds[0]) else None
  }

  /** _handlePublicKeyRing: a throwing merge raises a connection error and
      nothing else; a merge that changed the ring re-broadcasts it when ours
      was incomplete, locks incoming connections to the ring's copayers when
      it is now complete, notifies and stores. */
  function OnPublicKeyRing(s: WalletState, m: Option<MergedRing>): WalletState {
    match m
    case None => s.(events := s.events + [ConnectionError])
    case Some(mr) =>
      if !mr.hasChanged then s.(ring := mr.ring)
      else
        var reply := if !s.ring.complete then [Send(Everyone, PublicKeyRingOut(mr.ring))] else [];
        var lock := if mr.ring.complete then [LockIncoming(mr.ring.copayerIds)] else [];
        s.(ring := mr.ring, sent := s.sent + reply + lock,
           events := s.events + [PublicKeyRingUpdated], stores := s.stores + 1)
  }

  /** The ring is re-broadcast exactly when the merge changed it and ours was
      incomplete; incoming connections are locked exactly when it changed and
      is now complete; the wallet notifies and stores exactly when it changed. */
  lemma RingReplyAndLock(s: WalletState, mr: MergedRing)
    ensures var r := OnPublicKeyRing(s, Some(mr));
      && r.ring == mr.ring
      && (Send(Everyone, PublicKeyRingOut(mr.ring)) in r.sent[|s.sent|..] <==> mr.hasChanged && !s.ring.complete)
      && (LockIncoming(mr.ring.copayerIds) in r.sent[|s.sent|..] <==> mr.hasChanged && mr.ring.complete)
      && (r.stores == s.stores + 1 <==> mr.hasChanged)
      && (r.events == s.events + [PublicKeyRingUpdated] <==> mr.hasChanged)
      && (!mr.hasChanged ==> r.sent == s.sent && r.events == s.events && r.stores == s.stores)
  {
    var r := OnPublicKeyRing(s, Some(mr));
    if mr.hasChanged {
      var reply := if !s.ring.complete then [Send(Everyone, PublicKeyRingOut(mr.ring))] else [];
      var lock := if mr.ring.complete then [LockIncoming(mr.ring.copayerIds)] else [];
      assert r.sent[|s.sent|..] == reply + lock;
    } else {
      assert r.sent[|s.sent|..] == [];
    }
  }

  /** _handleIndexes: the merged pairs are kept; a change notifies and stores. */
  function OnIndexes(s: WalletState, m: MergedIndexes): (r: WalletState)
    ensures r.ring == s.ring && r.txps == s.txps && r.book == s.book && r.sent == s.sent
    ensures r.indexes == m.indexes
    ensures m.hasChanged ==> r.events == s.events + [PublicKeyRingUpdated] && r.stores == s.stores + 1
    ensures !m.hasChanged ==> r.events == s.events && r.stores == s.stores
  {
    if m.hasChanged then s.(indexes := m.indexes, events := s.events + [PublicKeyRingUpdated], stores := s.stores + 1)
    else s.(indexes := m.indexes)
  }

  /** _handleReject: a refused rejection throws and changes nothing; an
      accepted one is stored and reported. */
  function OnReject(s: WalletState, sender: CopayerId, ntxid: Ntxid, now: int): Outcome {
    match Proposals.ApplyReject(s.txps, ntxid, sender, now)
    case Err(f) => Outcome(s, Some(f))
    case Ok(t) =>
      Outcome(s.(txps := t, stores := s.stores + 1,
                 events := s.events + [TxProposalsUpdated, ProposalEvent(RejectedTxp(sender, ntxid))]), None)
  }

  /** _handleSeen: as _handleReject, for acknowledgements. */
  function OnSeen(s: WalletState, sender: CopayerId, ntxid: Ntxid, now: int): Outcome {
    match Proposals.ApplySeen(s.txps, ntxid, sender, now)
    case Err(f) => Outcome(s, Some(f))
    case Ok(t) =>
      Outcome(s.(txps := t, stores := s.stores + 1,
                 events := s.events + [TxProposalsUpdated, ProposalEvent(SeenTxp(sender, ntxid))]), None)
  }

  /** _handleTxProposal, with the signer check enforced. */
  function OnTxProposal(s: WalletState, sender: CopayerId, p: Peers): WalletState {
    var r := Proposals.React(s.txps, p.owners, sender, p.txMerge, p.accepted, p.now);
    s.(txps := r.txps, sent := s.sent + r.calls, events := s.events + r.events, stores := s.stores + r.stores)
  }

  /** _handleAddressBook: the write-once merge; an empty key stops it with a
      throw, keeping what was added before; a merge that added something
      notifies and stores. */
  function OnAddressBook(s: WalletState, sender: CopayerId, entries: seq<(Address, Entry)>, verify: Verifier): Outcome {
    var m := AddressBook.MergeBook(s.book, entries, sender, verify);
    if m.failed then Outcome(s.(book := m.book), Some(KeyRequired))
    else if m.changed then Outcome(s.(book := m.book, events := s.events + [AddressBookUpdated], stores := s.stores + 1), None)
    else Outcome(s, None)
  }

  /** The wallet notifies and stores exactly when the merge added an entry
      and no empty key stopped it; a stopped merge keeps the entries added
      before the empty key and throws. */
  lemma AddressBookNotifiesOnCleanChange(s: WalletState, sender: CopayerId, entries: seq<(Address, Entry)>, verify: Verifier)
    ensures var o := OnAddressBook(s, sender, entries, verify);
      var m := AddressBook.MergeBook(s.book, entries, sender, verify);
      && o.state == s.(book := m.book, events := o.state.events, stores := o.state.stores)
      && (o.state.events == s.events + [AddressBookUpdated] && o.state.stores == s.stores + 1 <==> m.book != s.book && !m.failed)
      && (o.state.events == s.events && o.state.stores == s.stores <==> m.book == s.book || m.failed)
      && (o.failure.Some? <==> m.failed)
      && (o.failure.Some? ==> o.failure == Some(KeyRequired))
  {
    AddressBook.MergeChangedExactlyWhenAdded(s.book, entries, sender, verify);
  }

  /** The proposals sent, one message each, to a copayer that reports ready. */
  function ProposalSends(listed: seq<Ntxid>, to: Recipients): (r: seq<NetCall>)
    ensures |r| == |listed|
    ensures forall i :: 0 <= i < |r| ==> r[i] == Send(to, TxProposalOut(listed[i]))
  {
    if listed == [] then [] else [Send(to, TxProposalOut(listed[0]))] + ProposalSends(listed[1..], to)
  }

  /** Listing one more id sends one more proposal message, at the end. */
  lemma {:induction false} ProposalSendsAppend(listed: seq<Ntxid>, id: Ntxid, to: Recipients)
    ensures ProposalSends(listed + [id], to) == ProposalSends(listed, to) + [Send(to, TxProposalOut(id))]
  {
    if listed == [] {
      assert [] + [id] == [id];
      assert [id][1..] == [];
    } else {
      assert (listed + [id])[1..] == listed[1..] + [id];
      ProposalSendsAppend(listed[1..], id, to);
    }
  }

  /** _handleData: drops a message that claims another wallet (unless it is
      a walletId handshake) with a badMessage event, then routes by type. */
  function Dispatch(s: WalletState, id: string, sender: CopayerId, msg: Message, p: Peers): Outcome
    requires Enumerates(p.listed, s.txps.Keys)
  {
    if !msg.body.WalletIdMsg? && msg.walletId != id then
      Outcome(s.(events := s.events + [BadMessage(sender)]), None)
    else
      match msg.body
      case WalletIdMsg => Outcome(s.(sent := s.sent + [Send(To(sender), WalletReadyOut)]), None)
      case WalletReadyMsg =>
        var replies := [Send(To(sender), PublicKeyRingOut(s.ring)), Send(To(sender), AddressBookOut(s.book))];
        Outcome(s.(sent := s.sent + replies + ProposalSends(p.listed, To(sender))), None)
      case PublicKeyRingMsg => Outcome(OnPublicKeyRing(s, p.ringMerge), None)
      case RejectMsg(ntxid) => OnReject(s, sender, ntxid, p.now)
      case SeenMsg(ntxid) => OnSeen(s, sender, ntxid, p.now)
      case TxProposalMsg => Outcome(OnTxProposal(s, sender, p), None)
      case IndexesMsg => Outcome(OnIndexes(s, p.indexMerge), None)
      case AddressBookMsg(entries) => OnAddressBook(s, sender, entries, p.verify)
      case UnknownMsg => Outcome(s, None)
  }

  /** A message for another wallet runs no handler: the only effect is a
      badMessage event naming the sender. A message of unknown type changes
      nothing. */
  lemma ForeignMessagesRunNoHandler(s: WalletState, id: string, sender: CopayerId, msg: Message, p: Peers)
    requires Enumerates(p.listed, s.txps.Keys)
    ensures !msg.body.WalletIdMsg? && msg.walletId != id ==>
      Dispatch(s, id, sender, msg, p) == Outcome(s.(events := s.events + [BadMessage(sender)]), None)
    ensures msg.body.UnknownMsg? ==>
      Dispatch(s, id, sender, msg, p).state == if msg.walletId != id then s.(events := s.events + [BadMessage(sender)]) else s
  {
  }

  /** Handling a message only appends to what was sent and emitted, and never
      lowers the store count. */
  lemma DispatchOnlyAppends(s: WalletState, id: string, sender: CopayerId, msg: Message, p: Peers)
    requires Enumerates(p.listed, s.txps.Keys)
    ensures var r := Dispatch(s, id, sender, msg, p).state;
      && |s.sent| <= |r.sent| && r.sent[..|s.sent|] == s.sent
      && |s.events| <= |r.events| && r.events[..|s.events|] == s.events
      && s.stores <= r.stores
  {
  }

  /** Each kind of message changes only its own part of the wallet: the ring
      only on a key ring message, the index pairs only on an indexes message,
      the proposals only on a proposal, reject or seen message, and the
      address book only on an address book message. */
  lemma EachMessageTouchesItsOwnState(s: WalletState, id: string, sender: CopayerId, msg: Message, p: Peers)
    requires Enumerates(p.listed, s.txps.Keys)
    ensures var r := Dispatch(s, id, sender, msg, p).state;
      && (r.ring != s.ring ==> msg.body.PublicKeyRingMsg?)
      && (r.indexes != s.indexes ==> msg.body.IndexesMsg?)
      && (r.txps != s.txps ==> msg.body.TxProposalMsg? || msg.body.RejectMsg? || msg.body.SeenMsg?)
      && (r.book != s.book ==> msg.body.AddressBookMsg?)
  {
  }

  /** A handler that throws leaves the wallet as it was, except for the
      address-book entries merged before an empty key stopped the merge. */
  lemma FailuresChangeNothing(s: WalletState, id: string, sender: CopayerId, msg: Message, p: Peers)
    requires Enumerates(p.listed, s.txps.Keys)
    ensures var o := Dispatch(s, id, sender, msg, p);
      o.failure.Some? ==> o.state == s.(book := o.state.book)
    ensures var o := Dispatch(s, id, sender, msg, p);
      o.failure.Some? && !msg.body.AddressBookMsg? ==> o.state == s
  {
  }

  /** A rejection from a copayer that already signed the proposal is refused
      and leaves the wallet as it was; an accepted one changes only that
      proposal's rejections, adding the sender. */
  lemma RejectFromSignerRefused(s: WalletState, id: string, sender: CopayerId, ntxid: Ntxid, p: Peers)
    requires ntxid in s.txps && Enumerates(p.listed, s.txps.Keys)
    ensures var o := Dispatch(s, id, sender, Message(id, RejectMsg(ntxid)), p);
      && (ntxid != "" && sender in s.txps[ntxid].signedBy ==> o == Outcome(s, Some(RejectAfterSign(sender))))
      && (o.failure.None? ==>
            && o.state.txps.Keys == s.txps.Keys
            && (forall t :: t in s.txps && t != ntxid ==> o.state.txps[t] == s.txps[t])
            && o.state.txps[ntxid].rejectedBy.Keys == s.txps[ntxid].rejectedBy.Keys + {sender}
            && o.state.txps[ntxid] == s.txps[ntxid].(rejectedBy := o.state.txps[ntxid].rejectedBy))
  {
  }

  /** Sending an enumeration of the known proposals sends every known
      proposal exactly once, and nothing else. */
  lemma EnumeratedSendsEachOnce(listed: seq<Ntxid>, keys: set<Ntxid>, to: Recipients)
    requires Enumerates(listed, keys)
    ensures var sends := ProposalSends(listed, to);
      && (forall t :: t in keys ==> Send(to, TxProposalOut(t)) in sends)
      && (forall i :: 0 <= i < |sends| ==> sends[i].Send? && sends[i].what.TxProposalOut? && sends[i].what.ntxid in keys)
      && (forall i, j :: 0 <= i < j < |sends| ==> sends[i] != sends[j])
  {
    var sends := ProposalSends(listed, to);
    forall t | t in keys
      ensures Send(to, TxProposalOut(t)) in sends
    {
      var k :| 0 <= k < |listed| && listed[k] == t;
      assert sends[k] == Send(to, TxProposalOut(t));
    }
  }

  /** A copayer reporting ready gets the key ring, then the address book,
      then the proposals in the order the proposal set lists them. */
  lemma WalletReadyReply(s: WalletState, id: string, sender: CopayerId, p: Peers)
    requires Enumerates(p.listed, s.txps.Keys)
    ensures Dispatch(s, id, sender, Message(id, WalletReadyMsg), p).state ==
      s.(sent := s.sent + [Send(To(sender), PublicKeyRingOut(s.ring)), Send(To(sender), AddressBookOut(s.book))]
                         + ProposalSends(p.listed, To(sender)))
  {
  }
}
