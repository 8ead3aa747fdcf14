/** Transaction proposals as the wallet drives them: recovering the signer set
    of a merged proposal, classifying a merge for the application, the
    reaction to an inbound proposal, signing, rejecting, acknowledging,
    broadcasting, listing and creating proposals. */
module Proposals {
  import opened Types

  /* ---------- signer sets (_getKeyMap) ---------- */

  /** The copayers owning the keys that signed the first input, as the key
      ring maps keys to copayers; every input must carry that same signer set,
      and every one of its keys must belong to a known copayer. */
  function KeyMapOf(p: Proposal, owners: map<PubKey, CopayerId>): (r: Result<map<PubKey, CopayerId>, Failure>)
    ensures r.Ok? <==>
      && |p.inputSigners| > 0
      && p.inputSigners[0] <= owners.Keys
      && (forall i :: 0 <= i < |p.inputSigners| ==> p.inputSigners[i] == p.inputSigners[0])
    ensures r.Ok? ==> r.value.Keys == p.inputSigners[0] && forall k :: k in r.value ==> r.value[k] == owners[k]
  {
    if |p.inputSigners| == 0 then Err(NoInputs)
    else
      var first := p.inputSigners[0];
      var keyMap := map k | k in first && k in owners :: owners[k];
      if keyMap.Keys != first then Err(UnknownSigners)
      else if exists i :: 0 <= i < |p.inputSigners| && p.inputSigners[i] != first then Err(DifferentSigners)
      else Ok(keyMap)
  }

  /** _getKeyMap: compares every input's signer set with the first one's. */
  method GetKeyMap(p: Proposal, owners: map<PubKey, CopayerId>) returns (r: Result<map<PubKey, CopayerId>, Failure>)
    ensures r == KeyMapOf(p, owners)
  {
    if |p.inputSigners| == 0 {
      return Err(NoInputs);
    }
    var first := p.inputSigners[0];
    var keyMap := map k | k in first && k in owners :: owners[k];
    if keyMap.Keys != first {
      return Err(UnknownSigners);
    }
    var i := 0;
    while i < |p.inputSigners|
      invariant 0 <= i <= |p.inputSigners|
      invariant forall j :: 0 <= j < i ==> p.inputSigners[j] == first
    {
      if p.inputSigners[i] != first {
        return Err(DifferentSigners);
      }
      i := i + 1;
    }
    r := Ok(keyMap);
  }

  /** The copayers a key map names. */
  function Signers(keyMap: map<PubKey, CopayerId>): set<CopayerId> {
    set k | k in keyMap :: keyMap[k]
  }

  /** Records `ids` in a signed-by map at time `now`, keeping earlier stamps. */
  function Stamp(m: map<CopayerId, int>, ids: set<CopayerId>, now: int): (r: map<CopayerId, int>)
    ensures r.Keys == m.Keys + ids
    ensures forall k :: k in m ==> r[k] == m[k]
  {
    map k | k in m.Keys + ids :: if k in m then m[k] else now
  }

  /* ---------- classifying a merge (_processProposalEvents) ---------- */

  /** What a proposal merge reports: whether the proposal is new, and the
      copayers whose signatures it newly brought. */
  datatype MergeReport = MergeReport(isNew: bool, newSigners: set<CopayerId>)

  /** The event for the application: corrupt when the merge failed, new when
      the proposal was unknown, signed when it brought new signers, none
      otherwise. */
  function ProposalEventFor(sender: CopayerId, m: Option<MergeReport>): (r: Option<TxpEvent>)
    ensures m.None? <==> r == Some(CorruptTxp(sender))
    ensures r == Some(NewTxp(sender)) <==> m.Some? && m.value.isNew
    ensures r.Some? && r.value.SignedTxp? <==> m.Some? && !m.value.isNew && m.value.newSigners != {}
    ensures r.Some? && r.value.SignedTxp? ==> r.value.cids == m.value.newSigners
    ensures r.None? <==> m.Some? && !m.value.isNew && m.value.newSigners == {}
  {
    match m
    case None => Some(CorruptTxp(sender))
    case Some(report) =>
      if report.isNew then Some(NewTxp(sender))
      else if report.newSigners != {} then Some(SignedTxp(report.newSigners))
      else None
  }

  /* ---------- proposal states ---------- */

  /** The proposal can no longer gather the required signatures: fewer than
      `required` copayers have not rejected it. */
  predicate FinallyRejected(p: Proposal, total: nat, required: nat) {
    total - |p.rejectedBy| < required
  }

  /** getTxProposals hides a read-only proposal that is neither finally
      rejected nor sent. */
  predicate Listed(p: Proposal, total: nat, required: nat) {
    !(p.readonly && !FinallyRejected(p, total, required) && p.sentTs.None?)
  }

  /** Outputs that proposals still in play spend, keyed by transaction and
      output index: those of every proposal with at most maxRejectCount
      rejections. */
  function Reserved(txps: map<Ntxid, Proposal>, maxRejectCount: int): set<Outpoint> {
    set id, o | id in txps && |txps[id].rejectedBy| <= maxRejectCount && o in txps[id].inputs :: o
  }

  /** With maxRejectCount = total - required, the reserved outputs are exactly
      those of proposals that are not finally rejected. */
  lemma ReservedExactlyViable(txps: map<Ntxid, Proposal>, total: nat, required: nat, o: Outpoint)
    ensures o in Reserved(txps, total - required) <==>
      exists id :: id in txps && !FinallyRejected(txps[id], total, required) && o in txps[id].inputs
  {
  }

  /** A proposal's entry as getTxProposals lists it. */
  datatype TxpView = TxpView(ntxid: Ntxid, txp: Proposal, signedByUs: bool, rejectedByUs: bool, finallyRejected: bool)

  function ViewOf(id: Ntxid, p: Proposal, me: Option<CopayerId>, total: nat, required: nat): TxpView {
    TxpView(id, p,
            me.Some? && me.value in p.signedBy,
            me.Some? && me.value in p.rejectedBy,
            FinallyRejected(p, total, required))
  }

  /** getTxProposals: one view per listed proposal, none twice, no other. */
  method GetTxProposals(txps: map<Ntxid, Proposal>, me: Option<CopayerId>, total: nat, required: nat)
    returns (r: seq<TxpView>)
    ensures forall i :: 0 <= i < |r| ==>
      r[i].ntxid in txps && Listed(txps[r[i].ntxid], total, required) && r[i] == ViewOf(r[i].ntxid, txps[r[i].ntxid], me, total, required)
    ensures forall id :: id in txps && Listed(txps[id], total, required) ==> exists i :: 0 <= i < |r| && r[i].ntxid == id
    ensures forall i, j :: 0 <= i < j < |r| ==> r[i].ntxid != r[j].ntxid
  {
    r := [];
    var rest := txps.Keys;
    while rest != {}
      invariant rest <= txps.Keys
      invariant forall i :: 0 <= i < |r| ==>
        r[i].ntxid in txps && r[i].ntxid !in rest && Listed(txps[r[i].ntxid], total, required) &&
        r[i] == ViewOf(r[i].ntxid, txps[r[i].ntxid], me, total, required)
      invariant forall id :: id in txps && id !in rest && Listed(txps[id], total, required) ==>
        exists i :: 0 <= i < |r| && r[i].ntxid == id
      invariant forall i, j :: 0 <= i < j < |r| ==> r[i].ntxid != r[j].ntxid
      decreases rest
    {
      var id :| id in rest;
      var view := ViewOf(id, txps[id], me, total, required);
      ghost var before := r;
      if !(txps[id].readonly && !view.finallyRejected && txps[id].sentTs.None?) {
        r := r + [view];
        assert r[|r| - 1].ntxid == id;
      }
      assert forall i :: 0 <= i < |before| ==> r[i] == before[i];
      rest := rest - {id};
    }
  }

  /* ---------- rejecting and acknowledging (_handleReject, _handleSeen) ---------- */

  /** _handleReject: the sender's rejection is recorded on a known proposal it
      has not signed; nothing else changes. */
  function ApplyReject(txps: map<Ntxid, Proposal>, ntxid: Ntxid, sender: CopayerId, now: int): (r: Result<map<Ntxid, Proposal>, Failure>)
    ensures r.Err? <==> ntxid == "" || ntxid !in txps || sender in txps[ntxid].signedBy
    ensures r.Ok? ==>
      && r.value.Keys == txps.Keys
      && (forall id :: id in txps && id != ntxid ==> r.value[id] == txps[id])
      && r.value[ntxid].rejectedBy.Keys == txps[ntxid].rejectedBy.Keys + {sender}
      && r.value[ntxid] == txps[ntxid].(rejectedBy := r.value[ntxid].rejectedBy)
  {
    if ntxid == "" then Err(MissingNtxid)
    else if ntxid !in txps then Err(UnknownProposal(ntxid))
    else if sender in txps[ntxid].signedBy then Err(RejectAfterSign(sender))
    else Ok(txps[ntxid := txps[ntxid].(rejectedBy := txps[ntxid].rejectedBy[sender := now])])
  }

  /** A rejection never brings a finally rejected proposal back. */
  lemma RejectKeepsFinallyRejected(txps: map<Ntxid, Proposal>, ntxid: Ntxid, sender: CopayerId, now: int, total: nat, required: nat)
    requires ApplyReject(txps, ntxid, sender, now).Ok?
    requires FinallyRejected(txps[ntxid], total, required)
    ensures FinallyRejected(ApplyReject(txps, ntxid, sender, now).value[ntxid], total, required)
  {
    var before := txps[ntxid].rejectedBy;
    var after := ApplyReject(txps, ntxid, sender, now).value[ntxid].rejectedBy;
    assert before.Keys <= after.Keys;
    assert |before.Keys| <= |after.Keys| by {
      SubsetCardinality(before.Keys, after.Keys);
    }
    assert |before| == |before.Keys| && |after| == |after.Keys|;
  }

  /** _handleSeen: the sender's acknowledgement is recorded on a known
      proposal. The source dereferences the proposal without checking it
      exists; the resulting TypeError happens before any change. */
  function ApplySeen(txps: map<Ntxid, Proposal>, ntxid: Ntxid, sender: CopayerId, now: int): (r: Result<map<Ntxid, Proposal>, Failure>)
    ensures r.Err? <==> ntxid == "" || ntxid !in txps
    ensures r.Ok? ==>
      && r.value.Keys == txps.Keys
      && (forall id :: id in txps && id != ntxid ==> r.value[id] == txps[id])
      && r.value[ntxid].seenBy.Keys == txps[ntxid].seenBy.Keys + {sender}
      && r.value[ntxid] == txps[ntxid].(seenBy := r.value[ntxid].seenBy)
  {
    if ntxid == "" then Err(MissingNtxid)
    else if ntxid !in txps then Err(UnknownProposal(ntxid))
    else Ok(txps[ntxid := txps[ntxid].(seenBy := txps[ntxid].seenBy[sender := now])])
  }

  /** Acknowledgements are bookkeeping only: they change neither the
      signatures, the completeness, the rejections nor the sent state. */
  lemma SeenLeavesFinalityAlone(txps: map<Ntxid, Proposal>, ntxid: Ntxid, sender: CopayerId, now: int, total: nat, required: nat)
    requires ApplySeen(txps, ntxid, sender, now).Ok?
    ensures var p := ApplySeen(txps, ntxid, sender, now).value[ntxid];
      && p.signatures == txps[ntxid].signatures && p.complete == txps[ntxid].complete
      && p.signedBy == txps[ntxid].signedBy && p.sentTxid == txps[ntxid].sentTxid
      && (FinallyRejected(p, total, required) <==> FinallyRejected(txps[ntxid], total, required))
  {
  }

  /* ---------- signing (sign) ---------- */

  /** What the transaction builder holds after signing with this copayer's
      keys for the proposal's paths. */
  datatype Signing = Signing(signatures: nat, complete: bool)

  /** Outcome of sign: the proposals afterwards and the value passed to the
      callback. */
  datatype Signed = Signed(txps: map<Ntxid, Proposal>, signed: bool)

  /** sign: this copayer is recorded as a signer exactly when signing strictly
      raised the signature count; otherwise nothing changes. */
  function SignProposal(txps: map<Ntxid, Proposal>, ntxid: Ntxid, me: Option<CopayerId>, after: Signing, now: int): (r: Result<Signed, Failure>)
    ensures r.Err? <==> me.None? || ntxid !in txps
    ensures r.Ok? ==> (r.value.signed <==> after.signatures > txps[ntxid].signatures)
    ensures r.Ok? && !r.value.signed ==> r.value.txps == txps
    ensures r.Ok? && r.value.signed ==>
      && r.value.txps.Keys == txps.Keys
      && (forall id :: id in txps && id != ntxid ==> r.value.txps[id] == txps[id])
      && var p := r.value.txps[ntxid];
         && p.signedBy.Keys == txps[ntxid].signedBy.Keys + {me.value}
         && p.signedBy[me.value] == now
         && (forall c :: c in txps[ntxid].signedBy && c != me.value ==> p.signedBy[c] == txps[ntxid].signedBy[c])
         && p.signatures == after.signatures && p.complete == after.complete
         && p == txps[ntxid].(signedBy := p.signedBy, signatures := p.signatures, complete := p.complete)
  {
    if me.None? then Err(NoCopayerId)
    else if ntxid !in txps then Err(UnknownProposal(ntxid))
    else
      var p := txps[ntxid];
      if after.signatures > p.signatures then
        Ok(Signed(txps[ntxid := p.(signedBy := p.signedBy[me.value := now], signatures := after.signatures, complete := after.complete)], true))
      else Ok(Signed(txps, false))
  }

  /** Signing the same proposal twice adds at most one signer, this copayer,
      whatever the builder reports each time. */
  lemma SignTwiceAddsAtMostOne(txps: map<Ntxid, Proposal>, ntxid: Ntxid, me: CopayerId, first: Signing, second: Signing, t1: int, t2: int)
    requires ntxid in txps
    ensures var once := SignProposal(txps, ntxid, Some(me), first, t1).value.txps;
      var twice := SignProposal(once, ntxid, Some(me), second, t2).value.txps;
      && twice[ntxid].signedBy.Keys <= txps[ntxid].signedBy.Keys + {me}
      && |twice[ntxid].signedBy| <= |txps[ntxid].signedBy| + 1
  {
    var before := txps[ntxid].signedBy.Keys;
    var once := SignProposal(txps, ntxid, Some(me), first, t1).value.txps;
    var twice := SignProposal(once, ntxid, Some(me), second, t2).value.txps;
    var after := twice[ntxid].signedBy.Keys;
    assert after <= before + {me};
    SubsetCardinality(after, before + {me});
    assert |before + {me}| <= |before| + 1 by {
      if me in before {
        assert before + {me} == before;
      }
    }
  }

  /* ---------- broadcasting (sendTx, _checkSentTx) ---------- */

  /** Records the transaction id a proposal was sent under. */
  function MarkSent(p: Proposal, txid: TxId, now: int): Proposal {
    p.(sentTxid := Some(txid), sentTs := Some(now))
  }

  /** _checkSentTx: asks the chain whether the proposal's transaction was
      already accepted, and marks it sent only if an id comes back. */
  function CheckSent(txps: map<Ntxid, Proposal>, ntxid: Ntxid, accepted: Option<TxId>, now: int): (r: map<Ntxid, Proposal>)
    requires ntxid in txps
    ensures r.Keys == txps.Keys && forall id :: id in txps && id != ntxid ==> r[id] == txps[id]
    ensures accepted.None? ==> r == txps
    ensures accepted.Some? ==> r[ntxid] == MarkSent(txps[ntxid], accepted.value, now)
  {
    match accepted
    case None => txps
    case Some(txid) => txps[ntxid := MarkSent(txps[ntxid], txid, now)]
  }

  /** Outcome of sendTx: the proposals afterwards, the id passed to the
      callback, and whether the proposal is re-broadcast to peers. */
  datatype Broadcast = Broadcast(txps: map<Ntxid, Proposal>, txid: Option<TxId>, announce: bool)

  /** sendTx: refuses an unknown or incomplete proposal; otherwise broadcasts,
      and falls back to asking whether the transaction was already accepted. */
  function SendTx(txps: map<Ntxid, Proposal>, ntxid: Ntxid, broadcast: Option<TxId>, accepted: Option<TxId>, now: int): (r: Result<Broadcast, Failure>)
    ensures r.Err? <==> ntxid !in txps || !txps[ntxid].complete
    ensures r.Ok? ==> r.value.txps.Keys == txps.Keys && forall id :: id in txps && id != ntxid ==> r.value.txps[id] == txps[id]
    ensures r.Ok? ==> (r.value.txid.Some? <==> broadcast.Some? || accepted.Some?)
    ensures r.Ok? ==> (r.value.txid == if broadcast.Some? then broadcast else accepted)
    ensures r.Ok? && r.value.txid.Some? ==> r.value.txps[ntxid] == MarkSent(txps[ntxid], r.value.txid.value, now)
    ensures r.Ok? && r.value.txid.None? ==> r.value.txps == txps
    ensures r.Ok? ==> (r.value.announce <==> broadcast.Some?)
  {
    if ntxid !in txps then Err(UnknownProposal(ntxid))
    else if !txps[ntxid].complete then Err(TxNotComplete)
    else match broadcast
      case Some(txid) => Ok(Broadcast(txps[ntxid := MarkSent(txps[ntxid], txid, now)], Some(txid), true))
      case None => Ok(Broadcast(CheckSent(txps, ntxid, accepted, now), accepted, false))
  }

  /* ---------- an inbound proposal (_handleTxProposal) ---------- */

  /** What the proposal set's merge returns for an inbound proposal. */
  datatype TxMerge = TxMerge(ntxid: Ntxid, txp: Proposal, isNew: bool, hasChanged: bool)

  /** The effect of handling one message: proposals afterwards, network calls,
      events, and how many times the wallet is stored. */
  datatype Reaction = Reaction(txps: map<Ntxid, Proposal>, calls: seq<NetCall>, events: seq<Event>, stores: nat)

  /** The steps after an accepted merge: acknowledge and re-broadcast an
      incomplete proposal or check a complete one against the chain, then
      notify and store, then report the merge. */
  function AfterMerge(txps: map<Ntxid, Proposal>, m: TxMerge, p: Proposal, sender: CopayerId, report: MergeReport,
                      accepted: Option<TxId>, now: int): Reaction
  {
    var stored := txps[m.ntxid := p];
    var ev := ProposalEventFor(sender, Some(report));
    var reported := if ev.Some? then [ProposalEvent(ev.value)] else [];
    if !m.hasChanged then
      Reaction(stored, [], [TxProposalsUpdated] + reported, 1)
    else if p.complete then
      var checked := CheckSent(stored, m.ntxid, accepted, now);
      var later := if accepted.Some? then [TxProposalsUpdated] else [];
      Reaction(checked, [Send(Everyone, SeenOut(m.ntxid))], [TxProposalsUpdated] + reported + later,
               if accepted.Some? then 2 else 1)
    else
      Reaction(stored, [Send(Everyone, SeenOut(m.ntxid)), Send(Everyone, TxProposalOut(m.ntxid))],
               [TxProposalsUpdated] + reported, 1)
  }

  /** After a merge the proposal is stored as given, nothing else changes,
      the merge is reported, peers are told it was seen exactly when it
      changed, and it is marked sent only when it changed, is complete and the
      chain reports it accepted. */
  lemma AfterMergeFacts(txps: map<Ntxid, Proposal>, m: TxMerge, p: Proposal, sender: CopayerId, report: MergeReport,
                        accepted: Option<TxId>, now: int)
    ensures var r := AfterMerge(txps, m, p, sender, report, accepted, now);
      var ev := ProposalEventFor(sender, Some(report));
      && r.txps.Keys == txps.Keys + {m.ntxid}
      && (forall id :: id in txps && id != m.ntxid ==> r.txps[id] == txps[id])
      && r.txps[m.ntxid].signedBy == p.signedBy
      && (ev.Some? ==> ProposalEvent(ev.value) in r.events)
      && (m.hasChanged <==> Send(Everyone, SeenOut(m.ntxid)) in r.calls)
      && (r.txps[m.ntxid].sentTxid != p.sentTxid ==> m.hasChanged && p.complete && accepted.Some?)
      && r.stores >= 1
  {
    var ev := ProposalEventFor(sender, Some(report));
    var reported := if ev.Some? then [ProposalEvent(ev.value)] else [];
    assert ev.Some? ==> ([TxProposalsUpdated] + reported)[1] == ProposalEvent(ev.value);
  }

  /** _handleTxProposal as written: the merge is kept whatever the signer
      check says, and the new-signer field is never set (the assignment to
      an undeclared variable throws and is swallowed). */
  function ReactAsWritten(txps: map<Ntxid, Proposal>, sender: CopayerId, merged: Option<TxMerge>, accepted: Option<TxId>, now: int): Reaction {
    match merged
    case None => Reaction(txps, [], [ProposalEvent(CorruptTxp(sender))], 0)
    case Some(m) => AfterMerge(txps, m, m.txp, sender, MergeReport(m.isNew, {}), accepted, now)
  }

  /** As written, no proposal message ever yields a "signed" event, and a
      proposal whose inputs disagree on their signers is stored anyway. */
  lemma AsWrittenNeverReportsSigners(txps: map<Ntxid, Proposal>, sender: CopayerId, merged: Option<TxMerge>,
                                     accepted: Option<TxId>, now: int, owners: map<PubKey, CopayerId>)
    ensures forall e :: e in ReactAsWritten(txps, sender, merged, accepted, now).events ==> !(e.ProposalEvent? && e.ev.SignedTxp?)
    ensures merged.Some? && KeyMapOf(merged.value.txp, owners).Err? ==>
      merged.value.ntxid in ReactAsWritten(txps, sender, merged, accepted, now).txps
  {
  }

  /** _handleTxProposal with the signer check enforced: a proposal whose
      signer set is unknown or differs between inputs is reported corrupt and
      not stored; otherwise its signers are recorded, and a known proposal
      that brought new signers is reported as signed by them. */
  function React(txps: map<Ntxid, Proposal>, owners: map<PubKey, CopayerId>, sender: CopayerId, merged: Option<TxMerge>,
                 accepted: Option<TxId>, now: int): Reaction
  {
    match merged
    case None => Reaction(txps, [], [ProposalEvent(CorruptTxp(sender))], 0)
    case Some(m) =>
      match KeyMapOf(m.txp, owners)
      case Err(_) => Reaction(txps, [], [ProposalEvent(CorruptTxp(sender))], 0)
      case Ok(keyMap) =>
        var added := Signers(keyMap) - m.txp.signedBy.Keys;
        var p := m.txp.(signedBy := Stamp(m.txp.signedBy, added, now));
        AfterMerge(txps, m, p, sender, MergeReport(m.isNew, added), accepted, now)
  }

  /** A merge that fails or yields an inconsistent signer set changes nothing
      and is reported as corrupt, to the application only. */
  lemma ReactRejectsCorrupt(txps: map<Ntxid, Proposal>, owners: map<PubKey, CopayerId>, sender: CopayerId,
                            merged: Option<TxMerge>, accepted: Option<TxId>, now: int)
    requires merged.None? || KeyMapOf(merged.value.txp, owners).Err?
    ensures React(txps, owners, sender, merged, accepted, now) == Reaction(txps, [], [ProposalEvent(CorruptTxp(sender))], 0)
  {
  }

  /** An accepted proposal is stored with every copayer that signed its
      inputs recorded as a signer; a known proposal that brought new signers
      is reported as signed by exactly those; it is acknowledged to peers when
      it changed, and marked sent only when it is complete and the chain
      reports it accepted. */
  lemma ReactRecordsSigners(txps: map<Ntxid, Proposal>, owners: map<PubKey, CopayerId>, sender: CopayerId,
                            m: TxMerge, accepted: Option<TxId>, now: int)
    requires KeyMapOf(m.txp, owners).Ok?
    ensures var r := React(txps, owners, sender, Some(m), accepted, now);
      var signers := Signers(KeyMapOf(m.txp, owners).value);
      && r.txps.Keys == txps.Keys + {m.ntxid}
      && (forall id :: id in txps && id != m.ntxid ==> r.txps[id] == txps[id])
      && r.txps[m.ntxid].signedBy.Keys == m.txp.signedBy.Keys + signers
      && (!m.isNew && signers - m.txp.signedBy.Keys != {} ==>
            ProposalEvent(SignedTxp(signers - m.txp.signedBy.Keys)) in r.events)
      && (m.hasChanged <==> Send(Everyone, SeenOut(m.ntxid)) in r.calls)
      && (r.txps[m.ntxid].sentTxid != m.txp.sentTxid ==> m.hasChanged && m.txp.complete && accepted.Some?)
      && r.stores >= 1
  {
    var keyMap := KeyMapOf(m.txp, owners).value;
    var added := Signers(keyMap) - m.txp.signedBy.Keys;
    var p := m.txp.(signedBy := Stamp(m.txp.signedBy, added, now));
    AfterMergeFacts(txps, m, p, sender, MergeReport(m.isNew, added), accepted, now);
    assert p.signedBy.Keys == m.txp.signedBy.Keys + Signers(keyMap);
  }

  /* ---------- creating a proposal (createTxSync) ---------- */

  /** What coin selection and local signing produce for a new proposal: its
      id, the outputs it spends and the signer sets of its inputs, and the
      builder's signature count and completeness. */
  datatype Built = Built(ntxid: Ntxid, inputs: seq<Outpoint>, inputSigners: seq<set<PubKey>>,
                         signatures: nat, firstInputSigned: bool, complete: bool)

  /** The length of a string as the host counts it, in UTF-16 code units: a
      character beyond the Basic Multilingual Plane takes two. */
  function Utf16Length(s: string): nat {
    if s == [] then 0
    else Utf16Length(s[..|s| - 1]) + (if s[|s| - 1] as int >= 0x1_0000 then 2 else 1)
  }

  /** A string takes between one and two code units per character, and
      exactly two when every character lies beyond the Basic Multilingual
      Plane. */
  lemma {:induction false} Utf16LengthBounds(s: string)
    ensures |s| <= Utf16Length(s) <= 2 * |s|
    ensures (forall i :: 0 <= i < |s| ==> s[i] as int >= 0x1_0000) ==> Utf16Length(s) == 2 * |s|
  {
    if s != [] {
      Utf16LengthBounds(s[..|s| - 1]);
    }
  }

  /** createTxSync's preconditions, in the order the source checks them. */
  function CreateTxCheck(toNetwork: string, ring: KeyRing, hasPrivateKey: bool, comment: string): (r: Option<Failure>)
    ensures r.None? <==> toNetwork == ring.network && ring.complete && hasPrivateKey && Utf16Length(comment) <= 100
  {
    if toNetwork != ring.network then Some(NetworkMismatch)
    else if !ring.complete then Some(RingIncomplete)
    else if !hasPrivateKey then Some(NoPrivateKey)
    else if comment != "" && Utf16Length(comment) > 100 then Some(CommentTooLong)
    else None
  }

  /** Sixty emoji make a comment of 120 code units, which is refused. */
  lemma EmojiCommentTooLong(ring: KeyRing)
    requires ring.complete
    ensures CreateTxCheck(ring.network, ring, true, seq(60, _ => '\U{1F600}')) == Some(CommentTooLong)
  {
    Utf16LengthBounds(seq(60, _ => '\U{1F600}'));
  }

  /** createTxSync: under its preconditions, adds a proposal created, signed
      and seen by this copayer now, rejected by nobody. */
  function CreateTx(txps: map<Ntxid, Proposal>, ring: KeyRing, me: CopayerId, hasPrivateKey: bool, toNetwork: string,
                    comment: string, built: Built, now: int): (r: Result<map<Ntxid, Proposal>, Failure>)
    ensures r.Ok? <==> CreateTxCheck(toNetwork, ring, hasPrivateKey, comment).None? && built.firstInputSigned
    ensures r.Ok? ==>
      && r.value.Keys == txps.Keys + {built.ntxid}
      && (forall id :: id in txps && id != built.ntxid ==> r.value[id] == txps[id])
      && var p := r.value[built.ntxid];
         && p.creator == me && p.createdTs == now
         && p.signedBy == map[me := now] && p.seenBy == map[me := now] && p.rejectedBy == map[]
         && p.inputs == built.inputs && p.comment == comment && p.sentTxid.None?
  {
    match CreateTxCheck(toNetwork, ring, hasPrivateKey, comment)
    case Some(f) => Err(f)
    case None =>
      if !built.firstInputSigned then Err(CouldNotSign)
      else
        var p := Proposal(me, now, built.inputs, built.inputSigners, map[me := now], map[], map[me := now],
                          built.signatures, built.complete, None, None, false, comment);
        Ok(txps[built.ntxid := p])
  }
}
