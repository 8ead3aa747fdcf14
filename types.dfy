/** Entities of the copayer-side wallet: identifiers, the observable state of the
    collaborators the wallet drives (key ring, transaction proposals, chain
    outputs), the wire messages it receives, and the records of what it sends
    and emits. */
module Types {

  datatype Option<T> = None | Some(value: T)

  datatype Result<T, E> = Ok(value: T) | Err(error: E)

  type CopayerId = string
  type PeerId = string
  type Ntxid = string
  type Address = string
  type PubKey = string
  type TxId = string

  /** The owner recorded in an address-book entry; the wire value -1 stands for
      an entry that belongs to no copayer. */
  datatype Owner = NoCopayer | Copayer(id: CopayerId)

  /** One address-book entry, keyed by its address in the book. */
  datatype Entry = Entry(name: string, owner: Owner, createdTs: int, signature: string, hidden: bool)

  /** The fields of an entry that its signature covers. */
  datatype SignedFields = SignedFields(address: Address, name: string, owner: Owner, createdTs: int)

  /** Verification of a signature over some fields against a sender's public
      identity; the elliptic-curve check itself is not part of this model. */
  type Verifier = (SignedFields, string, CopayerId) -> bool

  /** Next change and receive positions of one cosigner's derivation branches. */
  datatype IndexPair = IndexPair(cosigner: int, changeIndex: nat, receiveIndex: nat)

  /** Observable state of the public key ring. */
  datatype KeyRing = KeyRing(copayerIds: seq<CopayerId>, complete: bool, network: string)

  /** A transaction output, named by the transaction that created it and its position. */
  datatype Outpoint = Outpoint(txid: TxId, vout: nat)

  /** Observable state of one transaction proposal and of its partially
      signed transaction: signature count and completeness. */
  datatype Proposal = Proposal(
    creator: CopayerId,
    createdTs: int,
    inputs: seq<Outpoint>,
    inputSigners: seq<set<PubKey>>,
    signedBy: map<CopayerId, int>,
    rejectedBy: map<CopayerId, int>,
    seenBy: map<CopayerId, int>,
    signatures: nat,
    complete: bool,
    sentTxid: Option<TxId>,
    sentTs: Option<int>,
    readonly: bool,
    comment: string)

  /** Inbound peer message: the wallet id it claims and a type-tagged body. */
  datatype Message = Message(walletId: string, body: Body)

  datatype Body =
    | WalletIdMsg
    | WalletReadyMsg
    | PublicKeyRingMsg
    | IndexesMsg
    | TxProposalMsg
    | RejectMsg(ntxid: Ntxid)
    | SeenMsg(ntxid: Ntxid)
    | AddressBookMsg(entries: seq<(Address, Entry)>)
    | UnknownMsg

  /** What the wallet hands to the network layer for sending. */
  datatype Outbound =
    | WalletReadyOut
    | PublicKeyRingOut(ring: KeyRing)
    | AddressBookOut(book: map<Address, Entry>)
    | TxProposalOut(ntxid: Ntxid)
    | SeenOut(ntxid: Ntxid)
    | IndexesOut(indexes: seq<IndexPair>)

  datatype Recipients = Everyone | To(peer: CopayerId)

  /** Calls the wallet makes on its network collaborator. */
  datatype NetCall =
    | Send(to: Recipients, what: Outbound)
    | ConnectTo(ids: seq<CopayerId>)
    | LockIncoming(ids: seq<CopayerId>)

  datatype TxpEvent =
    | NewTxp(cid: CopayerId)
    | SignedTxp(cids: set<CopayerId>)
    | CorruptTxp(cid: CopayerId)
    | RejectedTxp(cid: CopayerId, ntxid: Ntxid)
    | SeenTxp(cid: CopayerId, ntxid: Ntxid)

  /** Events the wallet emits to the application. */
  datatype Event =
    | BadMessage(sender: CopayerId)
    | ConnectionError
    | PublicKeyRingUpdated
    | TxProposalsUpdated
    | AddressBookUpdated
    | ProposalEvent(ev: TxpEvent)
    | Disconnected(peer: PeerId)

  /** Failures the wallet reports (thrown, in the source) instead of changing state. */
  datatype Failure =
    | MissingNtxid
    | UnknownProposal(ntxid: Ntxid)
    | RejectAfterSign(sender: CopayerId)
    | NoCopayerId
    | TxNotComplete
    | KeyRequired
    | UnknownEntry(key: Address)
    | AddressExists(key: Address)
    | ChainQueryFailed(at: nat)
    | NoInputs
    | UnknownSigners
    | DifferentSigners
    | NetworkMismatch
    | RingIncomplete
    | NoPrivateKey
    | CommentTooLong
    | CouldNotSign
    | MissingOption(name: string)
    | NetworkForced(forced: string)

  /** A subset is no larger than its superset. */
  lemma {:induction false} SubsetCardinality<T>(a: set<T>, b: set<T>)
    requires a <= b
    ensures |a| <= |b|
    decreases a
  {
    if a != {} {
      var x :| x in a;
      SubsetCardinality(a - {x}, b - {x});
    }
  }
}
