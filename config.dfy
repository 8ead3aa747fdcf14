/** The wallet constructor's checks on its options, and the identity
    accessors derived from them. */
module Config {
  import opened Types

  /** The options the constructor refuses to do without, in the order it
      checks them. */
  const RequiredOptions: seq<string> := [
    "storage", "network", "blockchain",
    "requiredCopayers", "totalCopayers", "spendUnconfirmed",
    "publicKeyRing", "txProposals", "privateKey", "version",
    "reconnectDelay"]

  /** The constructor's option check: reports the first required option, in
      list order, that the given options lack, or none when all are there. */
  method CheckRequiredOptions(given: set<string>) returns (r: Option<string>)
    ensures r.None? <==> forall i :: 0 <= i < |RequiredOptions| ==> RequiredOptions[i] in given
    ensures r.Some? ==> r.value !in given
    ensures r.Some? ==> exists i :: 0 <= i < |RequiredOptions| && RequiredOptions[i] == r.value && (forall j :: 0 <= j < i ==> RequiredOptions[j] in given)
  {
    for i := 0 to |RequiredOptions|
      invariant forall j :: 0 <= j < i ==> RequiredOptions[j] in given
    {
      if RequiredOptions[i] !in given {
        return Some(RequiredOptions[i]);
      }
    }
    return None;
  }

  /** The forced-network check: when the configuration forces a network, the
      key ring's network must be that one. */
  function CheckNetwork(forced: Option<string>, network: string): (r: Option<Failure>)
    ensures r.None? <==> forced.None? || forced.value == network
    ensures r.Some? ==> r.value == NetworkForced(forced.value)
  {
    if forced.Some? && network != forced.value then Some(NetworkForced(forced.value)) else None
  }

  /** The wallet id: the given id when it is non-empty, a fresh random id
      otherwise. */
  function WalletId(given: string, randomId: string): (r: string)
    ensures given != "" ==> r == given
    ensures given == "" ==> r == randomId
    ensures randomId != "" ==> r != ""
  {
    if given != "" then given else randomId
  }

  /** getName: the wallet's name when it has a non-empty one, its id otherwise. */
  function DisplayName(name: string, id: string): (r: string)
    ensures r == name || r == id
    ensures r == "" ==> name == "" && id == ""
    ensures name != "" ==> r == name
  {
    if name != "" then name else id
  }

  /** isShared: more than one copayer takes part. */
  predicate IsShared(totalCopayers: nat) {
    totalCopayers > 1
  }

  /** The settings a constructed wallet keeps. */
  datatype Settings = Settings(id: string, name: string, requiredCopayers: nat, totalCopayers: nat,
                               spendUnconfirmed: bool, reconnectDelay: nat)

  /** What the constructor is given: which options are present, their values,
      and the key ring's network. */
  datatype Options = Options(present: set<string>, id: string, name: string, requiredCopayers: nat,
                             totalCopayers: nat, spendUnconfirmed: bool, reconnectDelay: nat, network: string)

  /** The constructor's checks in order: the required options, then the
      forced network; a wallet passing both gets its id and settings. */
  method Construct(opts: Options, forced: Option<string>, randomId: string) returns (r: Result<Settings, Failure>)
    ensures r.Ok? <==>
      (forall i :: 0 <= i < |RequiredOptions| ==> RequiredOptions[i] in opts.present) &&
      (forced.None? || forced.value == opts.network)
    ensures r.Err? && r.error.MissingOption? ==> r.error.name in RequiredOptions && r.error.name !in opts.present
    ensures r.Err? && r.error.NetworkForced? ==> forced == Some(r.error.forced) && opts.network != r.error.forced
    ensures r.Err? ==> r.error.MissingOption? || r.error.NetworkForced?
    ensures r.Ok? ==> r.value == Settings(WalletId(opts.id, randomId), opts.name, opts.requiredCopayers,
                                          opts.totalCopayers, opts.spendUnconfirmed, opts.reconnectDelay)
  {
    var missing := CheckRequiredOptions(opts.present);
    if missing.Some? {
      return Err(MissingOption(missing.value));
    }
    var net := CheckNetwork(forced, opts.network);
    if net.Some? {
      return Err(net.value);
    }
    r := Ok(Settings(WalletId(opts.id, randomId), opts.name, opts.requiredCopayers,
                     opts.totalCopayers, opts.spendUnconfirmed, opts.reconnectDelay));
  }
}
