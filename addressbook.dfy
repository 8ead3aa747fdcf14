/** The shared address book: the write-once merge of entries received from a
    peer, and the local commands that add an entry or hide/show one. */
module AddressBook {
  import opened Types

  /** Outcome of merging a received book: the resulting book, whether some
      entry was added, and whether the merge stopped on an entry with an empty
      key (the source throws "Keys are required" there, keeping the entries
      already added but emitting and storing nothing). */
  datatype Merge = Merge(book: map<Address, Entry>, changed: bool, failed: bool)

  /** The fields an entry's signature covers, as verifyAddressbookEntry builds them. */
  function Fields(key: Address, e: Entry): SignedFields {
    SignedFields(key, e.name, e.owner, e.createdTs)
  }

  /** The received entry verifies against the sender's identity. */
  predicate Verified(verify: Verifier, sender: CopayerId, key: Address, e: Entry) {
    verify(Fields(key, e), e.signature, sender)
  }

  /** The merge loop of _handleAddressBook from the received entry at `i` on,
      over a book `acc` that already holds the entries taken so far. */
  function MergeFrom(acc: map<Address, Entry>, changed: bool, rcv: seq<(Address, Entry)>, i: nat,
                     sender: CopayerId, verify: Verifier): Merge
    requires i <= |rcv|
    decreases |rcv| - i
  {
    if i == |rcv| then Merge(acc, changed, false)
    else
      var key := rcv[i].0;
      var e := rcv[i].1;
      if key in acc then MergeFrom(acc, changed, rcv, i + 1, sender, verify)
      else if key == "" then Merge(acc, changed, true)
      else if Verified(verify, sender, key, e) then MergeFrom(acc[key := e], true, rcv, i + 1, sender, verify)
      else MergeFrom(acc, changed, rcv, i + 1, sender, verify)
  }

  /** _handleAddressBook's effect on the book, given the entries in the order
      the message lists them. */
  function MergeBook(book: map<Address, Entry>, rcv: seq<(Address, Entry)>, sender: CopayerId, verify: Verifier): Merge {
    MergeFrom(book, false, rcv, 0, sender, verify)
  }

  lemma {:induction false} MergeFromFacts(acc: map<Address, Entry>, changed: bool, rcv: seq<(Address, Entry)>, i: nat,
                                          sender: CopayerId, verify: Verifier)
    requires i <= |rcv|
    ensures var r := MergeFrom(acc, changed, rcv, i, sender, verify);
      && acc.Keys <= r.book.Keys
      && (forall k :: k in acc ==> r.book[k] == acc[k])
      && (forall k :: k in r.book && k !in acc ==>
            k != "" && Verified(verify, sender, k, r.book[k]) &&
            exists j :: i <= j < |rcv| && rcv[j] == (k, r.book[k]))
      && (r.changed <==> changed || r.book != acc)
      && (!r.failed ==> forall j :: i <= j < |rcv| && Verified(verify, sender, rcv[j].0, rcv[j].1) ==> rcv[j].0 in r.book)
      && (r.failed ==> exists j :: i <= j < |rcv| && rcv[j].0 == "" && "" !in r.book)
    decreases |rcv| - i
  {
    if i < |rcv| {
      var key := rcv[i].0;
      var e := rcv[i].1;
      if key in acc {
        MergeFromFacts(acc, changed, rcv, i + 1, sender, verify);
      } else if key == "" {
      } else if Verified(verify, sender, key, e) {
        MergeFromFacts(acc[key := e], true, rcv, i + 1, sender, verify);
        var r := MergeFrom(acc[key := e], true, rcv, i + 1, sender, verify);
        assert r.book[key] == e;
        assert r.book != acc by {
          assert key in r.book && key !in acc;
        }
      } else {
        MergeFromFacts(acc, changed, rcv, i + 1, sender, verify);
      }
    }
  }

  /** The merge never overwrites or removes an entry the book already has;
      every entry it adds is one the message carries under an unseen, non-empty
      key and verifies against the sender; and, unless it stopped on an empty
      key, every verifying entry's key ends up in the book. */
  lemma MergeIsWriteOnce(book: map<Address, Entry>, rcv: seq<(Address, Entry)>, sender: CopayerId, verify: Verifier)
    ensures var r := MergeBook(book, rcv, sender, verify);
      && book.Keys <= r.book.Keys
      && (forall k :: k in book ==> r.book[k] == book[k])
      && (forall k :: k in r.book && k !in book ==>
            k != "" && Verified(verify, sender, k, r.book[k]) &&
            exists j :: 0 <= j < |rcv| && rcv[j] == (k, r.book[k]))
      && (!r.failed ==> forall j :: 0 <= j < |rcv| && Verified(verify, sender, rcv[j].0, rcv[j].1) ==> rcv[j].0 in r.book)
  {
    MergeFromFacts(book, false, rcv, 0, sender, verify);
  }

  /** The wallet emits and stores exactly when the merge added an entry;
      otherwise the book is unchanged. */
  lemma MergeChangedExactlyWhenAdded(book: map<Address, Entry>, rcv: seq<(Address, Entry)>, sender: CopayerId, verify: Verifier)
    ensures var r := MergeBook(book, rcv, sender, verify);
      (r.changed <==> r.book != book) && (!r.changed ==> r.book == book)
  {
    MergeFromFacts(book, false, rcv, 0, sender, verify);
  }

  /** Entries whose signatures do not verify against the sender never reach
      the book. */
  lemma UnverifiedEntriesAreDropped(book: map<Address, Entry>, rcv: seq<(Address, Entry)>, sender: CopayerId, verify: Verifier)
    requires forall j :: 0 <= j < |rcv| ==> !Verified(verify, sender, rcv[j].0, rcv[j].1)
    ensures MergeBook(book, rcv, sender, verify).book == book
    ensures !MergeBook(book, rcv, sender, verify).changed
  {
    MergeFromFacts(book, false, rcv, 0, sender, verify);
  }

  /** _checkAddressBook: a local entry may be set unless the address already
      has an entry owned by a copayer. */
  function CheckAddressBook(book: map<Address, Entry>, key: Address): (r: Option<Failure>)
    ensures r.None? <==> key !in book || book[key].owner == NoCopayer
  {
    if key in book && book[key].owner != NoCopayer then Some(AddressExists(key)) else None
  }

  /** setAddressBook: a new visible entry owned by this copayer, stamped `now`
      and signed over its fields, stored under `key`. */
  function SetEntry(book: map<Address, Entry>, key: Address, name: string, me: CopayerId, now: int,
                    sign: SignedFields -> string): (r: Result<map<Address, Entry>, Failure>)
    ensures r.Err? <==> key in book && book[key].owner != NoCopayer
    ensures r.Ok? ==> r.value.Keys == book.Keys + {key}
    ensures r.Ok? ==> forall k :: k in book && k != key ==> r.value[k] == book[k]
    ensures r.Ok? ==> var e := r.value[key];
      e.name == name && e.owner == Copayer(me) && e.createdTs == now && !e.hidden &&
      e.signature == sign(Fields(key, e))
  {
    match CheckAddressBook(book, key)
    case Some(f) => Err(f)
    case None =>
      var fields := SignedFields(key, name, Copayer(me), now);
      Ok(book[key := Entry(name, Copayer(me), now, sign(fields), false)])
  }

  /** An entry this copayer sets, signed with a key whose signatures verify
      against its identity, is accepted by a peer whose book lacks the address. */
  lemma SetEntryIsAcceptedByPeers(book: map<Address, Entry>, key: Address, name: string, me: CopayerId, now: int,
                                  sign: SignedFields -> string, verify: Verifier, peerBook: map<Address, Entry>)
    requires key != "" && key !in peerBook
    requires forall f :: verify(f, sign(f), me)
    requires SetEntry(book, key, name, me, now, sign).Ok?
    ensures var mine := SetEntry(book, key, name, me, now, sign).value;
      var r := MergeBook(peerBook, [(key, mine[key])], me, verify);
      r.changed && !r.failed && r.book == peerBook[key := mine[key]]
  {
    var e := SetEntry(book, key, name, me, now, sign).value[key];
    assert Verified(verify, me, key, e);
    assert MergeFrom(peerBook[key := e], true, [(key, e)], 1, me, verify) == Merge(peerBook[key := e], true, false);
  }

  /** toggleAddressBookEntry: flips the hidden flag of one existing entry. */
  function Toggle(book: map<Address, Entry>, key: Address): (r: Result<map<Address, Entry>, Failure>)
    ensures r.Err? <==> key == "" || key !in book
    ensures r.Ok? ==> r.value.Keys == book.Keys && r.value[key].hidden == !book[key].hidden
    ensures r.Ok? ==> r.value[key] == book[key].(hidden := r.value[key].hidden)
    ensures r.Ok? ==> forall k :: k in book && k != key ==> r.value[k] == book[k]
  {
    if key == "" then Err(KeyRequired)
    else if key !in book then Err(UnknownEntry(key))
    else Ok(book[key := book[key].(hidden := !book[key].hidden)])
  }

  /** Toggling the same entry twice restores the book. */
  lemma ToggleTwiceRestores(book: map<Address, Entry>, key: Address)
    requires Toggle(book, key).Ok?
    ensures Toggle(Toggle(book, key).value, key) == Ok(book)
  {
    var once := Toggle(book, key).value;
    assert once[key := once[key].(hidden := !once[key].hidden)] == book;
  }
}
