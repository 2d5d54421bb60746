/** Properties of the favorites program that relate several instructions:
    what any sequence of transactions preserves, which records an instruction
    can reach, how repeated instructions combine, how the signatures the
    program demands compare with the owner-or-delegate rule, and the steps
    its tests take. */
module FavoritesProperties {
  import opened FavoritesTypes
  import opened AccountLayout
  import opened Authorization
  import opened FavoritesProgram
  import opened AsWrittenProgram

  // ---------------------------------------------------------------------------
  // Any sequence of transactions

  /** With the declared bound enforced, every reachable state keeps the store
      invariant: each account sits at an owner's favorites address and holds
      a color within its bound. The program as written keeps only
      `AsWrittenInvariant` (`RunAsWrittenPreservesInvariant`). */
  lemma {:induction false} RunPreservesInvariant(accounts: Accounts, ixs: seq<Instruction>)
    requires StoreInvariant(accounts)
    ensures StoreInvariant(Run(accounts, ixs))
    decreases |ixs|
  {
    if ixs != [] {
      RunPreservesInvariant(Execute(accounts, ixs[0]).accounts, ixs[1..]);
    }
  }

  /** No sequence of transactions removes a record or changes the address it
      lives at: there is no delete. */
  lemma {:induction false} RunNeverRemoves(accounts: Accounts, ixs: seq<Instruction>)
    ensures accounts.Keys <= Run(accounts, ixs).Keys
    decreases |ixs|
  {
    if ixs != [] {
      RunNeverRemoves(Execute(accounts, ixs[0]).accounts, ixs[1..]);
    }
  }

  /** A record that was not there before exists only if some transaction in
      between was a `set_favorites` that its owner signed and that succeeded
      in the state the transactions before it left. */
  lemma {:induction false} RecordExistsOnlyIfCreated(accounts: Accounts, ixs: seq<Instruction>, owner: Pubkey)
    requires FavoritesAddress(owner) !in accounts
    requires FavoritesAddress(owner) in Run(accounts, ixs)
    ensures exists i :: && 0 <= i < |ixs|
                        && ixs[i].SetFavoritesIx? && ixs[i].user == owner && owner in ixs[i].signers
                        && Execute(Run(accounts, ixs[..i]), ixs[i]).outcome == Ok
    decreases |ixs|
  {
    var a := FavoritesAddress(owner);
    var r := Execute(accounts, ixs[0]);
    if a in r.accounts {
      assert Lookup(r.accounts, a) != Lookup(accounts, a);
      assert ixs[0].favorites == a && r.outcome == Ok;
      FavoritesAddressInjective(owner, ixs[0].user);
      assert ixs[..0] == [];
      assert 0 < |ixs| && ixs[0].user == owner && owner in ixs[0].signers;
      assert Execute(Run(accounts, ixs[..0]), ixs[0]).outcome == Ok;
    } else {
      RecordExistsOnlyIfCreated(r.accounts, ixs[1..], owner);
      var i :| && 0 <= i < |ixs[1..]|
               && ixs[1..][i].SetFavoritesIx? && ixs[1..][i].user == owner && owner in ixs[1..][i].signers
               && Execute(Run(r.accounts, ixs[1..][..i]), ixs[1..][i]).outcome == Ok;
      assert ixs[i + 1] == ixs[1..][i];
      var prefix := ixs[..i + 1];
      assert prefix != [] && prefix[0] == ixs[0];
      assert prefix[1..] == ixs[1..][..i];
      assert Run(accounts, prefix) == Run(r.accounts, ixs[1..][..i]);
      assert Execute(Run(accounts, ixs[..i + 1]), ixs[i + 1]).outcome == Ok;
    }
  }

  /** Conversely, a `set_favorites` that succeeds leaves a record that every
      later transaction keeps. */
  lemma CreatedRecordPersists(accounts: Accounts, ix: Instruction, later: seq<Instruction>)
    requires ix.SetFavoritesIx? && Execute(accounts, ix).outcome == Ok
    ensures FavoritesAddress(ix.user) in Run(Execute(accounts, ix).accounts, later)
  {
    RunNeverRemoves(Execute(accounts, ix).accounts, later);
  }

  // ---------------------------------------------------------------------------
  // Which record an instruction reaches

  /** An instruction for `user` never touches any other owner's record: the
      three instructions reach a record only through the address derived
      from `user`. */
  lemma OtherOwnersUntouched(accounts: Accounts, ix: Instruction, other: Pubkey)
    requires other != ix.user
    ensures Lookup(Execute(accounts, ix).accounts, FavoritesAddress(other)) == Lookup(accounts, FavoritesAddress(other))
  {
    var r := Execute(accounts, ix);
    if r.outcome == Ok {
      FavoritesAddressInjective(other, ix.user);
    }
  }

  /** Nothing changes an owner's record unless the owner signed: the
      `user` account must sign and is the key the address is derived from. */
  lemma NoChangeWithoutOwnerSignature(accounts: Accounts, ix: Instruction, owner: Pubkey)
    requires owner !in ix.signers
    ensures Lookup(Execute(accounts, ix).accounts, FavoritesAddress(owner)) == Lookup(accounts, FavoritesAddress(owner))
  {
    var r := Execute(accounts, ix);
    if r.outcome == Ok {
      assert ix.user != owner;
      OtherOwnersUntouched(accounts, ix, owner);
    }
  }

  // ---------------------------------------------------------------------------
  // Signatures against the owner-or-delegate rule

  /** Every successful change to an existing record is backed by a signature
      the owner-or-delegate rule authorizes, and, for changes of the delegate, one
      that either delegation policy accepts: the owner's. */
  lemma ChangeIsBackedByAuthorizedSigner(accounts: Accounts, ix: Instruction, policy: DelegationPolicy)
    requires !ix.SetFavoritesIx?
    requires Execute(accounts, ix).outcome == Ok
    ensures ix.favorites in accounts
    ensures exists r :: r in ix.signers && Authorized(accounts[ix.favorites], OwnerOf(ix.favorites), r)
    ensures ix.SetAuthorityIx? ==>
              exists r :: r in ix.signers && MayChangeDelegate(policy, accounts[ix.favorites], OwnerOf(ix.favorites), r)
  {
    var owner := OwnerOf(ix.favorites);
    assert owner == ix.user && owner in ix.signers;
    OwnerAlwaysAuthorized(accounts[ix.favorites], owner);
  }

  /** The program is stricter than the owner-or-delegate rule: a delegate
      whom that rule authorizes cannot update the record without the owner's signature, in
      whichever role it passes its own key. */
  lemma DelegateAloneIsRejected(accounts: Accounts, owner: Pubkey, delegate: Pubkey, signers: set<Pubkey>,
                                user: Pubkey, signer: Pubkey, number: u64, color: seq<byte>)
    requires FavoritesAddress(owner) in accounts
    requires accounts[FavoritesAddress(owner)].delegate == Some(delegate)
    requires owner !in signers
    ensures Authorized(accounts[FavoritesAddress(owner)], owner, delegate)
    ensures var r := UpdateFavoritesStep(accounts, signers, user, signer, FavoritesAddress(owner), number, color);
            r.outcome != Ok && r.accounts == accounts
  {
    if user in signers {
      FavoritesAddressInjective(owner, user);
    }
  }

  /** Removing the delegate does not stop an update that the former delegate
      co-signs: the owner's signature is all that the program checks. */
  lemma RemovedDelegateCoSignStillSucceeds(accounts: Accounts, owner: Pubkey, former: Pubkey,
                                           number: u64, color: seq<byte>)
    requires FavoritesAddress(owner) in accounts
    requires accounts[FavoritesAddress(owner)].delegate == None
    requires former != owner && WithinBound(color)
    ensures !Authorized(accounts[FavoritesAddress(owner)], owner, former)
    ensures UpdateFavoritesStep(accounts, {owner, former}, owner, former, FavoritesAddress(owner), number, color).outcome == Ok
  {
  }

  // ---------------------------------------------------------------------------
  // Repeated instructions

  /** A second `set_favorites` for the same owner fails with `AlreadyExists`
      and leaves the first record as it was. */
  lemma CreateTwiceFails(accounts: Accounts, signers: set<Pubkey>, user: Pubkey,
                         n1: u64, c1: seq<byte>, n2: u64, c2: seq<byte>)
    requires SetFavoritesStep(accounts, signers, user, FavoritesAddress(user), n1, c1).outcome == Ok
    ensures var first := SetFavoritesStep(accounts, signers, user, FavoritesAddress(user), n1, c1);
            SetFavoritesStep(first.accounts, signers, user, FavoritesAddress(user), n2, c2)
              == StepResult(Fail(AlreadyExists), first.accounts)
    ensures var first := SetFavoritesStep(accounts, signers, user, FavoritesAddress(user), n1, c1);
            first.accounts[FavoritesAddress(user)] == Favorites(n1, c1, None)
  {
  }

  /** Repeating an update gives the same outcome and the same accounts as
      doing it once. */
  lemma UpdateIdempotent(accounts: Accounts, signers: set<Pubkey>, user: Pubkey, signer: Pubkey,
                         favorites: Address, number: u64, color: seq<byte>)
    ensures var once := UpdateFavoritesStep(accounts, signers, user, signer, favorites, number, color);
            UpdateFavoritesStep(once.accounts, signers, user, signer, favorites, number, color) == once
  {
  }

  /** Sequential updates simply overwrite: two updates end where the second
      alone would, whenever the second payload is within bound. */
  lemma UpdatesOverwrite(accounts: Accounts, signers: set<Pubkey>, user: Pubkey, signer: Pubkey,
                         favorites: Address, n1: u64, c1: seq<byte>, n2: u64, c2: seq<byte>)
    requires WithinBound(c2)
    ensures var first := UpdateFavoritesStep(accounts, signers, user, signer, favorites, n1, c1);
            UpdateFavoritesStep(first.accounts, signers, user, signer, favorites, n2, c2)
              == UpdateFavoritesStep(accounts, signers, user, signer, favorites, n2, c2)
  {
  }

  /** The last `set_authority` wins, whatever the earlier one set. */
  lemma SetAuthorityLastWins(accounts: Accounts, signers: set<Pubkey>, user: Pubkey, signer: Pubkey,
                             favorites: Address, d1: Option<Pubkey>, d2: Option<Pubkey>)
    ensures var first := SetAuthorityStep(accounts, signers, user, signer, favorites, d1);
            SetAuthorityStep(first.accounts, signers, user, signer, favorites, d2)
              == SetAuthorityStep(accounts, signers, user, signer, favorites, d2)
  {
  }

  /** An update never changes a delegate, and `set_authority` never changes a
      payload, on any record. */
  lemma FieldsOwnedByTheirInstruction(accounts: Accounts, ix: Instruction, a: Address)
    requires a in accounts
    ensures a in Execute(accounts, ix).accounts
    ensures ix.UpdateFavoritesIx? ==> Execute(accounts, ix).accounts[a].delegate == accounts[a].delegate
    ensures ix.SetAuthorityIx? ==>
              && Execute(accounts, ix).accounts[a].number == accounts[a].number
              && Execute(accounts, ix).accounts[a].color == accounts[a].color
  {
    assert Lookup(accounts, a) == Some(accounts[a]);
  }

  /** With every color within bound, `set_authority` on an existing record
      that its owner signed always succeeds, and the record it leaves can be
      serialised whatever delegate it names. */
  lemma SetAuthorityNeverFailsOnValidStore(accounts: Accounts, owner: Pubkey, signer: Pubkey,
                                           delegate: Option<Pubkey>)
    requires StoreInvariant(accounts)
    requires FavoritesAddress(owner) in accounts
    ensures var r := SetAuthorityStep(accounts, {owner, signer}, owner, signer, FavoritesAddress(owner), delegate);
            r.outcome == Ok && FitsAccountSpace(r.accounts[FavoritesAddress(owner)])
  {
    var rec := accounts[FavoritesAddress(owner)];
    WithinBoundIffFitsForEveryDelegate(rec.number, rec.color);
    assert FitsAccountSpace(Favorites(rec.number, rec.color, delegate));
  }

  // ---------------------------------------------------------------------------
  // The steps the tests take

  const BLACK: seq<byte> := [0x62, 0x6c, 0x61, 0x63, 0x6b]
  const BLUE: seq<byte> := [0x62, 0x6c, 0x75, 0x65]
  const RED: seq<byte> := [0x72, 0x65, 0x64]
  const GREEN: seq<byte> := [0x67, 0x72, 0x65, 0x65, 0x6e]
  const X: seq<byte> := [0x78]

  /** The tests' steps, in their order and with their values, run as written:
      the create of the skipped first test (23, "red"), two owner updates
      (100, "black" then 23, "red"), set `b` as delegate, clear it, set it
      again, and an update (300, "green") signed by the owner and `b` with `b`
      as the `signer` account. The owner-signed updates pass the owner as the
      `signer` account. Each step succeeds with the record the test reads
      back. */
  lemma TestsFlow(a: Pubkey, b: Pubkey)
    requires a != b
    ensures var addr := FavoritesAddress(a);
            var r0 := SetFavoritesAsWritten(map[], {a}, a, addr, 23, RED);
            var r1 := UpdateFavoritesAsWritten(r0.accounts, {a}, a, a, addr, 100, BLACK);
            var r2 := UpdateFavoritesAsWritten(r1.accounts, {a}, a, a, addr, 23, RED);
            var r3 := SetAuthorityAsWritten(r2.accounts, {a}, a, a, addr, Some(b));
            var r4 := SetAuthorityAsWritten(r3.accounts, {a}, a, a, addr, None);
            var r5 := SetAuthorityAsWritten(r4.accounts, {a}, a, a, addr, Some(b));
            var r6 := UpdateFavoritesAsWritten(r5.accounts, {a, b}, a, b, addr, 300, GREEN);
            && r0.outcome == Ok && r0.accounts[addr] == Favorites(23, RED, None)
            && r1.outcome == Ok && r1.accounts[addr] == Favorites(100, BLACK, None)
            && r2.outcome == Ok && r2.accounts[addr] == Favorites(23, RED, None)
            && r3.outcome == Ok && r3.accounts[addr] == Favorites(23, RED, Some(b))
            && r4.outcome == Ok && r4.accounts[addr] == Favorites(23, RED, None)
            && r5.outcome == Ok && r5.accounts[addr] == Favorites(23, RED, Some(b))
            && r6.outcome == Ok && r6.accounts == map[addr := Favorites(300, GREEN, Some(b))]
  {
  }

  /** A flow built from the tests' steps plus two rejected calls, with the
      corrected steps: owner `a` creates, updates, names `b` its delegate and
      updates with `b` co-signing; `c` alone is rejected; after the delegate
      is removed, `a` can still update, and a second create fails. */
  lemma DelegationScenario(a: Pubkey, b: Pubkey, c: Pubkey)
    requires a != b && a != c
    ensures var addr := FavoritesAddress(a);
            var r1 := SetFavoritesStep(map[], {a}, a, addr, 7, BLUE);
            var r2 := UpdateFavoritesStep(r1.accounts, {a}, a, a, addr, 9, RED);
            var r3 := SetAuthorityStep(r2.accounts, {a}, a, a, addr, Some(b));
            var r4 := UpdateFavoritesStep(r3.accounts, {a, b}, a, b, addr, 11, GREEN);
            var r5 := UpdateFavoritesStep(r4.accounts, {c}, a, c, addr, 1, X);
            var r6 := SetAuthorityStep(r5.accounts, {a}, a, a, addr, None);
            var r7 := UpdateFavoritesStep(r6.accounts, {a}, a, a, addr, 23, RED);
            var r8 := SetFavoritesStep(r7.accounts, {a}, a, addr, 7, BLUE);
            && r1.outcome == Ok && r1.accounts[addr] == Favorites(7, BLUE, None)
            && r2.outcome == Ok && r2.accounts[addr] == Favorites(9, RED, None)
            && r3.outcome == Ok && r3.accounts[addr] == Favorites(9, RED, Some(b))
            && r4.outcome == Ok && r4.accounts[addr] == Favorites(11, GREEN, Some(b))
            && r5.outcome == Fail(MissingSignature) && r5.accounts == r4.accounts
            && r6.outcome == Ok && r6.accounts[addr] == Favorites(11, GREEN, None)
            && r7.outcome == Ok && r7.accounts[addr] == Favorites(23, RED, None)
            && r8.outcome == Fail(AlreadyExists) && r8.accounts == r7.accounts
  {
  }
}
