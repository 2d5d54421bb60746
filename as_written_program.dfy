/** The three instructions with the color check the program actually has.
    No handler looks at the length of `color`; after the handler returns,
    Anchor serialises the account into its 103 bytes and fails the
    transaction when the record does not fit. Each function here ends with
    that check on the record the handler wrote.

    These functions are kept apart from `FavoritesProgram`, which rejects a
    color over its declared bound before writing. The lemmas below show where
    the two agree (every color within bound, every store that respects the
    bound) and the input on which they differ. */
module AsWrittenProgram {
  import opened FavoritesTypes
  import opened AccountLayout
  import opened Authorization
  import opened FavoritesProgram

  /** `set_favorites` as written. `set_inner` writes the record; the account
      is kept only if that record serialises into the account. */
  function SetFavoritesAsWritten(accounts: Accounts, signers: set<Pubkey>, user: Pubkey, favorites: Address,
                                 number: u64, color: seq<byte>): (r: StepResult)
    ensures r.outcome == Ok <==>
              && user in signers
              && favorites == FavoritesAddress(user)
              && favorites !in accounts
              && |color| <= MAX_COLOR_LEN + 32
    ensures r.outcome == Ok ==> r.accounts == accounts[FavoritesAddress(user) := Favorites(number, color, None)]
    ensures r.outcome != Ok ==> r.accounts == accounts
    ensures user in signers && favorites == FavoritesAddress(user) && favorites !in accounts &&
            |color| > MAX_COLOR_LEN + 32 ==>
              r.outcome == Fail(DidNotSerialize)
  {
    if user !in signers then StepResult(Fail(MissingSignature), accounts)
    else if favorites != FavoritesAddress(user) then StepResult(Fail(SeedsMismatch), accounts)
    else if favorites in accounts then StepResult(Fail(AlreadyExists), accounts)
    else
      var written := Favorites(number, color, None);
      if !FitsAccountSpace(written) then StepResult(Fail(DidNotSerialize), accounts)
      else StepResult(Ok, accounts[favorites := written])
  }

  /** `update_favorites` as written: the guard, then `set_inner` with the
      current delegate, then the serialisation check, whose limit depends on
      whether there is a delegate. */
  function UpdateFavoritesAsWritten(accounts: Accounts, signers: set<Pubkey>, user: Pubkey, signer: Pubkey,
                                    favorites: Address, number: u64, color: seq<byte>): (r: StepResult)
    ensures r.outcome == Ok <==>
              && AccountsCheck(accounts, signers, user, signer, favorites) == Ok
              && |color| <= MAX_COLOR_LEN + (if accounts[favorites].delegate.None? then 32 else 0)
    ensures r.outcome == Ok ==>
              && favorites == FavoritesAddress(user)
              && r.accounts == accounts[favorites := Favorites(number, color, accounts[favorites].delegate)]
    ensures r.outcome != Ok ==> r.accounts == accounts
    ensures r.outcome != Fail(Unauthorized)
    ensures AccountsCheck(accounts, signers, user, signer, favorites) == Ok &&
            !FitsAccountSpace(Favorites(number, color, accounts[favorites].delegate)) ==>
              r.outcome == Fail(DidNotSerialize)
  {
    var check := AccountsCheck(accounts, signers, user, signer, favorites);
    if check.Fail? then StepResult(check, accounts)
    else
      var currentDelegate := accounts[favorites].delegate;
      if !UpdateGuard(currentDelegate, user) then StepResult(Fail(Unauthorized), accounts)
      else
        var written := Favorites(number, color, currentDelegate);
        if !FitsAccountSpace(written) then StepResult(Fail(DidNotSerialize), accounts)
        else StepResult(Ok, accounts[favorites := written])
  }

  /** `set_authority` as written: the delegate is assigned in place, then the
      record must still serialise, which a `Some` delegate fails on a color
      over the declared bound. */
  function SetAuthorityAsWritten(accounts: Accounts, signers: set<Pubkey>, user: Pubkey, signer: Pubkey,
                                 favorites: Address, delegate: Option<Pubkey>): (r: StepResult)
    ensures r.outcome == Ok <==>
              && AccountsCheck(accounts, signers, user, signer, favorites) == Ok
              && |accounts[favorites].color| <= MAX_COLOR_LEN + (if delegate.None? then 32 else 0)
    ensures r.outcome == Ok ==>
              && favorites == FavoritesAddress(user)
              && r.accounts == accounts[favorites := accounts[favorites].(delegate := delegate)]
    ensures r.outcome != Ok ==> r.accounts == accounts
    ensures AccountsCheck(accounts, signers, user, signer, favorites) == Ok && delegate.Some? &&
            !WithinBound(accounts[favorites].color) ==>
              r.outcome == Fail(DidNotSerialize)
  {
    var check := AccountsCheck(accounts, signers, user, signer, favorites);
    if check.Fail? then StepResult(check, accounts)
    else
      var written := accounts[favorites].(delegate := delegate);
      if !FitsAccountSpace(written) then StepResult(Fail(DidNotSerialize), accounts)
      else StepResult(Ok, accounts[favorites := written])
  }

  /** With a color within its declared bound, the program as written and the
      corrected program do the same: the serialisation check never fails. */
  lemma SetFavoritesAgreesWithinBound(accounts: Accounts, signers: set<Pubkey>, user: Pubkey, favorites: Address,
                                      number: u64, color: seq<byte>)
    requires WithinBound(color)
    ensures SetFavoritesAsWritten(accounts, signers, user, favorites, number, color)
              == SetFavoritesStep(accounts, signers, user, favorites, number, color)
  {
    WithinBoundIffFitsForEveryDelegate(number, color);
  }

  lemma UpdateFavoritesAgreesWithinBound(accounts: Accounts, signers: set<Pubkey>, user: Pubkey, signer: Pubkey,
                                         favorites: Address, number: u64, color: seq<byte>)
    requires WithinBound(color)
    ensures UpdateFavoritesAsWritten(accounts, signers, user, signer, favorites, number, color)
              == UpdateFavoritesStep(accounts, signers, user, signer, favorites, number, color)
  {
    WithinBoundIffFitsForEveryDelegate(number, color);
  }

  /** On a store whose colors are all within bound, `set_authority` as
      written and corrected do the same. */
  lemma SetAuthorityAgreesOnValidStore(accounts: Accounts, signers: set<Pubkey>, user: Pubkey, signer: Pubkey,
                                       favorites: Address, delegate: Option<Pubkey>)
    requires StoreInvariant(accounts)
    ensures SetAuthorityAsWritten(accounts, signers, user, signer, favorites, delegate)
              == SetAuthorityStep(accounts, signers, user, signer, favorites, delegate)
  {
    if favorites in accounts {
      var rec := accounts[favorites];
      WithinBoundIffFitsForEveryDelegate(rec.number, rec.color);
      assert FitsAccountSpace(Favorites(rec.number, rec.color, delegate));
    }
  }

  /** The input that shows the difference. As written, an owner creates a
      record with an 82-byte color and no delegate, and it is stored; the
      corrected program rejects the same create. Afterwards no delegate can
      be set on that record as written, and each attempt changes nothing. */
  lemma OversizedColorBlocksDelegate(owner: Pubkey, number: u64, key: Pubkey)
    ensures var addr := FavoritesAddress(owner);
            var color := seq(82, i => 0x61);
            var created := SetFavoritesAsWritten(map[], {owner}, owner, addr, number, color);
            && created.outcome == Ok
            && created.accounts[addr] == Favorites(number, color, None)
            && SetFavoritesStep(map[], {owner}, owner, addr, number, color).outcome == Fail(PayloadTooLarge)
            && SetAuthorityAsWritten(created.accounts, {owner}, owner, owner, addr, Some(key))
                 == StepResult(Fail(DidNotSerialize), created.accounts)
  {
    var addr := FavoritesAddress(owner);
    var color: seq<byte> := seq(82, i => 0x61);
    assert |color| == 82;
    assert FitsAccountSpace(Favorites(number, color, None));
    assert !FitsAccountSpace(Favorites(number, color, Some(key)));
  }

  // ---------------------------------------------------------------------------
  // Sequences of transactions as written

  /** What the program as written keeps: every account sits at an owner's
      favorites address and its record fits the allocated bytes. */
  ghost predicate AsWrittenInvariant(accounts: Accounts) {
    forall a | a in accounts :: IsFavoritesAddress(a) && FitsAccountSpace(accounts[a])
  }

  /** Runs one instruction as written. Like `Execute`, it succeeds only when
      `user` signed and `favorites` is `user`'s address, changes no other
      account and removes none; instead of the color bound it keeps
      `AsWrittenInvariant`. */
  function ExecuteAsWritten(accounts: Accounts, ix: Instruction): (r: StepResult)
    ensures r.outcome == Ok ==> ix.user in ix.signers && ix.favorites == FavoritesAddress(ix.user)
    ensures r.outcome != Ok ==> r.accounts == accounts
    ensures accounts.Keys <= r.accounts.Keys
    ensures forall a | a != ix.favorites :: Lookup(r.accounts, a) == Lookup(accounts, a)
    ensures AsWrittenInvariant(accounts) ==> AsWrittenInvariant(r.accounts)
  {
    match ix
    case SetFavoritesIx(signers, user, favorites, number, color) =>
      SetFavoritesAsWritten(accounts, signers, user, favorites, number, color)
    case UpdateFavoritesIx(signers, user, signer, favorites, number, color) =>
      UpdateFavoritesAsWritten(accounts, signers, user, signer, favorites, number, color)
    case SetAuthorityIx(signers, user, signer, favorites, delegate) =>
      SetAuthorityAsWritten(accounts, signers, user, signer, favorites, delegate)
  }

  /** The accounts after a sequence of transactions run as written. */
  function RunAsWritten(accounts: Accounts, ixs: seq<Instruction>): Accounts
    decreases |ixs|
  {
    if ixs == [] then accounts else RunAsWritten(ExecuteAsWritten(accounts, ixs[0]).accounts, ixs[1..])
  }

  /** Every state the program as written can reach keeps its records inside
      their accounts. */
  lemma {:induction false} RunAsWrittenPreservesInvariant(accounts: Accounts, ixs: seq<Instruction>)
    requires AsWrittenInvariant(accounts)
    ensures AsWrittenInvariant(RunAsWritten(accounts, ixs))
    decreases |ixs|
  {
    if ixs != [] {
      RunAsWrittenPreservesInvariant(ExecuteAsWritten(accounts, ixs[0]).accounts, ixs[1..]);
    }
  }

  /** The color bound is the stronger of the two invariants. */
  lemma StoreInvariantImpliesAsWritten(accounts: Accounts)
    requires StoreInvariant(accounts)
    ensures AsWrittenInvariant(accounts)
  {
    forall a | a in accounts
      ensures FitsAccountSpace(accounts[a])
    {
      WithinBoundIffFitsForEveryDelegate(accounts[a].number, accounts[a].color);
    }
  }

  /** A single create as written breaks the color bound on an empty store. */
  lemma AsWrittenBreaksStoreInvariant(owner: Pubkey, number: u64)
    ensures StoreInvariant(map[])
    ensures var created := SetFavoritesAsWritten(map[], {owner}, owner, FavoritesAddress(owner), number,
                                                 seq(82, i => 0x61));
            && AsWrittenInvariant(created.accounts)
            && !StoreInvariant(created.accounts)
  {
    var addr := FavoritesAddress(owner);
    var color: seq<byte> := seq(82, i => 0x61);
    assert |color| == 82;
    assert FitsAccountSpace(Favorites(number, color, None));
    var created := SetFavoritesAsWritten(map[], {owner}, owner, addr, number, color);
    assert addr in created.accounts && !WithinBound(created.accounts[addr].color);
  }

  /** The instruction writes only colors within the declared bound. */
  predicate ColorWithinBound(ix: Instruction) {
    !ix.SetAuthorityIx? ==> WithinBound(ix.color)
  }

  /** On a store within bound, an instruction whose color is within bound
      does the same as written and corrected. */
  lemma ExecuteAgreesWithinBound(accounts: Accounts, ix: Instruction)
    requires StoreInvariant(accounts)
    requires ColorWithinBound(ix)
    ensures ExecuteAsWritten(accounts, ix) == Execute(accounts, ix)
  {
    match ix
    case SetFavoritesIx(signers, user, favorites, number, color) =>
      SetFavoritesAgreesWithinBound(accounts, signers, user, favorites, number, color);
    case UpdateFavoritesIx(signers, user, signer, favorites, number, color) =>
      UpdateFavoritesAgreesWithinBound(accounts, signers, user, signer, favorites, number, color);
    case SetAuthorityIx(signers, user, signer, favorites, delegate) =>
      SetAuthorityAgreesOnValidStore(accounts, signers, user, signer, favorites, delegate);
  }

  /** A sequence of transactions whose colors are all within bound, started
      from a store within bound, ends in the same accounts as written and
      corrected; so every property proved of `Run` holds of the code for
      such sequences. */
  lemma {:induction false} RunAgreesWithinBound(accounts: Accounts, ixs: seq<Instruction>)
    requires StoreInvariant(accounts)
    requires forall i | 0 <= i < |ixs| :: ColorWithinBound(ixs[i])
    ensures RunAsWritten(accounts, ixs) == Run(accounts, ixs)
    decreases |ixs|
  {
    if ixs != [] {
      ExecuteAgreesWithinBound(accounts, ixs[0]);
      var next := Execute(accounts, ixs[0]).accounts;
      assert forall i | 0 <= i < |ixs[1..]| :: ColorWithinBound(ixs[1..][i]) by {
        forall i | 0 <= i < |ixs[1..]| ensures ColorWithinBound(ixs[1..][i]) {
          assert ixs[1..][i] == ixs[i + 1];
        }
      }
      RunAgreesWithinBound(next, ixs[1..]);
    }
  }
}
