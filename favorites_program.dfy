/** The favorites program: its three instructions, each with the checks its
    accounts struct makes before the handler runs. Each instruction is one
    transaction; when it fails, the runtime undoes everything, so a failing
    instruction leaves every account as it was.

    The pure functions `SetFavoritesStep`, `UpdateFavoritesStep` and
    `SetAuthorityStep` state what an instruction does to the program's
    accounts; `FavoritesStore` holds those accounts and updates them in place,
    one method per handler, each proved to agree with its function. */
module FavoritesProgram {
  import opened FavoritesTypes
  import opened AccountLayout
  import opened Authorization

  /** The favorites accounts that exist, by address. */
  type Accounts = map<Address, Favorites>

  datatype StepResult = StepResult(outcome: Outcome, accounts: Accounts)

  function Lookup(accounts: Accounts, a: Address): Option<Favorites> {
    if a in accounts then Some(accounts[a]) else None
  }

  /** Every account of the program sits at some owner's favorites address and
      holds a color within its bound. */
  ghost predicate StoreInvariant(accounts: Accounts) {
    forall a | a in accounts :: IsFavoritesAddress(a) && WithinBound(accounts[a].color)
  }

  /** The one instruction that creates accounts. `user` must sign; `favorites`
      must be the address derived from `user`; `init` fails on an account in
      use; the new record holds the arguments and no delegate. */
  function SetFavoritesStep(accounts: Accounts, signers: set<Pubkey>, user: Pubkey, favorites: Address,
                            number: u64, color: seq<byte>): (r: StepResult)
    ensures r.outcome == Ok <==>
              && user in signers
              && favorites == FavoritesAddress(user)
              && favorites !in accounts
              && WithinBound(color)
    ensures r.outcome == Ok ==> r.accounts == accounts[FavoritesAddress(user) := Favorites(number, color, None)]
    ensures r.outcome != Ok ==> r.accounts == accounts
    ensures user !in signers ==> r.outcome == Fail(MissingSignature)
    ensures user in signers && favorites != FavoritesAddress(user) ==> r.outcome == Fail(SeedsMismatch)
    ensures user in signers && favorites == FavoritesAddress(user) && favorites in accounts ==>
              r.outcome == Fail(AlreadyExists)
    ensures user in signers && favorites == FavoritesAddress(user) && favorites !in accounts && !WithinBound(color) ==>
              r.outcome == Fail(PayloadTooLarge)
  {
    if user !in signers then StepResult(Fail(MissingSignature), accounts)
    else if favorites != FavoritesAddress(user) then StepResult(Fail(SeedsMismatch), accounts)
    else if favorites in accounts then StepResult(Fail(AlreadyExists), accounts)
    else if !WithinBound(color) then StepResult(Fail(PayloadTooLarge), accounts)
    else StepResult(Ok, accounts[favorites := Favorites(number, color, None)])
  }

  /** The checks of the `UpdateFavorites` accounts struct, in the order Anchor
      makes them: `user` is a `Signer`, the favorites account deserialises,
      the `signer` account signed, the favorites account is at the address
      derived from `user`. */
  function AccountsCheck(accounts: Accounts, signers: set<Pubkey>, user: Pubkey, signer: Pubkey,
                         favorites: Address): (r: Outcome)
    ensures r == Ok <==>
              user in signers && signer in signers && favorites == FavoritesAddress(user) && favorites in accounts
    ensures user !in signers ==> r == Fail(MissingSignature)
    ensures user in signers && favorites !in accounts ==> r == Fail(NotFound)
  {
    if user !in signers then Fail(MissingSignature)
    else if favorites !in accounts then Fail(NotFound)
    else if signer !in signers then Fail(MissingSignature)
    else if favorites != FavoritesAddress(user) then Fail(SeedsMismatch)
    else Ok
  }

  /** Overwrites the payload of an existing record and keeps its delegate.
      The handler's guard never rejects, so whether the update happens does
      not depend on the delegate at all. */
  function UpdateFavoritesStep(accounts: Accounts, signers: set<Pubkey>, user: Pubkey, signer: Pubkey,
                               favorites: Address, number: u64, color: seq<byte>): (r: StepResult)
    ensures r.outcome == Ok <==>
              && AccountsCheck(accounts, signers, user, signer, favorites) == Ok
              && WithinBound(color)
    ensures r.outcome == Ok ==>
              && favorites == FavoritesAddress(user)
              && favorites in accounts
              && r.accounts == accounts[favorites := Favorites(number, color, accounts[favorites].delegate)]
    ensures r.outcome != Ok ==> r.accounts == accounts
    ensures r.outcome != Fail(Unauthorized)
    ensures AccountsCheck(accounts, signers, user, signer, favorites) == Ok && !WithinBound(color) ==>
              r.outcome == Fail(PayloadTooLarge)
  {
    var check := AccountsCheck(accounts, signers, user, signer, favorites);
    if check.Fail? then StepResult(check, accounts)
    else
      var currentDelegate := accounts[favorites].delegate;
      if !UpdateGuard(currentDelegate, user) then StepResult(Fail(Unauthorized), accounts)
      else if !WithinBound(color) then StepResult(Fail(PayloadTooLarge), accounts)
      else StepResult(Ok, accounts[favorites := Favorites(number, color, currentDelegate)])
  }

  /** Sets the delegate of an existing record to exactly `delegate` (a key, or
      none) and keeps its payload. The handler makes no check of its own. */
  function SetAuthorityStep(accounts: Accounts, signers: set<Pubkey>, user: Pubkey, signer: Pubkey,
                            favorites: Address, delegate: Option<Pubkey>): (r: StepResult)
    ensures r.outcome == Ok <==> AccountsCheck(accounts, signers, user, signer, favorites) == Ok
    ensures r.outcome == Ok ==>
              && favorites == FavoritesAddress(user)
              && favorites in accounts
              && r.accounts == accounts[favorites := accounts[favorites].(delegate := delegate)]
    ensures r.outcome != Ok ==> r.accounts == accounts
  {
    var check := AccountsCheck(accounts, signers, user, signer, favorites);
    if check.Fail? then StepResult(check, accounts)
    else
      var rec := accounts[favorites];
      match delegate
      case Some(d) => StepResult(Ok, accounts[favorites := rec.(delegate := Some(d))])
      case None => StepResult(Ok, accounts[favorites := rec.(delegate := None)])
  }

  /** A transaction holding one instruction of the program, with the keys
      that signed it and the accounts it passes. */
  datatype Instruction =
    | SetFavoritesIx(signers: set<Pubkey>, user: Pubkey, favorites: Address, number: u64, color: seq<byte>)
    | UpdateFavoritesIx(signers: set<Pubkey>, user: Pubkey, signer: Pubkey, favorites: Address,
                        number: u64, color: seq<byte>)
    | SetAuthorityIx(signers: set<Pubkey>, user: Pubkey, signer: Pubkey, favorites: Address,
                     delegate: Option<Pubkey>)

  /** Runs one instruction with the declared color bound enforced. Whatever
      it is, it succeeds only when `user` signed and `favorites` is `user`'s
      address, it changes no account but that one, it never removes an
      account, and it keeps the store invariant. `ExecuteAsWritten` runs the
      instructions as the code has them. */
  function Execute(accounts: Accounts, ix: Instruction): (r: StepResult)
    ensures r.outcome == Ok ==> ix.user in ix.signers && ix.favorites == FavoritesAddress(ix.user)
    ensures r.outcome != Ok ==> r.accounts == accounts
    ensures accounts.Keys <= r.accounts.Keys
    ensures forall a | a != ix.favorites :: Lookup(r.accounts, a) == Lookup(accounts, a)
    ensures StoreInvariant(accounts) ==> StoreInvariant(r.accounts)
  {
    match ix
    case SetFavoritesIx(signers, user, favorites, number, color) =>
      SetFavoritesStep(accounts, signers, user, favorites, number, color)
    case UpdateFavoritesIx(signers, user, signer, favorites, number, color) =>
      UpdateFavoritesStep(accounts, signers, user, signer, favorites, number, color)
    case SetAuthorityIx(signers, user, signer, favorites, delegate) =>
      SetAuthorityStep(accounts, signers, user, signer, favorites, delegate)
  }

  /** The accounts after a sequence of transactions, one after the other. */
  function Run(accounts: Accounts, ixs: seq<Instruction>): Accounts
    decreases |ixs|
  {
    if ixs == [] then accounts else Run(Execute(accounts, ixs[0]).accounts, ixs[1..])
  }

  /** The program's accounts, changed in place by the instruction handlers. */
  class FavoritesStore {
    var accounts: Accounts

    ghost predicate Valid()
      reads this
    {
      StoreInvariant(accounts)
    }

    constructor ()
      ensures Valid() && accounts == map[]
    {
      accounts := map[];
    }

    /** `set_favorites` with the `SetFavorites` accounts. */
    method SetFavorites(signers: set<Pubkey>, user: Pubkey, favorites: Address, number: u64, color: seq<byte>)
      returns (outcome: Outcome)
      requires Valid()
      modifies this
      ensures Valid()
      ensures StepResult(outcome, accounts) == SetFavoritesStep(old(accounts), signers, user, favorites, number, color)
    {
      if user !in signers {
        return Fail(MissingSignature);
      }
      if favorites != FavoritesAddress(user) {
        return Fail(SeedsMismatch);
      }
      if favorites in accounts {
        return Fail(AlreadyExists);
      }
      if !WithinBound(color) {
        return Fail(PayloadTooLarge);
      }
      accounts := accounts[favorites := Favorites(number, color, None)];
      outcome := Ok;
    }

    /** `update_favorites` with the `UpdateFavorites` accounts. */
    method UpdateFavorites(signers: set<Pubkey>, user: Pubkey, signer: Pubkey, favorites: Address,
                           number: u64, color: seq<byte>)
      returns (outcome: Outcome)
      requires Valid()
      modifies this
      ensures Valid()
      ensures StepResult(outcome, accounts) ==
              UpdateFavoritesStep(old(accounts), signers, user, signer, favorites, number, color)
    {
      outcome := AccountsCheck(accounts, signers, user, signer, favorites);
      if outcome.Fail? {
        return;
      }
      var currentDelegate := accounts[favorites].delegate;
      var signerKey := user;
      var isOwner := true;
      var isDelegate := currentDelegate == Some(signerKey);
      if !(isOwner || isDelegate) {
        return Fail(Unauthorized);
      }
      if !WithinBound(color) {
        return Fail(PayloadTooLarge);
      }
      accounts := accounts[favorites := Favorites(number, color, currentDelegate)];
    }

    /** `set_authority` with the `UpdateFavorites` accounts. */
    method SetAuthority(signers: set<Pubkey>, user: Pubkey, signer: Pubkey, favorites: Address,
                        delegate: Option<Pubkey>)
      returns (outcome: Outcome)
      requires Valid()
      modifies this
      ensures Valid()
      ensures StepResult(outcome, accounts) ==
              SetAuthorityStep(old(accounts), signers, user, signer, favorites, delegate)
    {
      outcome := AccountsCheck(accounts, signers, user, signer, favorites);
      if outcome.Fail? {
        return;
      }
      var rec := accounts[favorites];
      match delegate {
        case Some(d) =>
          accounts := accounts[favorites := rec.(delegate := Some(d))];
        case None =>
          accounts := accounts[favorites := rec.(delegate := None)];
      }
    }
  }
}
