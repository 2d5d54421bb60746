/** Value types of the favorites program: keys, program-derived account
    addresses, the `Favorites` account record and the errors an instruction
    can end with. */
module FavoritesTypes {

  newtype byte = x: int | 0 <= x < 0x100

  /** Rust's `u64`, the type of the favorite number. */
  newtype u64 = x: int | 0 <= x < 0x1_0000_0000_0000_0000

  /** An ed25519 public key: 32 bytes. */
  type Pubkey = k: seq<byte> | |k| == 32 witness seq(32, i => 0)

  datatype Option<T> = None | Some(value: T)

  /** `b"favorites"`, the first seed of every favorites account address. */
  const FAVORITES_SEED: seq<byte> := [0x66, 0x61, 0x76, 0x6f, 0x72, 0x69, 0x74, 0x65, 0x73]

  /** A program-derived address, identified by the seeds it is derived from.
      The runtime hashes the seeds with the program id and searches for a bump;
      here that mapping is taken to be collision free, so two addresses are
      equal exactly when their seeds are. */
  datatype Address = ProgramAddress(seeds: seq<seq<byte>>)

  /** The address shape `[b"favorites", user.key().as_ref()]`. */
  predicate IsFavoritesAddress(a: Address) {
    |a.seeds| == 2 && a.seeds[0] == FAVORITES_SEED && |a.seeds[1]| == 32
  }

  /** The address of `owner`'s favorites account: a function of the owner's
      key alone, from which the key can be read back. */
  function FavoritesAddress(owner: Pubkey): (a: Address)
    ensures IsFavoritesAddress(a) && a.seeds[1] == owner
  {
    ProgramAddress([FAVORITES_SEED, owner])
  }

  /** The owner a favorites address was derived from. */
  function OwnerOf(a: Address): (owner: Pubkey)
    requires IsFavoritesAddress(a)
    ensures FavoritesAddress(owner) == a
  {
    assert a.seeds == [a.seeds[0], a.seeds[1]];
    a.seeds[1]
  }

  /** Distinct owners have distinct favorites accounts. */
  lemma FavoritesAddressInjective(owner: Pubkey, other: Pubkey)
    ensures FavoritesAddress(owner) == FavoritesAddress(other) <==> owner == other
  {
  }

  /** The data of a favorites account. The owner is not stored: it is the
      key the account's address was derived from. */
  datatype Favorites = Favorites(number: u64, color: seq<byte>, delegate: Option<Pubkey>)

  /** `#[max_len(50)]` on `color`, counted in bytes of its UTF-8 encoding. */
  const MAX_COLOR_LEN: nat := 50

  datatype ProgramError =
    | MissingSignature  // a `Signer` or `#[account(signer)]` account did not sign
    | SeedsMismatch     // the favorites account is not at the address derived from `user`
    | AlreadyExists     // `init` on an account that is already in use
    | NotFound          // the favorites account is not initialised
    | Unauthorized      // `CustomError::Unauthorized`
    | PayloadTooLarge   // `color` is longer than its declared bound
    | DidNotSerialize   // the record written does not fit the account's bytes

  /** The result of one instruction: `Ok(())` or an error. */
  datatype Outcome = Ok | Fail(error: ProgramError)
}
