# Favorites record store

A Dafny model of the `favorites` Anchor program (Solana). The program keeps
one `Favorites` account per owner. The account holds a `u64` number, a color
string declared with at most 50 bytes, and an optional delegate key. Its
address is derived from the seeds `[b"favorites", owner]`. There are three
instructions:

- `set_favorites` creates the account (Anchor `init`) with the given number
  and color and no delegate.
- `update_favorites` overwrites number and color and keeps the delegate.
- `set_authority` sets or clears the delegate and keeps number and color.

The model has six modules:

- `FavoritesTypes` holds keys, addresses, the record and the errors.
- `AccountLayout` holds the account size and the color bound.
- `Authorization` holds the handler's guard as written and the intended
  owner-or-delegate rule `Authorized`.
- `FavoritesProgram` holds one pure step function per instruction. It also
  holds `FavoritesStore`, a class whose `accounts: map<Address, Favorites>`
  is updated in place by one method per handler; each method is proved equal
  to its step function.
- `AsWrittenProgram` holds the three instructions with the color check the
  code actually has: the record must serialise into the account once the
  handler has written it. It runs sequences of them (`RunAsWritten`) under the
  invariant the code keeps, that every record fits its account. It also holds
  lemmas stating where these agree with `FavoritesProgram` (every color within
  bound) and the input where they do not.
- `FavoritesProperties` holds lemmas over sequences of transactions and over
  repeated instructions, the tests' own steps, and a longer flow built from
  them.

Each instruction is its own transaction. It carries the set of keys that
signed it and the accounts it passes (`user`, `signer`, the favorites address).
The Anchor account checks are spelled out: `user` must sign, `signer` must
sign, the favorites account must be at the address derived from `user`,
`init` fails on an account in use, and a missing account fails to
deserialise. A failed transaction is undone as a whole, so every error leaves
all accounts unchanged.

### Where the code differs from the intended behaviour

The model follows the code, except for the color bound: see the last item
and Findings.

- The handler's guard `is_owner || is_delegate` never rejects, because
  `is_owner` is the constant `true`. Its `is_delegate` also compares the
  delegate with the `user` key, not with the `signer` account. `Unauthorized`
  is therefore never produced (`UpdateGuard`, `UpdateFavoritesStep`).
- What the code really checks is signatures. `user` must sign, and the record
  is found only at `user`'s derived address. So every update and every
  delegate change needs the owner's own signature.
  - This is never weaker than the owner-or-delegate rule `Authorized`:
    `ChangeIsBackedByAuthorizedSigner` and `NoChangeWithoutOwnerSignature`.
  - It is stricter for delegates. A delegate cannot update alone
    (`DelegateAloneIsRejected`). A removed delegate co-signing with the owner
    still succeeds (`RemovedDelegateCoSignStillSucceeds`).
- Who may change the delegate, the owner alone or also the delegate, is not
  settled by the program. Here it is the parameter `DelegationPolicy` (`OwnerOnly` or `OwnerOrDelegate`). The
  program's owner-signature requirement satisfies both policies.
- The intended errors are `AlreadyExists`, `NotFound`, `Unauthorized` and
  `PayloadTooLarge`. The model adds `MissingSignature` and `SeedsMismatch`,
  which the Anchor account checks raise. It also adds `DidNotSerialize`,
  Anchor's failure to write the account, which only the as-written functions
  produce.
- Colors over 50 characters are meant to be rejected. The code does not
  check this; see Findings. The model counts the bound in bytes of
  the UTF-8 encoding, as Rust's `String` does. It rejects longer colors before
  writing, and it is this corrected rule the store uses.

## Model

| member | source | states |
|---|---|---|
| `FavoritesTypes.FavoritesAddress` | practice-4/favorites/programs/favorites/src/lib.rs:27 | the favorites address is a function of the owner key alone and has the `[b"favorites", owner]` shape, from which the key reads back |
| `FavoritesTypes.OwnerOf` | practice-4/favorites/programs/favorites/src/lib.rs:48 | every favorites-shaped address is the derived address of exactly the owner it names |
| `FavoritesTypes.FavoritesAddressInjective` | practice-4/favorites/programs/favorites/src/lib.rs:27 | two owners share a favorites address only if they are the same key |
| `AccountLayout.FitsAccountSpaceLimit` | practice-4/favorites/programs/favorites/src/lib.rs:9-26 | the only check on `color` as written passes exactly when it is at most 50 bytes with a delegate, or at most 82 bytes without one |
| `AccountLayout.AsWrittenAcceptsOversizedColor` | practice-4/favorites/programs/favorites/src/lib.rs:12-26 | some record with no delegate and a color over the bound passes the serialisation check, and the same record with any delegate key fails it |
| `AccountLayout.WithinBoundIffFitsForEveryDelegate` | practice-4/favorites/programs/favorites/src/lib.rs:12-26 | a color is within the declared bound exactly when the record serialises into the allocated account whatever its delegate |
| `Authorization.UpdateGuard` | practice-4/favorites/programs/favorites/src/lib.rs:84-90 | the handler's guard (is_owner or is_delegate) passes for every delegate and every key |
| `Authorization.OwnerAlwaysAuthorized` | practice-4/favorites/programs/favorites/src/lib.rs:87 | the owner passes the owner-or-delegate rule and both delegation policies, whatever the delegate is |
| `Authorization.AuthorizedFollowsCurrentDelegate` | practice-4/favorites/programs/favorites/src/lib.rs:88 | anyone but the owner is authorized exactly when named as the current delegate, so clearing the delegate removes them and setting it admits them |
| `FavoritesProgram.SetFavoritesStep` | practice-4/favorites/programs/favorites/src/lib.rs:18-77 | create succeeds exactly when `user` signed, the address is `user`'s, no account is there and the color is within bound; then it stores exactly (number, color, no delegate) at that address and nothing else; an existing account gives `AlreadyExists`; an over-bound color on an otherwise valid create gives `PayloadTooLarge`; every error changes nothing |
| `FavoritesProgram.AccountsCheck` | practice-4/favorites/programs/favorites/src/lib.rs:37-54 | the `UpdateFavorites` accounts pass exactly when `user` and `signer` both signed and the favorites account exists at `user`'s address; an unsigned `user` or a missing account gives its own error |
| `FavoritesProgram.UpdateFavoritesStep` | practice-4/favorites/programs/favorites/src/lib.rs:79-97 | update succeeds exactly when the accounts check passes and the color is within bound, whatever the delegate; then only that record changes, to the new number and color with its delegate as before; it never fails with `Unauthorized`; every error changes nothing |
| `FavoritesProgram.SetAuthorityStep` | practice-4/favorites/programs/favorites/src/lib.rs:99-117 | set_authority succeeds exactly when the accounts check passes, sets the delegate to exactly the argument and keeps number and color; it has no error path on an account the check accepts; every error changes nothing |
| `FavoritesProgram.Execute` | practice-4/favorites/programs/favorites/src/lib.rs:57-118 | with the declared bound enforced, every instruction succeeds only when `user` signed and the address is `user`'s, changes no other address, never removes an account, and keeps the store invariant (colors within 50 bytes) |
| `FavoritesProgram.FavoritesStore.SetFavorites` | practice-4/favorites/programs/favorites/src/lib.rs:62-77 | the in-place handler's outcome and new accounts are those of `SetFavoritesStep`, and the store invariant is kept |
| `FavoritesProgram.FavoritesStore.UpdateFavorites` | practice-4/favorites/programs/favorites/src/lib.rs:79-97 | the in-place handler, with its literal guard, gives the outcome and accounts of `UpdateFavoritesStep` and keeps the store invariant |
| `FavoritesProgram.FavoritesStore.SetAuthority` | practice-4/favorites/programs/favorites/src/lib.rs:103-116 | the in-place handler's match on the delegate gives the outcome and accounts of `SetAuthorityStep` and keeps the store invariant |
| `AsWrittenProgram.SetFavoritesAsWritten` | practice-4/favorites/programs/favorites/src/lib.rs:62-77 | create as written succeeds exactly when `user` signed, the address is `user`'s, no account is there and the color is at most 82 bytes; then it stores exactly (number, color, no delegate); a longer color fails at serialisation; every error changes nothing |
| `AsWrittenProgram.UpdateFavoritesAsWritten` | practice-4/favorites/programs/favorites/src/lib.rs:79-97 | update as written succeeds exactly when the accounts check passes and the color fits beside the current delegate (82 bytes without one, 50 with one); then only the payload changes, the delegate is kept, and `Unauthorized` never occurs; a record that does not fit beside the current delegate fails with `DidNotSerialize` |
| `AsWrittenProgram.SetAuthorityAsWritten` | practice-4/favorites/programs/favorites/src/lib.rs:99-117 | set_authority as written succeeds exactly when the accounts check passes and the stored color fits beside the new delegate; a `Some` delegate on a color over 50 bytes fails at serialisation and changes nothing |
| `AsWrittenProgram.SetFavoritesAgreesWithinBound` | practice-4/favorites/programs/favorites/src/lib.rs:12-26 | for a color within 50 bytes, create as written and create with the declared bound give the same outcome and accounts |
| `AsWrittenProgram.UpdateFavoritesAgreesWithinBound` | practice-4/favorites/programs/favorites/src/lib.rs:12-26 | for a color within 50 bytes, update as written and update with the declared bound give the same outcome and accounts, whatever the delegate |
| `AsWrittenProgram.SetAuthorityAgreesOnValidStore` | practice-4/favorites/programs/favorites/src/lib.rs:103-116 | on a store whose colors are all within bound, set_authority as written and corrected give the same outcome and accounts |
| `AsWrittenProgram.OversizedColorBlocksDelegate` | practice-4/favorites/programs/favorites/src/lib.rs:12-26 | as written an 82-byte create with no delegate succeeds and stores the record, the corrected create rejects it with `PayloadTooLarge`, and a later `set_authority(Some(k))` on it fails and changes nothing |
| `AsWrittenProgram.ExecuteAsWritten` | practice-4/favorites/programs/favorites/src/lib.rs:57-118 | every instruction as written succeeds only when `user` signed and the address is `user`'s, changes no other address, never removes an account, and keeps every record within its account's bytes |
| `AsWrittenProgram.RunAsWrittenPreservesInvariant` | practice-4/favorites/programs/favorites/src/lib.rs:9-26 | as written, after any sequence of transactions every account sits at an owner's favorites address and its record fits the 103-byte account |
| `AsWrittenProgram.StoreInvariantImpliesAsWritten` | practice-4/favorites/programs/favorites/src/lib.rs:12-26 | a store whose colors are within 50 bytes also has every record fitting its account |
| `AsWrittenProgram.AsWrittenBreaksStoreInvariant` | practice-4/favorites/programs/favorites/src/lib.rs:62-77 | one create as written with an 82-byte color turns the empty store into one that fits its accounts but breaks the 50-byte color bound |
| `AsWrittenProgram.ExecuteAgreesWithinBound` | practice-4/favorites/programs/favorites/src/lib.rs:57-118 | on a store within bound, an instruction whose color is within bound gives the same outcome and accounts as written and corrected |
| `AsWrittenProgram.RunAgreesWithinBound` | practice-4/favorites/programs/favorites/src/lib.rs:57-118 | from a store within bound, a sequence of transactions whose colors are all within bound ends in the same accounts as written and corrected |
| `FavoritesProperties.RunPreservesInvariant` | practice-4/favorites/programs/favorites/src/lib.rs:23-30 | with the declared bound enforced, after any sequence of transactions every account sits at an owner's favorites address and holds a color within bound |
| `FavoritesProperties.RunNeverRemoves` | practice-4/favorites/programs/favorites/src/lib.rs:57-118 | no sequence of transactions removes an account |
| `FavoritesProperties.RecordExistsOnlyIfCreated` | practice-4/favorites/programs/favorites/src/lib.rs:23-29 | an owner's record that appears during a sequence of transactions was created by a `set_favorites` for that owner, signed by that owner, that succeeded in the state the earlier transactions left |
| `FavoritesProperties.CreatedRecordPersists` | practice-4/favorites/programs/favorites/src/lib.rs:72-75 | once a create succeeds, the owner's record exists after any later transactions |
| `FavoritesProperties.OtherOwnersUntouched` | practice-4/favorites/programs/favorites/src/lib.rs:47-50 | an instruction for one owner leaves every other owner's record as it was |
| `FavoritesProperties.NoChangeWithoutOwnerSignature` | practice-4/favorites/programs/favorites/src/lib.rs:40-50 | no instruction changes an owner's record unless the owner signed it |
| `FavoritesProperties.ChangeIsBackedByAuthorizedSigner` | practice-4/favorites/programs/favorites/src/lib.rs:84-90 | every successful update or delegate change has a signer that the owner-or-delegate rule authorizes, and, for delegate changes, one that either delegation policy accepts |
| `FavoritesProperties.DelegateAloneIsRejected` | practice-4/favorites/programs/favorites/src/lib.rs:40-50 | a delegate authorized by the owner-or-delegate rule cannot update the record without the owner's signature, whatever keys it passes, and the failure changes nothing |
| `FavoritesProperties.RemovedDelegateCoSignStillSucceeds` | practice-4/favorites/programs/favorites/src/lib.rs:85-90 | after the delegate is cleared, an update signed by the owner and the former delegate still succeeds, although the owner-or-delegate rule no longer authorizes that key |
| `FavoritesProperties.CreateTwiceFails` | practice-4/favorites/programs/favorites/src/lib.rs:23-29 | a second create for the same owner fails with `AlreadyExists` and leaves the record the first create stored |
| `FavoritesProperties.UpdateIdempotent` | practice-4/favorites/programs/favorites/src/lib.rs:92-95 | repeating an update gives the same outcome and accounts as doing it once |
| `FavoritesProperties.UpdatesOverwrite` | practice-4/favorites/tests/favorites.test.ts:77-128 | two sequential updates end in the state the second alone gives, when the second color is within bound |
| `FavoritesProperties.SetAuthorityLastWins` | practice-4/favorites/programs/favorites/src/lib.rs:105-116 | the last `set_authority` determines the delegate and the whole state, whatever the earlier one set |
| `FavoritesProperties.FieldsOwnedByTheirInstruction` | practice-4/favorites/programs/favorites/src/lib.rs:84-112 | an existing record stays, an update never changes any delegate, and `set_authority` never changes any number or color |
| `FavoritesProperties.SetAuthorityNeverFailsOnValidStore` | practice-4/favorites/programs/favorites/src/lib.rs:103-116 | when all colors are within bound, an owner-signed `set_authority` on an existing record succeeds, and the resulting record serialises into its account |
| `FavoritesProperties.TestsFlow` | practice-4/favorites/tests/favorites.test.ts:21-253 | the tests' steps with their values, run as written (create 23 "red", update 100 "black", update 23 "red", set delegate, clear it, set it again, update 300 "green" co-signed by the delegate), each succeed with the record the test reads back |
| `FavoritesProperties.DelegationScenario` | practice-4/favorites/tests/favorites.test.ts:77-253 | a flow built from the tests' steps plus two rejected calls (create, update, set delegate, co-signed update, a non-owner's update rejected with `MissingSignature`, delegate removal, a further update, a second create rejected with `AlreadyExists`) gives exactly the stated records and errors |

## Left out

- Program-derived address computation (SHA-256 of the seeds and program id, and the bump search). Addresses are their seeds, so the mapping is taken to be collision free.
- Signature verification. Each instruction carries the set of keys that verifiably signed it.
- Rent and lamport payment by `payer = user` for `init`, and the `system_program` account. These are runtime concerns with no effect on the record.
- `msg!` logging, the `declare_id!` program id, and `ANCHOR_DISCRIMINATOR_SIZE`. The discriminator only enters as 8 bytes of account size. The Borsh byte layout is modelled only by its length.
- Transaction size limits on the instruction data, and the UTF-8 validity of `color`. The model accepts any byte sequence as a color.
- Concurrency between transactions. Transactions are applied one at a time, each as a whole.
- Account-owner and discriminator checks on accounts not owned by this program. The store holds only this program's favorites accounts.
- The token and transfer command-line programs under `practice-2`. They are one-shot I/O over a client library, with no state of their own.
- `favorites.test.ts` over RPC. It is used only as the source of the scenario and overwrite lemmas.
- `FavoritesProgram.SetFavoritesStep`: uses the declared 50-byte bound in place of the exit-time serialisation check. It rejects 51 to 82-byte colors that the code stores; `AsWrittenProgram.SetFavoritesAsWritten` models the code's check.
- `FavoritesProgram.UpdateFavoritesStep`: uses the declared 50-byte bound in place of the exit-time serialisation check. It rejects 51 to 82-byte colors that the code writes when there is no delegate; `AsWrittenProgram.UpdateFavoritesAsWritten` models the code's check.
- `FavoritesProgram.SetAuthorityStep`: uses the declared bound, kept by the store invariant, in place of the exit-time serialisation check. It has no failure for a delegate on an over-bound color, which the code has; `AsWrittenProgram.SetAuthorityAsWritten` models it.
- `FavoritesProgram.Execute`, `FavoritesProperties.RunPreservesInvariant`: these run the corrected steps with the declared 50-byte bound. The code as written keeps only the weaker invariant that every record fits its 103-byte account; `AsWrittenProgram.ExecuteAsWritten` and `AsWrittenProgram.RunAsWrittenPreservesInvariant` state that, and `AsWrittenProgram.RunAgreesWithinBound` carries the corrected results over to sequences whose colors are within bound.
- `FavoritesProgram.FavoritesStore.SetFavorites`, `FavoritesProgram.FavoritesStore.UpdateFavorites`, `FavoritesProgram.FavoritesStore.SetAuthority`: these follow the three corrected step functions above, so they reject an over-bound color before writing. The in-place store does not reproduce the exit-time serialisation check; the `AsWrittenProgram` functions model it on values.

## Findings

| source | as written | input that shows it | evidently intended | confidence | as-written member | corrected member |
|---|---|---|---|---|---|---|
| practice-4/favorites/programs/favorites/src/lib.rs:12-26 | `#[max_len(50)]` only sizes the 103-byte account. A color is stopped only when the serialised record does not fit, which without a delegate allows 82 bytes | `set_favorites` with an 82-byte color is stored; a later `set_authority(Some(k))` on that record fails to serialise | every write of a color longer than 50 bytes is rejected, and a stored record can always take a delegate | medium; not executed; rests on Anchor serialising the account after the handler returns | `AsWrittenProgram.OversizedColorBlocksDelegate` | `AccountLayout.WithinBoundIffFitsForEveryDelegate` |
