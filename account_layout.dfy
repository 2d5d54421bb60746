/** The size of a favorites account and what actually limits `color`.

    `#[derive(InitSpace)]` with `#[max_len(50)]` only computes how many bytes
    `init` allocates. Nothing checks the length of `color` when a handler
    writes it: after the handler returns, Anchor Borsh-serialises the record
    into the allocated bytes and fails the transaction (undoing it) when the
    record does not fit. `FitsAccountSpace` is that check as it stands;
    `WithinBound` is the declared bound, the one the rest of the model uses. */
module AccountLayout {
  import opened FavoritesTypes

  const ANCHOR_DISCRIMINATOR_SIZE: nat := 8

  /** `Favorites::INIT_SPACE`: the u64, the string's 4-byte length prefix and
      its 50 bytes, and the option tag with a 32-byte key. */
  const INIT_SPACE: nat := 8 + (4 + MAX_COLOR_LEN) + (1 + 32)

  /** The `space` given to `init`. */
  const ACCOUNT_SPACE: nat := ANCHOR_DISCRIMINATOR_SIZE + INIT_SPACE

  /** The bytes Borsh writes for a record, discriminator included: a `None`
      delegate takes one byte, a `Some` delegate thirty-three. */
  function SerializedSize(rec: Favorites): nat {
    ANCHOR_DISCRIMINATOR_SIZE + 8 + (4 + |rec.color|) + (if rec.delegate.Some? then 1 + 32 else 1)
  }

  /** As written: a record can be stored when its serialisation fits the
      account. */
  predicate FitsAccountSpace(rec: Favorites) {
    SerializedSize(rec) <= ACCOUNT_SPACE
  }

  /** As intended: `color` is at most `MAX_COLOR_LEN` bytes. */
  predicate WithinBound(color: seq<byte>) {
    |color| <= MAX_COLOR_LEN
  }

  /** The serialisation check accepts 32 more bytes of color when there is no
      delegate, because the unused key of the option is not written. */
  lemma FitsAccountSpaceLimit(rec: Favorites)
    ensures FitsAccountSpace(rec) <==>
              |rec.color| <= MAX_COLOR_LEN + (if rec.delegate.None? then 32 else 0)
  {
  }

  /** As written, a record with no delegate and an 82-byte color passes the
      serialisation check, and the same record with any delegate fails it.
      `AsWrittenProgram.OversizedColorBlocksDelegate` shows the handlers
      storing such a record and then failing to set a delegate on it. */
  lemma AsWrittenAcceptsOversizedColor()
    ensures exists rec: Favorites ::
              && rec.delegate == None
              && FitsAccountSpace(rec)
              && !WithinBound(rec.color)
              && forall key: Pubkey :: !FitsAccountSpace(rec.(delegate := Some(key)))
  {
    var rec := Favorites(0, seq(82, i => 0x61), None);
    assert FitsAccountSpace(rec) && !WithinBound(rec.color);
    assert forall key: Pubkey :: !FitsAccountSpace(rec.(delegate := Some(key)));
  }

  /** The declared bound is exactly the one under which the record can be
      serialised whatever its delegate is; so a record that respects it never
      fails at serialisation, and one that does not can be made to. */
  lemma WithinBoundIffFitsForEveryDelegate(number: u64, color: seq<byte>)
    ensures WithinBound(color) <==>
              forall d: Option<Pubkey> :: FitsAccountSpace(Favorites(number, color, d))
  {
    var key: Pubkey := seq(32, i => 0);
    assert FitsAccountSpace(Favorites(number, color, Some(key))) ==> WithinBound(color);
  }
}
