/** Who may change a favorites record: the guard `update_favorites` evaluates
    as it stands, and the intended owner-or-delegate rule `Authorized`, kept
    apart so that the two can be compared. */
module Authorization {
  import opened FavoritesTypes

  /** The guard of `update_favorites` as the handler computes it: `is_owner`
      is the constant `true`, and `is_delegate` compares the current delegate
      with the key of the `user` account (not of the `signer` account). The
      guard therefore never rejects. */
  function UpdateGuard(currentDelegate: Option<Pubkey>, userKey: Pubkey): (pass: bool)
    ensures pass
  {
    var isOwner := true;
    var isDelegate := currentDelegate == Some(userKey);
    isOwner || isDelegate
  }

  /** The intended owner-or-delegate rule: the owner, or the record's current
      delegate. */
  predicate Authorized(rec: Favorites, owner: Pubkey, requester: Pubkey) {
    requester == owner || rec.delegate == Some(requester)
  }

  /** Who may replace or clear the delegate: the owner alone, or also the
      current delegate. The program fixes neither. */
  datatype DelegationPolicy = OwnerOnly | OwnerOrDelegate

  predicate MayChangeDelegate(policy: DelegationPolicy, rec: Favorites, owner: Pubkey, requester: Pubkey) {
    match policy
    case OwnerOnly => requester == owner
    case OwnerOrDelegate => Authorized(rec, owner, requester)
  }

  /** The owner passes the owner-or-delegate rule and either delegation policy,
      whatever the delegate is. */
  lemma OwnerAlwaysAuthorized(rec: Favorites, owner: Pubkey)
    ensures Authorized(rec, owner, owner)
    ensures forall policy :: MayChangeDelegate(policy, rec, owner, owner)
  {
  }

  /** A delegate loses its rights as soon as it is removed or replaced, and
      anyone else than the owner is authorized only by being the delegate. */
  lemma AuthorizedFollowsCurrentDelegate(rec: Favorites, owner: Pubkey, requester: Pubkey)
    requires requester != owner
    ensures Authorized(rec, owner, requester) <==> rec.delegate == Some(requester)
    ensures !Authorized(rec.(delegate := None), owner, requester)
    ensures Authorized(rec.(delegate := Some(requester)), owner, requester)
  {
  }
}
