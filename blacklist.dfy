/**
 * TokenBlacklistService: the set of tokens revoked by logout. Its source is not
 * part of this model; it is modelled from its two call sites as an in-memory set.
 */
module TokenBlacklist {

  class TokenBlacklistService {
    var invalidated: set<string>

    constructor ()
      ensures invalidated == {}
    {
      invalidated := {};
    }

    /** `invalidateToken`: the token is revoked from now on; nothing else changes. */
    method InvalidateToken(token: string)
      modifies this
      ensures invalidated == old(invalidated) + {token}
    {
      invalidated := invalidated + {token};
    }

    /** `esteInvalid`: has the token been revoked? */
    predicate EsteInvalid(token: string)
      reads this
    {
      token in invalidated
    }
  }
}
