/** Token revocation: the process-wide set of logged-out tokens, and the
    profile endpoint that consults it. */
module Auth {
  import opened Wrappers
  import opened Entities
  import opened Ledger
  import opened Marketplace

  /** The revoked tokens. The set lives as long as the process and is shared
      by every request. */
  class Revocations {
    var blacklisted: set<string>

    constructor ()
      ensures blacklisted == {}
    {
      blacklisted := {};
    }

    /** `logout`: the token joins the revoked set; nothing else changes. */
    method Logout(token: string)
      modifies this
      ensures blacklisted == old(blacklisted) + {token}
    {
      blacklisted := blacklisted + {token};
    }

    /** `read_users_me`: 401 for a revoked token, for a token that does not
        decode, for a token whose subject is missing or empty, and for a
        subject naming no user; otherwise that user. `decode` yields `None`
        for a token that fails to decode and `Some(None)` for one without a
        subject. */
    function ReadUsersMe(token: string, store: Store, decode: string -> Option<Option<string>>): (r: Result<int>)
      reads this, store
      ensures token in blacklisted ==> r == Err(Unauthorized)
      ensures r.Err? ==> r.status == Unauthorized
      ensures r.Ok? <==>
        && token !in blacklisted
        && decode(token).Some? && decode(token).value.Some? && decode(token).value.value != ""
        && exists k :: k in store.users && store.users[k].email == decode(token).value.value
      ensures r.Ok? ==> r.value in store.users && decode(token) == Some(Some(store.users[r.value].email))
      ensures r.Ok? ==> store.GetCurrentUser(token, decode) == r
    {
      if token in blacklisted then Err(Unauthorized)
      else
        match decode(token)
        case None => Err(Unauthorized)
        case Some(sub) =>
          if sub.None? || sub.value == "" then Err(Unauthorized)
          else
            match UserWithEmail(store.users, sub.value)
            case None => Err(Unauthorized)
            case Some(k) => Ok(k)
    }
  }

  /** A revoked token still authenticates every endpoint that resolves the
      caller through `get_current_user`: only the profile endpoint refuses
      it. */
  lemma RevocationOnlyGuardsProfile(rev: Revocations, store: Store, token: string,
                                    decode: string -> Option<Option<string>>, k: int)
    requires token in rev.blacklisted
    requires k in store.users && decode(token) == Some(Some(store.users[k].email))
    ensures rev.ReadUsersMe(token, store, decode) == Err(Unauthorized)
    ensures store.GetCurrentUser(token, decode).Ok?
  {
    assert UserWithEmail(store.users, store.users[k].email).Some?;
  }
}
