/**
 * `TokenBlacklistService`: the revoked JWTs of the client service, each kept with its
 * expiry instant until a sweep finds it expired. Instants are integers (for instance
 * seconds); `now` is a parameter of the sweep instead of a clock read.
 */
module Blacklist {

  /** The entries a sweep at `now` keeps: those whose expiry is not strictly before `now`. */
  function Unexpired(tokens: map<string, int>, now: int): (kept: map<string, int>)
  {
    map t | t in tokens && !(tokens[t] < now) :: tokens[t]
  }

  /** A sweep removes exactly the expired entries and leaves the others' expiries as they were. */
  lemma UnexpiredExactly(tokens: map<string, int>, now: int, t: string)
    ensures t in Unexpired(tokens, now) <==> t in tokens && tokens[t] >= now
    ensures t in Unexpired(tokens, now) ==> Unexpired(tokens, now)[t] == tokens[t]
  {
  }

  /** A sweep never adds entries, so the count never grows. */
  lemma UnexpiredShrinks(tokens: map<string, int>, now: int)
    ensures Unexpired(tokens, now).Keys <= tokens.Keys
    ensures |Unexpired(tokens, now)| <= |tokens|
  {
    var kept := Unexpired(tokens, now);
    assert kept.Keys <= tokens.Keys;
    SubsetSize(kept.Keys, tokens.Keys);
  }

  lemma {:induction false} SubsetSize<T>(a: set<T>, b: set<T>)
    requires a <= b
    ensures |a| <= |b|
    decreases b
  {
    if b != {} {
      var x :| x in b;
      SubsetSize(a - {x}, b - {x});
    }
  }

  /** A second sweep at the same instant removes nothing more. */
  lemma UnexpiredIdempotent(tokens: map<string, int>, now: int)
    ensures Unexpired(Unexpired(tokens, now), now) == Unexpired(tokens, now)
  {
  }

  /** A later sweep removes at least what an earlier one did. */
  lemma UnexpiredLater(tokens: map<string, int>, earlier: int, later: int)
    requires earlier <= later
    ensures Unexpired(tokens, later) == Unexpired(Unexpired(tokens, earlier), later)
    ensures Unexpired(tokens, later).Keys <= Unexpired(tokens, earlier).Keys
  {
  }

  /** A token revoked with an expiry at or after `now` is still revoked after the sweep. */
  lemma RevokedSurvivesSweep(tokens: map<string, int>, t: string, expiry: int, now: int)
    requires now <= expiry
    ensures t in Unexpired(tokens[t := expiry], now)
  {
  }

  /** Revoking adds one entry for a new token and none for a token already held. */
  lemma RevokeCount(tokens: map<string, int>, t: string, expiry: int)
    ensures t in tokens ==> |tokens[t := expiry]| == |tokens|
    ensures t !in tokens ==> |tokens[t := expiry]| == |tokens| + 1
  {
    if t in tokens {
      assert tokens[t := expiry].Keys == tokens.Keys;
    } else {
      assert tokens[t := expiry].Keys == tokens.Keys + {t};
    }
  }

  class TokenBlacklistService {
    /** `blacklistedTokens`: token to expiry instant. */
    var tokens: map<string, int>

    constructor ()
      ensures tokens == map[]
    {
      tokens := map[];
    }

    /** `revokeToken`: records the token, replacing the expiry of one already held. */
    method RevokeToken(token: string, expiry: int)
      modifies this
      ensures tokens == old(tokens)[token := expiry]
      ensures token in tokens
      ensures |tokens| == if token in old(tokens) then old(|tokens|) else old(|tokens|) + 1
    {
      RevokeCount(tokens, token, expiry);
      tokens := tokens[token := expiry];
    }

    /** `isTokenRevoked`: whether the token is held, read without changing anything. */
    method IsTokenRevoked(token: string) returns (revoked: bool)
      ensures revoked <==> token in tokens
    {
      revoked := token in tokens;
    }

    /**
     * `cleanupExpiredTokens`, run by the hourly timer: drops the entries expiring strictly
     * before `now` and reports how many it dropped.
     */
    method CleanupExpiredTokens(now: int) returns (removed: nat)
      modifies this
      ensures tokens == Unexpired(old(tokens), now)
      ensures removed == old(|tokens|) - |tokens|
    {
      var initialSize := |tokens|;
      UnexpiredShrinks(tokens, now);
      tokens := Unexpired(tokens, now);
      removed := initialSize - |tokens|;
    }

    /** `getBlacklistedTokensCount`: the number of distinct tokens held. */
    method GetBlacklistedTokensCount() returns (count: nat)
      ensures count == |tokens.Keys|
    {
      count := |tokens|;
    }

    /** `clearBlacklist`: drops every entry. */
    method ClearBlacklist()
      modifies this
      ensures tokens == map[]
      ensures |tokens| == 0 && forall t :: t !in tokens
    {
      tokens := map[];
    }
  }
}
