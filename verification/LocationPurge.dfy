/** Purging location pings (backend/app/repositories/location.py:35-53). */
module LocationPurge {
  import opened Options

  /** `expires_at` is never null, `revoked_at` may be. Times are microseconds. */
  datatype Share = Share(expiresAt: int, revokedAt: Option<int>)

  datatype Ping = Ping(id: nat, shareId: nat)

  const HOUR: int := 3_600_000_000

  /** The share was revoked or ran out before the cutoff; a comparison with NULL is not true. */
  predicate Over(s: Share, cutoff: int) {
    (s.revokedAt.Some? && s.revokedAt.value < cutoff) || s.expiresAt < cutoff
  }

  predicate Expired(shares: map<nat, Share>, p: Ping, cutoff: int) {
    p.shareId in shares && Over(shares[p.shareId], cutoff)
  }

  function Purge(shares: map<nat, Share>, pings: seq<Ping>, cutoff: int): seq<Ping> {
    if pings == [] then []
    else
      var n := |pings| - 1;
      Purge(shares, pings[..n], cutoff) + (if Expired(shares, pings[n], cutoff) then [] else [pings[n]])
  }

  class LocationPingRepository {
    var shares: map<nat, Share>
    var pings: seq<Ping>

    /** Of every ping either all copies or none are kept, none exactly when its share was over
        `graceHours` ago; the kept ones stay in order, and the result is how many were expired. */
    method PurgeExpired(now: int, graceHours: int) returns (rowcount: nat)
      modifies this`pings
      ensures var cutoff := now - graceHours * HOUR;
              && (forall p :: multiset(pings)[p]
                              == if Expired(shares, p, cutoff) then 0 else multiset(old(pings))[p])
              && Subsequence(pings, old(pings))
              && rowcount == |ExpiredAt(shares, old(pings), cutoff)|
      ensures forall p :: p in pings <==>
                && p in old(pings)
                && !(p.shareId in shares
                     && var share, cutoff := shares[p.shareId], now - graceHours * 3_600_000_000;
                        (share.revokedAt.Some? && share.revokedAt.value < cutoff) || share.expiresAt < cutoff)
      ensures pings == Purge(shares, old(pings), now - graceHours * HOUR)
    {
      hide Purge, Expired, Subsequence, ExpiredAt;
      var cutoff := now - graceHours * HOUR;
      var kept := Purge(shares, pings, cutoff);
      PurgeKeepsOrder(shares, pings, cutoff);
      PurgeCounts(shares, pings, cutoff);
      forall p ensures multiset(kept)[p] == if Expired(shares, p, cutoff) then 0 else multiset(pings)[p] {
        PurgeKeepsCopies(shares, pings, cutoff, p);
      }
      forall p { PurgedIff(shares, pings, cutoff, p); }
      rowcount := |pings| - |kept|;
      pings := kept;
    }
  }

  /** The positions of the pings to delete. */
  function ExpiredAt(shares: map<nat, Share>, pings: seq<Ping>, cutoff: int): set<int> {
    set i | 0 <= i < |pings| && Expired(shares, pings[i], cutoff)
  }

  predicate Subsequence(a: seq<Ping>, b: seq<Ping>) {
    if a == [] then true
    else if b == [] then false
    else
      || (a[|a| - 1] == b[|b| - 1] && Subsequence(a[..|a| - 1], b[..|b| - 1]))
      || Subsequence(a, b[..|b| - 1])
  }

  lemma {:induction false} PurgeKeepsOrder(shares: map<nat, Share>, pings: seq<Ping>, cutoff: int)
    ensures Subsequence(Purge(shares, pings, cutoff), pings)
  {
    if pings != [] {
      var n := |pings| - 1;
      var rest := Purge(shares, pings[..n], cutoff);
      PurgeKeepsOrder(shares, pings[..n], cutoff);
      assert (rest + [pings[n]])[..|rest|] == rest && rest + [] == rest;
    }
  }

  lemma {:induction false} PurgeKeepsCopies(shares: map<nat, Share>, pings: seq<Ping>, cutoff: int, p: Ping)
    ensures multiset(Purge(shares, pings, cutoff))[p]
            == if Expired(shares, p, cutoff) then 0 else multiset(pings)[p]
  {
    hide Expired;
    if pings != [] {
      var n := |pings| - 1;
      PurgeKeepsCopies(shares, pings[..n], cutoff, p);
      assert pings == pings[..n] + [pings[n]];
      AppendCopies(pings[..n], pings[n], p);
      AppendCopies(Purge(shares, pings[..n], cutoff), pings[n], p);
      assert Purge(shares, pings[..n], cutoff) + [] == Purge(shares, pings[..n], cutoff);
    }
  }

  lemma AppendCopies(pings: seq<Ping>, last: Ping, p: Ping)
    ensures multiset(pings + [last])[p] == multiset(pings)[p] + (if last == p then 1 else 0)
  {
  }

  lemma {:induction false} PurgeCounts(shares: map<nat, Share>, pings: seq<Ping>, cutoff: int)
    ensures |Purge(shares, pings, cutoff)| + |ExpiredAt(shares, pings, cutoff)| == |pings|
  {
    hide Expired;
    if pings == [] {
      assert ExpiredAt(shares, pings, cutoff) == {};
    } else {
      var n := |pings| - 1;
      PurgeCounts(shares, pings[..n], cutoff);
      var before, after := ExpiredAt(shares, pings[..n], cutoff), ExpiredAt(shares, pings, cutoff);
      if Expired(shares, pings[n], cutoff) {
        assert after == before + {n};
      } else {
        assert after == before;
      }
    }
  }

  /** A ping goes if and only if its share was over before the cutoff. */
  lemma {:induction false} PurgedIff(shares: map<nat, Share>, pings: seq<Ping>, cutoff: int, p: Ping)
    ensures p in Purge(shares, pings, cutoff) <==>
              && p in pings
              && !(p.shareId in shares
                   && var share := shares[p.shareId];
                      (share.revokedAt.Some? && share.revokedAt.value < cutoff) || share.expiresAt < cutoff)
  {
    if pings != [] {
      var n := |pings| - 1;
      PurgedIff(shares, pings[..n], cutoff, p);
      assert pings == pings[..n] + [pings[n]];
    }
  }

  /** No share is deleted without its pings, and no expiry or revocation moves later or is undone. */
  predicate OnlyEndsSooner(before: map<nat, Share>, after: map<nat, Share>) {
    forall id <- before ::
      && id in after
      && after[id].expiresAt <= before[id].expiresAt
      && (before[id].revokedAt.Some? ==>
            after[id].revokedAt.Some? && after[id].revokedAt.value <= before[id].revokedAt.value)
  }

  lemma {:induction false} PurgeAppend(shares: map<nat, Share>, a: seq<Ping>, b: seq<Ping>, cutoff: int)
    ensures Purge(shares, a + b, cutoff) == Purge(shares, a, cutoff) + Purge(shares, b, cutoff)
  {
    if b == [] {
      assert a + b == a;
    } else {
      var n := |b| - 1;
      assert (a + b)[..|a| + n] == a + b[..n];
      PurgeAppend(shares, a, b[..n], cutoff);
    }
  }

  lemma {:induction false} PurgeTwice(before: map<nat, Share>, after: map<nat, Share>, pings: seq<Ping>,
                                      cutoff: int, cutoff': int)
    requires OnlyEndsSooner(before, after) && cutoff <= cutoff'
    ensures Purge(after, Purge(before, pings, cutoff), cutoff') == Purge(after, pings, cutoff')
  {
    if pings != [] {
      var n := |pings| - 1;
      var kept := Purge(before, pings[..n], cutoff);
      PurgeTwice(before, after, pings[..n], cutoff, cutoff');
      assert kept + [] == kept && (kept + [pings[n]])[..|kept|] == kept;
    }
  }

  /** Purging now and again later, with shares ending sooner and pings arriving in between, leaves
      what the later purge alone would have left. */
  lemma LaterPurgeSubsumes(before: map<nat, Share>, after: map<nat, Share>, pings: seq<Ping>, arrived: seq<Ping>,
                           cutoff: int, cutoff': int)
    requires OnlyEndsSooner(before, after) && cutoff <= cutoff'
    ensures Purge(after, Purge(before, pings, cutoff) + arrived, cutoff') == Purge(after, pings + arrived, cutoff')
  {
    PurgeAppend(after, Purge(before, pings, cutoff), arrived, cutoff');
    PurgeAppend(after, pings, arrived, cutoff');
    PurgeTwice(before, after, pings, cutoff, cutoff');
  }
}
