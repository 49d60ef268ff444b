/** `ping_player` (src/net/api.rs): fetch one player from the ranking service
    and derive the player's total match count from the per-rating counts. */
module Api {
  import opened Wrappers
  import opened Ints

  /** One entry of a player's `ratings`; only the optional `match_count` is
      read by the code being modelled. */
  datatype Rating = Rating(matchCount: Option<I64>)

  /** The service's `PlayerResponse`, reduced to the fields this core reads:
      the display name (logged by the puller) and the optional ratings list. */
  datatype PlayerResponse = PlayerResponse(name: string, ratings: Option<seq<Rating>>)

  /** The failure of one `player_id_get` call (network, not found, malformed). */
  datatype ApiError = ApiError(reason: string)

  /** What a rating adds to the total: its count, or 0 when absent. */
  function Contribution(r: Rating): I64
  {
    r.matchCount.UnwrapOr(0)
  }

  /** Reference definition: the exact sum of all contributions, on unbounded
      integers. */
  function TotalMatches(rs: seq<Rating>): int
  {
    if rs == [] then 0 else TotalMatches(rs[..|rs| - 1]) + Contribution(rs[|rs| - 1])
  }

  /** `.sum::<i64>()`: a left fold that adds each contribution to an `i64`
      accumulator starting at 0, wrapping on overflow. */
  function SumI64(rs: seq<Rating>): (r: I64)
    ensures (r - TotalMatches(rs)) % TWO_64 == 0
  {
    if rs == [] then 0
    else
      var acc := SumI64(rs[..|rs| - 1]);
      var c := Contribution(rs[|rs| - 1]);
      CongruentTrans(WrapI64(acc + c), acc + c, TotalMatches(rs));
      WrapI64(acc + c)
  }

  /** The match count `ping_player` derives from a response's ratings: the
      ratings flattened (an absent list contributes nothing), summed in `i64`
      and cast to `u64`. The result is the exact total reduced modulo 2^64. */
  function DeriveMatchCount(ratings: Option<seq<Rating>>): (r: U64)
    ensures ratings.None? ==> r == 0
    ensures r == TotalMatches(ratings.UnwrapOr([])) % TWO_64
  {
    var rs := ratings.UnwrapOr([]);
    SameResidue(SumI64(rs), TotalMatches(rs));
    AsU64(SumI64(rs))
  }

  /** `ping_player(uid)`: the service is asked for `uid as i64`; its failure is
      returned unchanged, its success yields the derived match count. */
  function PingPlayer(uid: U64, fetch: I64 -> Result<PlayerResponse, ApiError>): (r: Result<U64, ApiError>)
    ensures fetch(AsI64(uid)).Failure? ==> r == Failure(fetch(AsI64(uid)).error)
    ensures fetch(AsI64(uid)).Success? ==>
              r.Success? && r.value == TotalMatches(fetch(AsI64(uid)).value.ratings.UnwrapOr([])) % TWO_64
  {
    match fetch(AsI64(uid))
    case Failure(e) => Failure(e)
    case Success(player) => Success(DeriveMatchCount(player.ratings))
  }

  /** The total is additive over concatenation. */
  lemma {:induction false} TotalMatchesAppend(a: seq<Rating>, b: seq<Rating>)
    ensures TotalMatches(a + b) == TotalMatches(a) + TotalMatches(b)
    decreases |b|
  {
    if b == [] {
      assert a + b == a;
    } else {
      var b' := b[..|b| - 1];
      assert (a + b)[..|a + b| - 1] == a + b';
      assert (a + b)[|a + b| - 1] == b[|b| - 1];
      TotalMatchesAppend(a, b');
    }
  }

  /** A rating whose `match_count` is absent, wherever it appears, contributes
      exactly 0: the derived count is the same without it. */
  lemma AbsentCountContributesZero(before: seq<Rating>, after: seq<Rating>)
    ensures DeriveMatchCount(Some(before + [Rating(None)] + after))
         == DeriveMatchCount(Some(before + after))
  {
    TotalMatchesAppend(before + [Rating(None)], after);
    TotalMatchesAppend(before, [Rating(None)]);
    TotalMatchesAppend(before, after);
    assert TotalMatches([Rating(None)]) == 0 by {
      assert [Rating(None)][..0] == [];
    }
  }

  /** When every count is non-negative and the exact total fits in `i64`, the
      derived match count is exactly the sum of the present counts. */
  lemma DerivedIsExactWithoutOverflow(rs: seq<Rating>)
    requires 0 <= TotalMatches(rs) < TWO_63
    ensures DeriveMatchCount(Some(rs)) == TotalMatches(rs)
  {
    var t := TotalMatches(rs);
    assert DeriveMatchCount(Some(rs)) == t % TWO_64;
    assert t == 0 * TWO_64 + t;
  }

  /** The total does not depend on the order of the ratings. */
  lemma {:induction false} TotalMatchesPermutation(a: seq<Rating>, b: seq<Rating>)
    requires multiset(a) == multiset(b)
    ensures TotalMatches(a) == TotalMatches(b)
    decreases |a|
  {
    if a == [] {
      assert |b| == |multiset(b)| == 0;
    } else {
      var x := a[|a| - 1];
      var a' := a[..|a| - 1];
      assert x in multiset(b) by {
        assert a == a' + [x];
      }
      var k :| 0 <= k < |b| && b[k] == x;
      var b' := b[..k] + b[k + 1..];
      RemoveSameElement(a, b, k);
      TotalMatchesPermutation(a', b');
      TotalMatchesRemoveAt(b, k);
    }
  }

  /** Dropping the last element of `a` and an equal element of `b` keeps the
      two multisets equal. */
  lemma RemoveSameElement(a: seq<Rating>, b: seq<Rating>, k: nat)
    requires a != [] && k < |b| && b[k] == a[|a| - 1]
    requires multiset(a) == multiset(b)
    ensures multiset(a[..|a| - 1]) == multiset(b[..k] + b[k + 1..])
  {
    var x := b[k];
    assert a == a[..|a| - 1] + [x];
    assert b == b[..k] + [x] + b[k + 1..];
    assert multiset(a[..|a| - 1]) == multiset(a) - multiset{x};
    assert multiset(b[..k] + b[k + 1..]) == multiset(b) - multiset{x};
  }

  /** Removing the rating at position k takes away exactly its contribution. */
  lemma TotalMatchesRemoveAt(b: seq<Rating>, k: nat)
    requires k < |b|
    ensures TotalMatches(b) == TotalMatches(b[..k] + b[k + 1..]) + Contribution(b[k])
  {
    var x := b[k];
    assert b == b[..k] + [x] + b[k + 1..];
    TotalMatchesAppend(b[..k] + [x], b[k + 1..]);
    TotalMatchesAppend(b[..k], [x]);
    TotalMatchesAppend(b[..k], b[k + 1..]);
    assert TotalMatches([x]) == Contribution(x) by {
      assert [x][..0] == [];
    }
  }

  /** Reordering the ratings does not change the derived match count. */
  lemma DeriveMatchCountOrderIndependent(a: seq<Rating>, b: seq<Rating>)
    requires multiset(a) == multiset(b)
    ensures DeriveMatchCount(Some(a)) == DeriveMatchCount(Some(b))
  {
    TotalMatchesPermutation(a, b);
  }

  /** Appending a rating with count c increases the derived count by exactly
      c when nothing overflows. */
  lemma AppendRatingAddsCountExactly(rs: seq<Rating>, c: I64)
    requires 0 <= TotalMatches(rs) && 0 <= c && TotalMatches(rs) + c < TWO_63
    ensures DeriveMatchCount(Some(rs + [Rating(Some(c))])) == DeriveMatchCount(Some(rs)) + c
  {
    TotalAfterAppend(rs, c);
    DerivedIsExactWithoutOverflow(rs);
    DerivedIsExactWithoutOverflow(rs + [Rating(Some(c))]);
  }

  /** Appending a rating with count c adds c to the derived count, modulo
      2^64, whatever the counts. */
  lemma AppendRatingAddsCount(rs: seq<Rating>, c: I64)
    ensures DeriveMatchCount(Some(rs + [Rating(Some(c))]))
         == (DeriveMatchCount(Some(rs)) + c) % TWO_64
  {
    TotalAfterAppend(rs, c);
    var t := TotalMatches(rs);
    assert (t % TWO_64 + c) - (t + c) == 0 + (-(t / TWO_64)) * TWO_64;
    ModShift(0, -(t / TWO_64));
    SameResidue(t % TWO_64 + c, t + c);
  }

  /** One step of the fold: appending a rating with count c adds c. */
  lemma TotalAfterAppend(rs: seq<Rating>, c: I64)
    ensures TotalMatches(rs + [Rating(Some(c))]) == TotalMatches(rs) + c
  {
    var rs' := rs + [Rating(Some(c))];
    assert rs'[..|rs'| - 1] == rs;
  }

  /** Congruence modulo 2^64 is transitive. */
  lemma CongruentTrans(x: int, y: int, z: int)
    requires (x - y) % TWO_64 == 0 && (y - z) % TWO_64 == 0
    ensures (x - z) % TWO_64 == 0
  {
    var q1, q2 := (x - y) / TWO_64, (y - z) / TWO_64;
    assert x - y == q1 * TWO_64;
    assert y - z == q2 * TWO_64;
    assert x - z == 0 + (q1 + q2) * TWO_64;
    ModShift(0, q1 + q2);
  }

  /** Integers whose difference is a multiple of 2^64 have the same residue. */
  lemma SameResidue(x: int, t: int)
    requires (x - t) % TWO_64 == 0
    ensures x % TWO_64 == t % TWO_64
  {
    var q := (x - t) / TWO_64;
    assert x == t + q * TWO_64;
    ModShift(t, q);
  }

  /** Adding a multiple of 2^64 does not change the residue. */
  lemma {:induction false} ModShift(x: int, q: int)
    ensures (x + q * TWO_64) % TWO_64 == x % TWO_64
    decreases if q < 0 then -q else q
  {
    if q > 0 {
      ModShift(x, q - 1);
      assert x + q * TWO_64 == (x + (q - 1) * TWO_64) + TWO_64;
    } else if q < 0 {
      ModShift(x, q + 1);
      assert x + q * TWO_64 == (x + (q + 1) * TWO_64) - TWO_64;
    }
  }
}
