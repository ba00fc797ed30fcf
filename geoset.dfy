/**
 * Scores of sorted-set members (geoset.go, with the SetScore interface of
 * set.go). A score is one of the interface's two implementations: a geo
 * score, ordered by its integer geohash only, or a regular float score
 * (normalset.go), which is context here and carried as a real. A
 * comparison between the two kinds is false both ways.
 *
 * The longitude and latitude of a geo score are floats; they are carried
 * as reals and take part in no comparison. The integer score is taken as
 * given: computing it from the coordinates is float arithmetic, not part
 * of this model, and its integer step is Geohash.Interleave.
 */
module GeoSet {
  import Decimal
  import opened Wrappers

  datatype SetScore =
    | GeoSetScore(longitude: real, latitude: real, score: int)
    | RegularSetScore(value: real)

  /** GeoSetScore.Less and RegularSetScore.Less: false against the other kind. */
  predicate Less(a: SetScore, b: SetScore) {
    match a
    case GeoSetScore(_, _, s) => b.GeoSetScore? && s < b.score
    case RegularSetScore(v) => b.RegularSetScore? && v < b.value
  }

  /** GeoSetScore.Equal and RegularSetScore.Equal: false against the other kind. */
  predicate Equal(a: SetScore, b: SetScore) {
    match a
    case GeoSetScore(_, _, s) => b.GeoSetScore? && s == b.score
    case RegularSetScore(v) => b.RegularSetScore? && v == b.value
  }

  predicate SameKind(a: SetScore, b: SetScore) {
    a.GeoSetScore? == b.GeoSetScore?
  }

  /** GeoSetScore.String: the integer score in decimal. */
  function String(s: SetScore): (r: string)
    requires s.GeoSetScore? && Decimal.InInt64(s.score)
    ensures Decimal.ParseInt(r) == Some(s.score)
  {
    Decimal.ParseIntOfItoa(s.score);
    Decimal.Itoa(s.score)
  }

  /** Between scores of one kind exactly one of a < b, a = b, b < a holds. */
  lemma Trichotomy(a: SetScore, b: SetScore)
    requires SameKind(a, b)
    ensures Less(a, b) || Equal(a, b) || Less(b, a)
    ensures !(Less(a, b) && Equal(a, b)) && !(Less(b, a) && Equal(a, b)) && !(Less(a, b) && Less(b, a))
  {
  }

  /** Across kinds every comparison is false. */
  lemma CrossKind(a: SetScore, b: SetScore)
    requires !SameKind(a, b)
    ensures !Less(a, b) && !Equal(a, b)
  {
  }

  /** Less is a strict order and Equal an equivalence. */
  lemma OrderLaws(a: SetScore, b: SetScore, c: SetScore)
    ensures !Less(a, a)
    ensures Less(a, b) && Less(b, c) ==> Less(a, c)
    ensures Equal(a, a)
    ensures Equal(a, b) ==> Equal(b, a)
    ensures Equal(a, b) && Equal(b, c) ==> Equal(a, c)
    ensures Equal(a, b) && Less(b, c) ==> Less(a, c)
    ensures Less(a, b) && Equal(b, c) ==> Less(a, c)
  {
  }

  /** Longitude and latitude never affect a comparison. */
  lemma CoordinatesIgnored(a: SetScore, b: SetScore, long: real, lat: real)
    requires a.GeoSetScore?
    ensures var a' := a.(longitude := long, latitude := lat);
            Less(a', b) == Less(a, b) && Less(b, a') == Less(b, a) && Equal(a', b) == Equal(a, b)
  {
  }
}
