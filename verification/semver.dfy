/**
 * Version precedence as Semantic Versioning 2.0.0 section 11 defines it, which the query
 * coordinator uses to tell old query nodes apart: major, minor and patch compared numerically;
 * a version with pre-release identifiers precedes the same version without; pre-release
 * identifiers compared one by one, numeric ones by value and below alphanumeric ones, the
 * alphanumeric ones in ASCII order, a shorter list preceding a longer one it begins.
 * Build metadata plays no part in precedence and is not modelled.
 */
module Semver {

  datatype PreId = Numeric(n: nat) | Alpha(s: string)

  datatype Version = Version(major: nat, minor: nat, patch: nat, pre: seq<PreId>)

  /** -1, 0 or 1 as `a` is below, equal to or above `b`. */
  predicate IsSign(c: int) {
    c == -1 || c == 0 || c == 1
  }

  function CompareNat(a: nat, b: nat): (c: int)
    ensures IsSign(c) && (c == 0 <==> a == b) && (c < 0 <==> a < b)
  {
    if a < b then -1 else if a > b then 1 else 0
  }

  /** ASCII order of identifiers: the first differing character decides; a proper prefix comes first. */
  function CompareStr(a: string, b: string): (c: int)
    ensures IsSign(c) && (c == 0 <==> a == b)
    decreases |a|
  {
    if |a| == 0 && |b| == 0 then 0
    else if |a| == 0 then -1
    else if |b| == 0 then 1
    else if a[0] < b[0] then -1
    else if a[0] > b[0] then 1
    else
      var c := CompareStr(a[1..], b[1..]);
      assert a == [a[0]] + a[1..] && b == [b[0]] + b[1..];
      c
  }

  function ComparePreId(a: PreId, b: PreId): (c: int)
    ensures IsSign(c) && (c == 0 <==> a == b)
  {
    match (a, b)
    case (Numeric(x), Numeric(y)) => CompareNat(x, y)
    case (Numeric(_), Alpha(_)) => -1
    case (Alpha(_), Numeric(_)) => 1
    case (Alpha(x), Alpha(y)) => CompareStr(x, y)
  }

  /** Pre-release lists, identifier by identifier; a list that is a proper prefix of the other is lower. */
  function ComparePreIds(a: seq<PreId>, b: seq<PreId>): (c: int)
    ensures IsSign(c) && (c == 0 <==> a == b)
    decreases |a|
  {
    if |a| == 0 && |b| == 0 then 0
    else if |a| == 0 then -1
    else if |b| == 0 then 1
    else
      var head := ComparePreId(a[0], b[0]);
      if head != 0 then head
      else
        var c := ComparePreIds(a[1..], b[1..]);
        assert a == [a[0]] + a[1..] && b == [b[0]] + b[1..];
        c
  }

  /** `Version.Compare`. */
  function Compare(v: Version, o: Version): (c: int)
    ensures IsSign(c) && (c == 0 <==> v == o)
  {
    if v.major != o.major then CompareNat(v.major, o.major)
    else if v.minor != o.minor then CompareNat(v.minor, o.minor)
    else if v.patch != o.patch then CompareNat(v.patch, o.patch)
    else if |v.pre| == 0 && |o.pre| == 0 then 0
    else if |v.pre| == 0 then 1
    else if |o.pre| == 0 then -1
    else ComparePreIds(v.pre, o.pre)
  }

  /** `Version.LT`. */
  predicate Less(v: Version, o: Version) {
    Compare(v, o) < 0
  }

  lemma {:induction false} CompareStrAntisymmetric(a: string, b: string)
    ensures CompareStr(a, b) == -CompareStr(b, a)
    decreases |a|
  {
    if |a| > 0 && |b| > 0 && a[0] == b[0] {
      CompareStrAntisymmetric(a[1..], b[1..]);
    }
  }

  lemma {:induction false} ComparePreIdsAntisymmetric(a: seq<PreId>, b: seq<PreId>)
    ensures ComparePreIds(a, b) == -ComparePreIds(b, a)
    decreases |a|
  {
    if |a| > 0 && |b| > 0 {
      if a[0].Alpha? && b[0].Alpha? {
        CompareStrAntisymmetric(a[0].s, b[0].s);
      }
      if a[0] == b[0] {
        ComparePreIdsAntisymmetric(a[1..], b[1..]);
      }
    }
  }

  /** Swapping the operands flips the comparison. */
  lemma CompareAntisymmetric(v: Version, o: Version)
    ensures Compare(v, o) == -Compare(o, v)
  {
    if v.major == o.major && v.minor == o.minor && v.patch == o.patch && |v.pre| > 0 && |o.pre| > 0 {
      ComparePreIdsAntisymmetric(v.pre, o.pre);
    }
  }

  lemma {:induction false} CompareStrTransitive(a: string, b: string, c: string)
    requires CompareStr(a, b) < 0 && CompareStr(b, c) < 0
    ensures CompareStr(a, c) < 0
    decreases |a|
  {
    if |a| > 0 && a[0] == b[0] && b[0] == c[0] {
      CompareStrTransitive(a[1..], b[1..], c[1..]);
    }
  }

  lemma ComparePreIdTransitive(a: PreId, b: PreId, c: PreId)
    requires ComparePreId(a, b) < 0 && ComparePreId(b, c) < 0
    ensures ComparePreId(a, c) < 0
  {
    if a.Alpha? && b.Alpha? && c.Alpha? {
      CompareStrTransitive(a.s, b.s, c.s);
    }
  }

  lemma {:induction false} ComparePreIdsTransitive(a: seq<PreId>, b: seq<PreId>, c: seq<PreId>)
    requires ComparePreIds(a, b) < 0 && ComparePreIds(b, c) < 0
    ensures ComparePreIds(a, c) < 0
    decreases |a|
  {
    if |a| > 0 && |c| > 0 {
      var ab, bc := ComparePreId(a[0], b[0]), ComparePreId(b[0], c[0]);
      if ab == 0 && bc == 0 {
        ComparePreIdsTransitive(a[1..], b[1..], c[1..]);
      } else if ab < 0 && bc < 0 {
        ComparePreIdTransitive(a[0], b[0], c[0]);
      }
    }
  }

  /** Precedence is transitive. */
  lemma LessTransitive(u: Version, v: Version, w: Version)
    requires Less(u, v) && Less(v, w)
    ensures Less(u, w)
  {
    if u.major == w.major && u.minor == w.minor && u.patch == w.patch && |u.pre| > 0 && |v.pre| > 0 && |w.pre| > 0 {
      ComparePreIdsTransitive(u.pre, v.pre, w.pre);
    }
  }
}
