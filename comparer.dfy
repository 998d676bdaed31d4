/**
 * `MuseumManagerComparer`: the order of the per-item museum lists of the
 * donatable cache. Null comes first, then the museums that override the item
 * description, then the rest; ties are broken by an ordinal comparison of the
 * museum Ids. A manager is seen through the two fields the comparer reads.
 */
module Comparer {
  import opened Wrappers

  /** What `Compare` reads of a manager: `MuseumData.OverrideDescription` and `MuseumData.Id`. */
  datatype MuseumKey = MuseumKey(overrideDescription: bool, id: string)

  /**
   * `String.Compare(a, b, StringComparison.Ordinal)`, reduced to its sign:
   * lexicographic on character codes, a proper prefix first.
   */
  function OrdinalCompare(a: string, b: string): (r: int)
    ensures -1 <= r <= 1
    decreases |a|
  {
    if |a| == 0 && |b| == 0 then 0
    else if |a| == 0 then -1
    else if |b| == 0 then 1
    else if a[0] < b[0] then -1
    else if a[0] > b[0] then 1
    else OrdinalCompare(a[1..], b[1..])
  }

  /** Ordinal comparison is 0 exactly on equal strings. */
  lemma {:induction false} OrdinalCompareZero(a: string, b: string)
    ensures OrdinalCompare(a, b) == 0 <==> a == b
    decreases |a|
  {
    if |a| > 0 && |b| > 0 && a[0] == b[0] {
      OrdinalCompareZero(a[1..], b[1..]);
      if a[1..] == b[1..] {
        assert a == [a[0]] + a[1..] && b == [b[0]] + b[1..];
      }
    }
  }

  /** Swapping the operands negates the comparison. */
  lemma {:induction false} OrdinalCompareAntisymmetric(a: string, b: string)
    ensures OrdinalCompare(a, b) == -OrdinalCompare(b, a)
    decreases |a|
  {
    if |a| > 0 && |b| > 0 && a[0] == b[0] {
      OrdinalCompareAntisymmetric(a[1..], b[1..]);
    }
  }

  /** "Sorts before" is transitive. */
  lemma {:induction false} OrdinalCompareTransitive(a: string, b: string, c: string)
    requires OrdinalCompare(a, b) < 0 && OrdinalCompare(b, c) < 0
    ensures OrdinalCompare(a, c) < 0
    decreases |a|
  {
    if |a| > 0 && |b| > 0 && |c| > 0 && a[0] == b[0] && b[0] == c[0] {
      OrdinalCompareTransitive(a[1..], b[1..], c[1..]);
    }
  }

  /** `MuseumManagerComparer.Compare`, where `None` is a null manager. */
  function Compare(x: Option<MuseumKey>, y: Option<MuseumKey>): int {
    match (x, y)
    case (None, None) => 0
    case (None, Some(_)) => -1
    case (Some(_), None) => 1
    case (Some(a), Some(b)) =>
      if a.overrideDescription && !b.overrideDescription then -1
      else if !a.overrideDescription && b.overrideDescription then 1
      else OrdinalCompare(a.id, b.id)
  }

  /** The cases of the comparer: null first, overriding museums next, then by Id. */
  lemma CompareCases(x: Option<MuseumKey>, y: Option<MuseumKey>)
    ensures x.None? && y.None? ==> Compare(x, y) == 0
    ensures x.None? && y.Some? ==> Compare(x, y) < 0
    ensures x.Some? && y.Some? && x.value.overrideDescription && !y.value.overrideDescription ==> Compare(x, y) < 0
    ensures x.Some? && y.Some? && x.value.overrideDescription == y.value.overrideDescription ==>
      (Compare(x, y) < 0 <==> OrdinalCompare(x.value.id, y.value.id) < 0)
      && (Compare(x, y) == 0 <==> x.value.id == y.value.id)
  {
    if x.Some? && y.Some? {
      OrdinalCompareZero(x.value.id, y.value.id);
    }
  }

  /** Antisymmetry: the comparison seen from the other side has the opposite sign. */
  lemma CompareAntisymmetric(x: Option<MuseumKey>, y: Option<MuseumKey>)
    ensures Compare(x, y) == -Compare(y, x)
  {
    if x.Some? && y.Some? {
      OrdinalCompareAntisymmetric(x.value.id, y.value.id);
    }
  }

  /** Two managers compare equal exactly when the comparer cannot tell them apart. */
  lemma CompareZeroIffSame(x: Option<MuseumKey>, y: Option<MuseumKey>)
    ensures Compare(x, y) == 0 <==> x == y
  {
    if x.Some? && y.Some? {
      OrdinalCompareZero(x.value.id, y.value.id);
    }
  }

  /** Transitivity: the comparer is a strict order, as a sorted list needs. */
  lemma CompareTransitive(x: Option<MuseumKey>, y: Option<MuseumKey>, z: Option<MuseumKey>)
    requires Compare(x, y) < 0 && Compare(y, z) < 0
    ensures Compare(x, z) < 0
  {
    if x.Some? && y.Some? && z.Some?
       && x.value.overrideDescription == y.value.overrideDescription == z.value.overrideDescription {
      OrdinalCompareTransitive(x.value.id, y.value.id, z.value.id);
    }
  }
}
