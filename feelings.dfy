/**
 * The poll's scale of emotions (pkg/db/db.go, `type Feeling int`).
 * A Feeling is any Go integer; only the four levels 0..3 name a sentiment,
 * and each level has the attribute name under which it is persisted.
 */
module Feelings {

  /** Go's `type Feeling int`: every integer is a Feeling value, valid or not. */
  type Feeling = int

  const VeryBad: Feeling := 0
  const Bad: Feeling := 1
  const Good: Feeling := 2
  const VeryGood: Feeling := 3

  /** The persisted attribute names of the four levels, in level order. */
  const FieldNames: seq<string> := ["very_bad", "bad", "good", "very_good"]

  /** The name `String` falls back to for a value outside the scale. */
  const Failure: string := "failure"

  /** A Feeling passes the range check of InsertPollResult. */
  predicate InRange(f: Feeling) {
    !(f < VeryBad || f > VeryGood)
  }

  /** `Feeling.String`: the attribute name of a level, "failure" for anything else. */
  function String(f: Feeling): (s: string)
    ensures InRange(f) ==> s == FieldNames[f]
    ensures !InRange(f) ==> s == Failure
  {
    if f == VeryBad then "very_bad"
    else if f == Bad then "bad"
    else if f == Good then "good"
    else if f == VeryGood then "very_good"
    else Failure
  }

  /** Distinct levels are stored under distinct attribute names. */
  lemma StringInjective(f: Feeling, g: Feeling)
    requires InRange(f) && InRange(g)
    ensures String(f) == String(g) <==> f == g
  {
    if f != g {
      assert String(f)[0] != String(g)[0] || |String(f)| != |String(g)|;
    }
  }

  /** `String` answers "failure" exactly off the scale, and "failure" names no level. */
  lemma StringFailsOnlyOffScale(f: Feeling)
    ensures String(f) == Failure <==> !InRange(f)
    ensures String(f) in FieldNames <==> InRange(f)
  {
    assert Failure !in FieldNames by {
      forall i | 0 <= i < |FieldNames| ensures FieldNames[i] != Failure {
        assert |FieldNames[i]| != |Failure|;
      }
    }
  }
}
