/**
 * The `Number` collection: the schema every stored ticket obeys and the store
 * operations the handlers use (`findOne({ value })`, `save()`, `find({})`).
 * An unsorted `find({})` returns the documents in the collection's natural
 * order, which MongoDB leaves unspecified; the model fixes it as insertion
 * order.
 */
module NumberModel {
  import opened Wrappers

  /** Bounds of a ticket value (`min` and `max` of the schema). */
  const MinValue := 10000
  const MaxValue := 99999

  predicate InRange(v: int) {
    MinValue <= v <= MaxValue
  }

  predicate Distinct(s: seq<int>) {
    forall i, j :: 0 <= i < j < |s| ==> s[i] != s[j]
  }

  /** How many distinct values the schema admits: 10000..99999. */
  const Capacity := MaxValue - MinValue + 1

  /** The schema's constraints over the whole collection: every value in range, no value twice. */
  predicate SchemaHolds(values: seq<int>) {
    && (forall i :: 0 <= i < |values| ==> InRange(values[i]))
    && Distinct(values)
  }

  /** Why `save()` refuses a document. */
  datatype SaveError =
    | ValueRequired  // "El número es obligatorio."
    | BelowMinimum
    | AboveMaximum
    | DuplicateKey   // the unique index on `value`

  /**
   * The check `save()` makes before writing a document with the given value:
   * the validators of the `value` path run first (required, then min, then
   * max), then the unique index is consulted.
   */
  function SaveCheck(value: Option<int>, values: seq<int>): (r: Option<SaveError>)
    ensures r == Some(ValueRequired) <==> value.None?
    ensures r == Some(BelowMinimum) <==> value.Some? && value.value < MinValue
    ensures r == Some(AboveMaximum) <==> value.Some? && value.value > MaxValue
    ensures r == Some(DuplicateKey) <==> value.Some? && InRange(value.value) && value.value in values
    ensures r.None? <==> value.Some? && InRange(value.value) && value.value !in values
  {
    match value
    case None => Some(ValueRequired)
    case Some(v) =>
      if v < MinValue then Some(BelowMinimum)
      else if v > MaxValue then Some(AboveMaximum)
      else if v in values then Some(DuplicateKey)
      else None
  }

  /** An accepted document keeps the whole collection within the schema. */
  lemma SaveCheckAccepts(value: Option<int>, values: seq<int>)
    ensures SaveCheck(value, values).None? && SchemaHolds(values) ==> SchemaHolds(values + [value.value])
  {
    if SaveCheck(value, values).None? && SchemaHolds(values) {
      var s := values + [value.value];
      forall i, j | 0 <= i < j < |s| ensures s[i] != s[j] {
        if j == |values| {
          assert s[i] == values[i];
        }
      }
    }
  }

  /** The values a sequence holds. */
  function Elements(values: seq<int>): set<int> {
    set x | x in values
  }

  lemma {:induction false} DistinctElements(values: seq<int>)
    requires Distinct(values)
    ensures |Elements(values)| == |values|
  {
    if values != [] {
      var t := values[1..];
      DistinctElements(t);
      assert Elements(values) == {values[0]} + Elements(t);
      assert values[0] !in Elements(t) by {
        forall i | 0 <= i < |t| ensures t[i] != values[0] {
          assert t[i] == values[i + 1];
        }
      }
    }
  }

  /** A set of integers within lo..hi has at most hi - lo + 1 members. */
  lemma {:induction false} IntervalBound(s: set<int>, lo: int, hi: int)
    requires forall x :: x in s ==> lo <= x <= hi
    ensures |s| <= if hi < lo then 0 else hi - lo + 1
    decreases hi - lo
  {
    if hi < lo {
      if s != {} {
        var x :| x in s;
        assert false;
      }
    } else {
      IntervalBound(s - {hi}, lo, hi - 1);
      if hi in s {
        assert s == (s - {hi}) + {hi};
      } else {
        assert s == s - {hi};
      }
    }
  }

  /**
   * The unique index together with `min` and `max` leaves room for at most
   * 90000 documents.
   */
  lemma CapacityBound(values: seq<int>)
    requires SchemaHolds(values)
    ensures |values| <= Capacity
  {
    DistinctElements(values);
    IntervalBound(Elements(values), MinValue, MaxValue);
  }

  /** A full collection holds every value the schema admits. */
  lemma FullCollection(values: seq<int>, v: int)
    requires SchemaHolds(values) && |values| == Capacity && InRange(v)
    ensures v in values
  {
    if v !in values {
      SaveCheckAccepts(Some(v), values);
      CapacityBound(values + [v]);
    }
  }

  /** The `Number` collection. */
  class NumberStore {
    var values: seq<int>

    ghost predicate Valid()
      reads this
    {
      SchemaHolds(values)
    }

    constructor ()
      ensures Valid() && values == []
    {
      values := [];
    }

    /** `NumberModel.findOne({ value: v })`, reduced to whether a document was found. */
    method FindOne(v: int) returns (found: bool)
      ensures found <==> v in values
    {
      found := v in values;
    }

    /** `new NumberModel({ value }).save()`: stores the document unless the schema refuses it. */
    method Save(value: Option<int>) returns (error: Option<SaveError>)
      requires Valid()
      modifies this
      ensures Valid()
      ensures error == SaveCheck(value, old(values))
      ensures error.None? ==> values == old(values) + [value.value]
      ensures error.Some? ==> values == old(values)
    {
      error := SaveCheck(value, values);
      SaveCheckAccepts(value, values);
      if error.None? {
        values := values + [value.value];
      }
    }

    /** `NumberModel.find({}).select('value -_id')`, mapped to the values, in insertion order. */
    method Find() returns (all: seq<int>)
      ensures all == values
    {
      all := values;
    }
  }
}
