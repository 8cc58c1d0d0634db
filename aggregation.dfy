/** The per-key reduction rules of the data processor: the values one key took
    in the records that collapse onto one (paddock, year, namespace) group are
    reduced to a single value by a rule named in the configuration. */
module Aggregation {
  import opened FarmRecords

  const SumRule: string := "sum"
  const MeanRule: string := "mean"
  const DivideByPaddockCountRule: string := "divide_by_paddock_count"
  const FirstRule: string := "first"
  const MajorityRule: string := "majority"

  /** float(i) raises OverflowError exactly when |i| >= 2^1024 - 2^970, the point
      from which i rounds beyond the largest finite double. */
  const FloatOverflowBound: int := 0xfffffffffffffc00_0000000000000000_0000000000000000_0000000000000000_0000000000000000_0000000000000000_0000000000000000_0000000000000000_0000000000000000_0000000000000000_0000000000000000_0000000000000000_0000000000000000_0000000000000000_0000000000000000_0000000000000000

  predicate IsKnownRule(rule: string)
  {
    rule == SumRule || rule == MeanRule || rule == DivideByPaddockCountRule || rule == FirstRule || rule == MajorityRule
  }

  predicate IsNumericRule(rule: string)
  {
    rule == SumRule || rule == MeanRule || rule == DivideByPaddockCountRule
  }

  // ---------------------------------------------------------------------------
  // Python's view of the values
  // ---------------------------------------------------------------------------

  /** isinstance(v, (int, float)); a bool is an int in Python. */
  predicate IsNumeric(v: Value)
  {
    v.Int? || v.Real? || v.Bool?
  }

  /** The exact number a numeric value stands for (float(v) without rounding). */
  function NumberOf(v: Value): real
    requires IsNumeric(v)
  {
    match v
    case Int(i) => i as real
    case Real(r) => r
    case Bool(b) => if b then 1.0 else 0.0
  }

  /** float(v) raises OverflowError for this value. */
  predicate FloatOverflows(v: Value)
  {
    v.Int? && (v.i >= FloatOverflowBound || v.i <= -FloatOverflowBound)
  }

  /** Python's == between two values, under which 1 == 1.0 == True. */
  predicate PyEq(a: Value, b: Value)
  {
    if IsNumeric(a) && IsNumeric(b) then NumberOf(a) == NumberOf(b) else a == b
  }

  /** A value that Counter cannot hash (a nested list or dict). */
  predicate IsUnhashable(v: Value)
  {
    v.Compound?
  }

  // ---------------------------------------------------------------------------
  // The rule engine, step by step as the source evaluates it
  // ---------------------------------------------------------------------------

  /** The values with every None removed, in order. */
  function Clean(values: seq<Value>): seq<Value>
  {
    if values == [] then []
    else (if values[0] == Null then [] else [values[0]]) + Clean(values[1..])
  }

  /** float(v) for every int, float or bool among the values, in order. */
  function Floats(values: seq<Value>): seq<real>
  {
    if values == [] then []
    else (if IsNumeric(values[0]) then [NumberOf(values[0])] else []) + Floats(values[1..])
  }

  function Sum(xs: seq<real>): real
  {
    if xs == [] then 0.0 else xs[0] + Sum(xs[1..])
  }

  /** Python's sum() of floats: the int 0 when there is nothing to add. */
  function PySum(xs: seq<real>): Value
  {
    if xs == [] then Int(0) else Real(Sum(xs))
  }

  /** How many of xs are == v. */
  function CountLike(xs: seq<Value>, v: Value): nat
  {
    if xs == [] then 0 else (if PyEq(xs[0], v) then 1 else 0) + CountLike(xs[1..], v)
  }

  /** Scans xs from index i, keeping the earliest index whose value is the most frequent. */
  function MostCommonFrom(xs: seq<Value>, i: nat, best: nat): (k: nat)
    requires best < i <= |xs|
    ensures k < |xs|
    decreases |xs| - i
  {
    if i == |xs| then best
    else if CountLike(xs, xs[i]) > CountLike(xs, xs[best]) then MostCommonFrom(xs, i + 1, i)
    else MostCommonFrom(xs, i + 1, best)
  }

  /** Counter(xs).most_common(1)[0][0], as an index into xs. */
  function MostCommonIndex(xs: seq<Value>): (k: nat)
    requires xs != []
    ensures k < |xs|
  {
    MostCommonFrom(xs, 1, 0)
  }

  /** Evaluating the rule on the cleaned values raises inside the try block. */
  predicate Raises(clean: seq<Value>, rule: string)
  {
    || (IsNumericRule(rule) && exists i :: 0 <= i < |clean| && FloatOverflows(clean[i]))
    || (rule == MajorityRule && exists i :: 0 <= i < |clean| && IsUnhashable(clean[i]))
  }

  /** _apply_aggregation_rule: never raises; an unknown rule or a failure gives the first value. */
  function ApplyRule(values: seq<Value>, rule: string, paddockCount: int): Value
  {
    var clean := Clean(values);
    if clean == [] then Null
    else if Raises(clean, rule) then clean[0]
    else if rule == SumRule then PySum(Floats(clean))
    else if rule == MeanRule then
      var nums := Floats(clean);
      if nums == [] then Null else Real(Sum(nums) / |nums| as real)
    else if rule == DivideByPaddockCountRule then
      var nums := Floats(clean);
      if paddockCount > 0 then Real(Sum(nums) / paddockCount as real) else PySum(nums)
    else if rule == FirstRule then clean[0]
    else if rule == MajorityRule then clean[MostCommonIndex(clean)]
    else clean[0]
  }

  // ---------------------------------------------------------------------------
  // Reference definitions over the raw values
  // ---------------------------------------------------------------------------

  predicate AllNull(values: seq<Value>)
  {
    forall i :: 0 <= i < |values| ==> values[i] == Null
  }

  predicate AnyOverflow(values: seq<Value>)
  {
    exists i :: 0 <= i < |values| && FloatOverflows(values[i])
  }

  predicate AnyUnhashable(values: seq<Value>)
  {
    exists i :: 0 <= i < |values| && IsUnhashable(values[i])
  }

  /** The first value that is not None, or None when there is none. */
  function FirstNonNull(values: seq<Value>): Value
  {
    if values == [] then Null
    else if values[0] != Null then values[0]
    else FirstNonNull(values[1..])
  }

  /** The exact sum of the int, float and bool entries; every other entry adds nothing. */
  function NumericTotal(values: seq<Value>): real
  {
    if values == [] then 0.0
    else (if IsNumeric(values[0]) then NumberOf(values[0]) else 0.0) + NumericTotal(values[1..])
  }

  /** How many entries are int, float or bool. */
  function NumericCount(values: seq<Value>): nat
  {
    if values == [] then 0
    else (if IsNumeric(values[0]) then 1 else 0) + NumericCount(values[1..])
  }

  // ---------------------------------------------------------------------------
  // Lemmas
  // ---------------------------------------------------------------------------

  /** Removing None keeps exactly the other values, the first of them in front. */
  lemma {:induction false} CleanKeepsNonNull(values: seq<Value>)
    ensures Clean(values) == [] <==> AllNull(values)
    ensures Clean(values) != [] ==> Clean(values)[0] == FirstNonNull(values)
    ensures forall v :: v in Clean(values) <==> v in values && v != Null
  {
    if values != [] {
      CleanKeepsNonNull(values[1..]);
      assert values == [values[0]] + values[1..];
      if !AllNull(values[1..]) {
        var i :| 0 <= i < |values[1..]| && values[1..][i] != Null;
        assert values[i + 1] != Null;
      }
    }
  }

  /** The floats summed by the numeric rules add up to the numeric total of the raw values. */
  lemma {:induction false} FloatsOfClean(values: seq<Value>)
    ensures Sum(Floats(Clean(values))) == NumericTotal(values)
    ensures |Floats(Clean(values))| == NumericCount(values)
  {
    if values != [] {
      FloatsOfClean(values[1..]);
      var c := Clean(values);
      if values[0] != Null {
        assert c == [values[0]] + Clean(values[1..]);
        assert c[1..] == Clean(values[1..]);
        if IsNumeric(values[0]) {
          assert Floats(c) == [NumberOf(values[0])] + Floats(Clean(values[1..]));
        } else {
          assert Floats(c) == Floats(Clean(values[1..]));
        }
      } else {
        assert c == Clean(values[1..]);
      }
    }
  }

  /** FirstNonNull is the earliest value that is not None. */
  lemma {:induction false} FirstNonNullIsEarliest(values: seq<Value>)
    ensures FirstNonNull(values) == Null <==> AllNull(values)
    ensures FirstNonNull(values) != Null ==>
      exists k :: 0 <= k < |values| && values[k] == FirstNonNull(values) && forall j :: 0 <= j < k ==> values[j] == Null
  {
    if values != [] && values[0] == Null {
      FirstNonNullIsEarliest(values[1..]);
      if FirstNonNull(values) != Null {
        var k :| 0 <= k < |values[1..]| && values[1..][k] == FirstNonNull(values[1..])
                 && forall j :: 0 <= j < k ==> values[1..][j] == Null;
        assert values[k + 1] == FirstNonNull(values);
        assert forall j :: 0 <= j < k + 1 ==> values[j] == Null by {
          forall j | 0 <= j < k + 1 ensures values[j] == Null {
            if j > 0 { assert values[j] == values[1..][j - 1]; }
          }
        }
      }
      if !AllNull(values[1..]) {
        var i :| 0 <= i < |values[1..]| && values[1..][i] != Null;
        assert values[i + 1] != Null;
      }
    }
  }

  /** The numeric total of merged lists is the sum of their totals: merging adds contributions. */
  lemma {:induction false} NumericTotalAppend(a: seq<Value>, b: seq<Value>)
    ensures NumericTotal(a + b) == NumericTotal(a) + NumericTotal(b)
    ensures NumericCount(a + b) == NumericCount(a) + NumericCount(b)
  {
    if a == [] {
      assert a + b == b;
    } else {
      NumericTotalAppend(a[1..], b);
      assert (a + b)[1..] == a[1..] + b;
    }
  }

  lemma OverflowIsNotNull(values: seq<Value>)
    requires AnyOverflow(values)
    ensures exists i :: 0 <= i < |Clean(values)| && FloatOverflows(Clean(values)[i])
  {
    var i :| 0 <= i < |values| && FloatOverflows(values[i]);
    CleanKeepsNonNull(values);
    assert values[i] in Clean(values);
  }

  lemma UnhashableIsNotNull(values: seq<Value>)
    requires AnyUnhashable(values)
    ensures exists i :: 0 <= i < |Clean(values)| && IsUnhashable(Clean(values)[i])
  {
    var i :| 0 <= i < |values| && IsUnhashable(values[i]);
    CleanKeepsNonNull(values);
    assert values[i] in Clean(values);
  }

  lemma NoOverflowAfterCleaning(values: seq<Value>)
    requires !AnyOverflow(values)
    ensures !exists i :: 0 <= i < |Clean(values)| && FloatOverflows(Clean(values)[i])
  {
  }

  lemma NoUnhashableAfterCleaning(values: seq<Value>)
    requires !AnyUnhashable(values)
    ensures !exists i :: 0 <= i < |Clean(values)| && IsUnhashable(Clean(values)[i])
  {
  }

  /** Whatever the rule, a list of nothing but None gives None; and None comes out
      otherwise only from "mean" when no entry is numeric. */
  lemma NullResult(values: seq<Value>, rule: string, paddockCount: int)
    ensures ApplyRule(values, rule, paddockCount) == Null <==>
      AllNull(values) || (rule == MeanRule && NumericCount(values) == 0)
  {
    CleanKeepsNonNull(values);
    FloatsOfClean(values);
    var clean := Clean(values);
    if clean != [] {
      assert clean[0] in clean;
      if rule == MajorityRule && !Raises(clean, rule) {
        assert clean[MostCommonIndex(clean)] in clean;
      }
      if rule == MeanRule && Raises(clean, rule) {
        var i :| 0 <= i < |clean| && FloatOverflows(clean[i]);
        assert clean[i] in values;
        var k :| 0 <= k < |values| && values[k] == clean[i];
        NumericCountPositive(values, k);
      }
    }
  }

  lemma {:induction false} NumericCountPositive(values: seq<Value>, k: nat)
    requires k < |values| && IsNumeric(values[k])
    ensures NumericCount(values) > 0
  {
    if k > 0 {
      NumericCountPositive(values[1..], k - 1);
    }
  }

  /** "sum" adds the int, float and bool entries and ignores the rest; with no such
      entry it is Python's int 0, not the float 0.0. */
  lemma SumRuleAddsNumbers(values: seq<Value>, paddockCount: int)
    requires !AllNull(values) && !AnyOverflow(values)
    ensures ApplyRule(values, SumRule, paddockCount) ==
      if NumericCount(values) == 0 then Int(0) else Real(NumericTotal(values))
  {
    CleanKeepsNonNull(values);
    FloatsOfClean(values);
    NoOverflowAfterCleaning(values);
  }

  /** "mean" divides the numeric total by the number of numeric entries, and is None without any. */
  lemma MeanRuleAverages(values: seq<Value>, paddockCount: int)
    requires !AllNull(values) && !AnyOverflow(values)
    ensures ApplyRule(values, MeanRule, paddockCount) ==
      if NumericCount(values) == 0 then Null else Real(NumericTotal(values) / NumericCount(values) as real)
  {
    CleanKeepsNonNull(values);
    FloatsOfClean(values);
    NoOverflowAfterCleaning(values);
  }

  /** "divide_by_paddock_count" divides the numeric total by a positive paddock count,
      and is the plain "sum" otherwise. */
  lemma DivideRuleNormalises(values: seq<Value>, paddockCount: int)
    requires !AllNull(values) && !AnyOverflow(values)
    ensures paddockCount > 0 ==>
      ApplyRule(values, DivideByPaddockCountRule, paddockCount) == Real(NumericTotal(values) / paddockCount as real)
    ensures paddockCount <= 0 ==>
      ApplyRule(values, DivideByPaddockCountRule, paddockCount) == ApplyRule(values, SumRule, paddockCount)
  {
    CleanKeepsNonNull(values);
    FloatsOfClean(values);
    NoOverflowAfterCleaning(values);
  }

  /** "first" and every rule name the engine does not know give the first value that is not None. */
  lemma FirstRuleTakesFirst(values: seq<Value>, rule: string, paddockCount: int)
    requires rule == FirstRule || !IsKnownRule(rule)
    ensures ApplyRule(values, rule, paddockCount) == FirstNonNull(values)
  {
  }

  /** A numeric rule meeting an int too large for a float falls back to the first value. */
  lemma OverflowFallsBackToFirst(values: seq<Value>, rule: string, paddockCount: int)
    requires IsNumericRule(rule) && AnyOverflow(values)
    ensures ApplyRule(values, rule, paddockCount) == FirstNonNull(values)
  {
    CleanKeepsNonNull(values);
    OverflowIsNotNull(values);
  }

  /** "majority" over a nested list or dict cannot build its Counter and falls back to the first value. */
  lemma UnhashableMajorityFallsBack(values: seq<Value>, paddockCount: int)
    requires AnyUnhashable(values)
    ensures ApplyRule(values, MajorityRule, paddockCount) == FirstNonNull(values)
  {
    CleanKeepsNonNull(values);
    UnhashableIsNotNull(values);
  }

  /** The scan keeps the earliest index of highest count. */
  lemma {:induction false} MostCommonFromIsEarliestMaximum(xs: seq<Value>, i: nat, best: nat)
    requires best < i <= |xs|
    requires forall j :: 0 <= j < i ==> CountLike(xs, xs[j]) <= CountLike(xs, xs[best])
    requires forall j :: 0 <= j < best ==> CountLike(xs, xs[j]) < CountLike(xs, xs[best])
    ensures var k := MostCommonFrom(xs, i, best);
      && (forall j :: 0 <= j < |xs| ==> CountLike(xs, xs[j]) <= CountLike(xs, xs[k]))
      && (forall j :: 0 <= j < k ==> CountLike(xs, xs[j]) < CountLike(xs, xs[k]))
    decreases |xs| - i
  {
    if i < |xs| {
      if CountLike(xs, xs[i]) > CountLike(xs, xs[best]) {
        MostCommonFromIsEarliestMaximum(xs, i + 1, i);
      } else {
        MostCommonFromIsEarliestMaximum(xs, i + 1, best);
      }
    }
  }

  lemma {:induction false} CountLikeRespectsEq(xs: seq<Value>, a: Value, b: Value)
    requires PyEq(a, b)
    ensures CountLike(xs, a) == CountLike(xs, b)
  {
    if xs != [] {
      CountLikeRespectsEq(xs[1..], a, b);
    }
  }

  /** "majority" returns the most frequent value under Python ==; among equally frequent
      values the one seen first wins; and the value returned is the first occurrence of
      its kind, the key Counter keeps (so [1, True, True] gives the int 1). */
  lemma MajorityRulePicksMostCommon(values: seq<Value>, paddockCount: int)
    requires !AllNull(values) && !AnyUnhashable(values)
    ensures var clean := Clean(values);
      exists k :: 0 <= k < |clean| && ApplyRule(values, MajorityRule, paddockCount) == clean[k]
        && (forall j :: 0 <= j < |clean| ==> CountLike(clean, clean[j]) <= CountLike(clean, clean[k]))
        && (forall j :: 0 <= j < k ==> CountLike(clean, clean[j]) < CountLike(clean, clean[k]))
        && (forall j :: 0 <= j < k ==> !PyEq(clean[j], clean[k]))
  {
    CleanKeepsNonNull(values);
    NoUnhashableAfterCleaning(values);
    var clean := Clean(values);
    var k := MostCommonIndex(clean);
    MostCommonFromIsEarliestMaximum(clean, 1, 0);
    forall j | 0 <= j < k ensures !PyEq(clean[j], clean[k]) {
      if PyEq(clean[j], clean[k]) {
        CountLikeRespectsEq(clean, clean[j], clean[k]);
      }
    }
  }
}
