/**
 * The validation conditions of validator/conditions.py: each one checks a
 * value against the value it was configured with and scores it 0.0 or 1.0.
 */
module Conditions {
  import opened Wrappers

  /** A condition's score: 0.0 (`Zero`) or 1.0 (`One`). */
  datatype Score = Zero | One

  datatype ConditionError = ConditionException

  /** An argument handed to a condition's constructor, by its Python type. */
  datatype Argument =
    | IntArg(i: int)
    | BoolArg(b: bool)   // `bool` is a subclass of `int`: True is 1, False is 0
    | OtherArg           // a string, a float, None, ...

  /** What `_check_for_header` is given: a `File` or anything else. */
  datatype Subject = FileSubject | OtherSubject

  // ---------------------------------------------------------------------------
  // HeaderContains

  predicate OccursAt(s: string, t: string, k: int) {
    0 <= k && k + |t| <= |s| && s[k..k + |t|] == t
  }

  /** `t in s` for strings, searching from position `from` on. */
  function ContainsFrom(s: string, t: string, from: nat): (b: bool)
    ensures b <==> exists k :: from <= k && OccursAt(s, t, k)
    decreases |s| - from
  {
    if from + |t| > |s| then false
    else if s[from..from + |t|] == t then assert OccursAt(s, t, from); true
    else
      var b := ContainsFrom(s, t, from + 1);
      assert (exists k :: from <= k && OccursAt(s, t, k)) ==> exists k :: from + 1 <= k && OccursAt(s, t, k);
      b
  }

  /** `t` is a substring of `s`. */
  ghost predicate Occurs(s: string, t: string) {
    exists k :: OccursAt(s, t, k)
  }

  function Contains(s: string, t: string): (b: bool)
    ensures b <==> Occurs(s, t)
  {
    ContainsFrom(s, t, 0)
  }

  datatype HeaderContains = HeaderContains(names: seq<string>)

  /** `_look_for_names`: 1.0 exactly when every configured name occurs in the header row. */
  function LookForNames(cond: HeaderContains, headerRow: string): (r: Score)
    ensures r == One <==> forall i :: 0 <= i < |cond.names| ==> Occurs(headerRow, cond.names[i])
  {
    if forall i :: 0 <= i < |cond.names| ==> Contains(headerRow, cond.names[i]) then One
    else
      Zero
  }

  /** With no names configured every header row scores 1.0; an empty name occurs in every row. */
  lemma LookForNamesVacuous(headerRow: string, names: seq<string>)
    requires forall i :: 0 <= i < |names| ==> names[i] == ""
    ensures LookForNames(HeaderContains(names), headerRow) == One
  {
    forall i | 0 <= i < |names|
      ensures Occurs(headerRow, names[i])
    {
      assert OccursAt(headerRow, names[i], 0);
    }
  }

  /** A name missing from the header row scores 0.0. */
  lemma LookForNamesMissing(headerRow: string, names: seq<string>, i: nat)
    requires i < |names| && |names[i]| > |headerRow|
    ensures LookForNames(HeaderContains(names), headerRow) == Zero
  {
  }

  // ---------------------------------------------------------------------------
  // HasHeader

  /** `_check_for_header`: a stub that scores every file 0.0 and refuses anything that is not a file. */
  function CheckForHeader(subject: Subject): (r: Result<Score, ConditionError>)
    ensures r.Err? <==> subject == OtherSubject
    ensures r != Ok(One)
  {
    if subject == OtherSubject then Err(ConditionException) else Ok(Zero)
  }

  // ---------------------------------------------------------------------------
  // FieldLength

  datatype FieldLength = FieldLength(limit: int)

  /** `FieldLength.__init__`: only an int (True counts as 1) greater than zero is accepted. */
  function NewFieldLength(arg: Argument): (r: Result<FieldLength, ConditionError>)
    ensures r.Ok? <==> (arg.IntArg? && arg.i > 0) || arg == BoolArg(true)
    ensures r.Ok? ==> r.value.limit > 0
    ensures arg.IntArg? && r.Ok? ==> r.value.limit == arg.i
  {
    match arg
    case IntArg(i) => if i > 0 then Ok(FieldLength(i)) else Err(ConditionException)
    case BoolArg(b) => if b then Ok(FieldLength(1)) else Err(ConditionException)
    case OtherArg => Err(ConditionException)
  }

  /** `_check_field_lengths`: 0.0 as soon as a field is longer than the limit, else 1.0. */
  method CheckFieldLengths(cond: FieldLength, rows: seq<seq<string>>) returns (r: Score)
    ensures r == One <==> forall i, j :: 0 <= i < |rows| && 0 <= j < |rows[i]| ==> |rows[i][j]| <= cond.limit
  {
    for i := 0 to |rows|
      invariant forall p, j :: 0 <= p < i && 0 <= j < |rows[p]| ==> |rows[p][j]| <= cond.limit
    {
      for j := 0 to |rows[i]|
        invariant forall q :: 0 <= q < j ==> |rows[i][q]| <= cond.limit
      {
        if |rows[i][j]| > cond.limit {
          return Zero;
        }
      }
    }
    return One;
  }

  // ---------------------------------------------------------------------------
  // RegularLineLength

  datatype RegularLineLength = RegularLineLength(expected: bool)

  /** `RegularLineLength.__init__`: only a bool is accepted. */
  function NewRegularLineLength(arg: Argument): (r: Result<RegularLineLength, ConditionError>)
    ensures r.Ok? <==> arg.BoolArg?
    ensures r.Ok? ==> r.value.expected == arg.b
  {
    if arg.BoolArg? then Ok(RegularLineLength(arg.b)) else Err(ConditionException)
  }

  /** At least one item, and all items of the same length. */
  predicate Regular(items: seq<seq<string>>) {
    |items| > 0 && forall i :: 0 <= i < |items| ==> |items[i]| == |items[0]|
  }

  /**
   * `_check_field_lengths`: gather the item lengths in a set and score 1.0
   * when "exactly one length" agrees with the expected bool.
   */
  method CheckLineLengths(cond: RegularLineLength, items: seq<seq<string>>) returns (r: Score)
    ensures r == One <==> (Regular(items) == cond.expected)
  {
    var lengths: set<nat> := {};
    for i := 0 to |items|
      invariant forall n :: n in lengths <==> exists p :: 0 <= p < i && |items[p]| == n
    {
      lengths := lengths + {|items[i]|};
    }
    SingleLengthIffRegular(items, lengths);
    r := if (|lengths| == 1) == cond.expected then One else Zero;
  }

  /** The set of item lengths has exactly one element just when the items are regular. */
  lemma SingleLengthIffRegular(items: seq<seq<string>>, lengths: set<nat>)
    requires forall n :: n in lengths <==> exists p :: 0 <= p < |items| && |items[p]| == n
    ensures |lengths| == 1 <==> Regular(items)
  {
    if Regular(items) {
      assert lengths == {|items[0]|};
    } else if |items| == 0 {
      assert lengths == {};
    } else {
      var p :| 0 <= p < |items| && |items[p]| != |items[0]|;
      var pair := {|items[0]|, |items[p]|};
      assert pair <= lengths;
      assert |pair| == 2;
      SubsetCardinality(pair, lengths);
    }
  }

  lemma SubsetCardinality(a: set<nat>, b: set<nat>)
    requires a <= b
    ensures |a| <= |b|
  {
    assert b == a + (b - a);
  }

  /** An empty list is not regular: it scores 1.0 only when irregular lines are expected. */
  method EmptyListScore(cond: RegularLineLength) returns (r: Score)
    ensures r == (if cond.expected then Zero else One)
  {
    r := CheckLineLengths(cond, []);
  }
}
