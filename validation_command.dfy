/**
 * The ordered registry of (property path, rule) items and its evaluator:
 * rules run one at a time in registration order, a rule is skipped once an
 * earlier rule for its path has reported an error, and the first error per
 * path is the one returned.
 */
module Commands {
  import opened Values

  /** A registered rule: when invoked it yields an error or none. */
  type Rule = () -> Task<Option<ErrorInfo>>

  datatype Item = Item(propertyName: string, func: Rule)

  /** Item i's rule reports an error if it is invoked. */
  predicate Fails(items: seq<Item>, i: int)
    requires 0 <= i < |items|
  {
    items[i].func().result.Some?
  }

  /** No item before i with the same path fails, so item i is not skipped. */
  predicate NoEarlierFailure(items: seq<Item>, i: int)
    requires 0 <= i < |items|
  {
    forall j :: 0 <= j < i && items[j].propertyName == items[i].propertyName ==> !Fails(items, j)
  }

  /** Item i produces the one error reported for its path. */
  predicate IsFirstFailure(items: seq<Item>, i: int)
    requires 0 <= i < |items|
  {
    Fails(items, i) && NoEarlierFailure(items, i)
  }

  /** The paths registered in `items`. */
  function Paths(items: seq<Item>): set<string>
  {
    set i | 0 <= i < |items| :: items[i].propertyName
  }

  /**
   * What a pass over the items has collected: the errors so far, the set of
   * paths already decided, and the indices of the items whose rule ran.
   */
  datatype Pass = Pass(errors: seq<ErrorInfo>, decided: set<string>, invoked: seq<nat>)

  /** The pass after the first n items. */
  function Evaluate(items: seq<Item>, n: nat): Pass
    requires n <= |items|
  {
    if n == 0 then Pass([], {}, [])
    else
      var p := Evaluate(items, n - 1);
      var item := items[n - 1];
      if item.propertyName in p.decided then p
      else
        var errorInfo := item.func().result;
        if errorInfo.None? then p.(invoked := p.invoked + [n - 1])
        else Pass(p.errors + [errorInfo.value], p.decided + {item.propertyName}, p.invoked + [n - 1])
  }

  /** The pass over all items: what Validate returns. */
  function Outcome(items: seq<Item>): Pass
  {
    Evaluate(items, |items|)
  }

  /**
   * The indices below n of the items that produce their path's error, in
   * ascending order.
   */
  function FirstFailures(items: seq<Item>, n: nat): (r: seq<nat>)
    requires n <= |items|
    ensures forall a, b :: 0 <= a < b < |r| ==> r[a] < r[b]
    ensures forall k :: 0 <= k < |r| ==> r[k] < n && IsFirstFailure(items, r[k])
    ensures forall i :: 0 <= i < n && IsFirstFailure(items, i) ==> i in r
  {
    if n == 0 then []
    else FirstFailures(items, n - 1) + (if IsFirstFailure(items, n - 1) then [n - 1] else [])
  }

  /** A path is decided exactly when some item for it, among the first n, fails. */
  lemma {:induction false} EvaluateDecided(items: seq<Item>, n: nat)
    requires n <= |items|
    ensures forall path :: path in Evaluate(items, n).decided <==>
              exists j :: 0 <= j < n && items[j].propertyName == path && Fails(items, j)
  {
    if n > 0 {
      EvaluateDecided(items, n - 1);
    }
  }

  /**
   * An item's rule is invoked exactly when no earlier item for the same path
   * failed, and the invoked indices are listed in registration order.
   */
  lemma {:induction false} EvaluateInvoked(items: seq<Item>, n: nat)
    requires n <= |items|
    ensures forall k :: k in Evaluate(items, n).invoked <==> 0 <= k < n && NoEarlierFailure(items, k)
    ensures forall a, b :: 0 <= a < b < |Evaluate(items, n).invoked| ==>
              Evaluate(items, n).invoked[a] < Evaluate(items, n).invoked[b]
  {
    if n > 0 {
      var before := Evaluate(items, n - 1).invoked;
      EvaluateInvoked(items, n - 1);
      EvaluateDecided(items, n - 1);
      assert forall a :: 0 <= a < |before| ==> before[a] < n - 1 by {
        forall a | 0 <= a < |before| ensures before[a] < n - 1 {
          assert before[a] in before;
        }
      }
    }
  }

  /**
   * The errors are those of the first failures, one per failing path, in
   * the order of the items that produced them.
   */
  lemma {:induction false} EvaluateErrors(items: seq<Item>, n: nat)
    requires n <= |items|
    ensures |Evaluate(items, n).errors| == |FirstFailures(items, n)|
    ensures forall k :: 0 <= k < |Evaluate(items, n).errors| ==>
              Some(Evaluate(items, n).errors[k]) == items[FirstFailures(items, n)[k]].func().result
  {
    if n > 0 {
      EvaluateErrors(items, n - 1);
      EvaluateDecided(items, n - 1);
    }
  }

  /** Each error adds a path that was not decided before. */
  lemma {:induction false} EvaluateCounts(items: seq<Item>, n: nat)
    requires n <= |items|
    ensures |Evaluate(items, n).errors| == |Evaluate(items, n).decided|
  {
    if n > 0 {
      EvaluateCounts(items, n - 1);
    }
  }

  lemma {:induction false} SubsetCard<T>(a: set<T>, b: set<T>)
    requires a <= b
    ensures |a| <= |b|
    decreases |a|
  {
    if a != {} {
      var x :| x in a;
      SubsetCard(a - {x}, b - {x});
    }
  }

  lemma {:induction false} PathsBound(items: seq<Item>)
    ensures |Paths(items)| <= |items|
  {
    if items != [] {
      var init := items[..|items| - 1];
      PathsBound(init);
      assert Paths(items) == Paths(init) + {items[|items| - 1].propertyName} by {
        assert forall i :: 0 <= i < |init| ==> init[i] == items[i];
      }
    }
  }

  /** The first failures have pairwise different paths. */
  lemma OneFirstFailurePerPath(items: seq<Item>, n: nat)
    requires n <= |items|
    ensures forall a, b :: 0 <= a < b < |FirstFailures(items, n)| ==>
              items[FirstFailures(items, n)[a]].propertyName != items[FirstFailures(items, n)[b]].propertyName
  {
  }

  /**
   * At most one error per registered path: there are no more errors than
   * distinct paths, and no more distinct paths than items.
   */
  lemma ErrorCountBound(items: seq<Item>)
    ensures |Outcome(items).errors| <= |Paths(items)| <= |items|
  {
    EvaluateCounts(items, |items|);
    EvaluateDecided(items, |items|);
    SubsetCard(Outcome(items).decided, Paths(items));
    PathsBound(items);
  }

  /** Validate reports no error exactly when no registered rule fails. */
  lemma NoErrorsIffNoFailure(items: seq<Item>)
    ensures Outcome(items).errors == [] <==> forall i :: 0 <= i < |items| ==> !Fails(items, i)
  {
    EvaluateCounts(items, |items|);
    EvaluateDecided(items, |items|);
    if exists i :: 0 <= i < |items| && Fails(items, i) {
      var i :| 0 <= i < |items| && Fails(items, i);
      assert items[i].propertyName in Outcome(items).decided;
    }
  }

  /** Once an item for a path fails, no later rule for that path is invoked. */
  lemma FailureSkipsLaterRules(items: seq<Item>, i: nat, j: nat)
    requires i < j < |items| && items[i].propertyName == items[j].propertyName && Fails(items, i)
    ensures j !in Outcome(items).invoked
  {
    EvaluateInvoked(items, |items|);
  }

  /**
   * A rule that fails after every earlier rule for its path passed has its
   * error reported.
   */
  lemma LaterFailureReported(items: seq<Item>, j: nat)
    requires j < |items| && IsFirstFailure(items, j)
    ensures exists k :: 0 <= k < |Outcome(items).errors| && Some(Outcome(items).errors[k]) == items[j].func().result
  {
    EvaluateErrors(items, |items|);
    var ff := FirstFailures(items, |items|);
    var k :| 0 <= k < |ff| && ff[k] == j;
    assert Some(Outcome(items).errors[k]) == items[j].func().result;
  }

  /** A single registered rule: its error, if any, is the whole result. */
  lemma OutcomeOfOne(items: seq<Item>)
    requires |items| == 1
    ensures Outcome(items).errors == if Fails(items, 0) then [items[0].func().result.value] else []
  {
    assert Evaluate(items, 0) == Pass([], {}, []);
  }

  /**
   * Two registered rules: the second one's error is reported unless the
   * first one failed under the same path.
   */
  lemma OutcomeOfTwo(items: seq<Item>)
    requires |items| == 2
    ensures Outcome(items).errors
         == (if Fails(items, 0) then [items[0].func().result.value] else [])
            + (if Fails(items, 1) && !(Fails(items, 0) && items[0].propertyName == items[1].propertyName)
               then [items[1].func().result.value] else [])
    ensures Outcome(items).invoked
         == [0] + (if Fails(items, 0) && items[0].propertyName == items[1].propertyName then [] else [1])
  {
    var p0 := Evaluate(items, 0);
    assert p0 == Pass([], {}, []);
    var p1 := Evaluate(items, 1);
    assert p1 == if Fails(items, 0) then Pass([items[0].func().result.value], {items[0].propertyName}, [0])
                 else Pass([], {}, [0]);
    assert items[1].propertyName in p1.decided <==> Fails(items, 0) && items[0].propertyName == items[1].propertyName;
  }

  /** `after` is `before` with one item for `path` appended whose rule yields `outcome`. */
  ghost predicate Appended(before: seq<Item>, after: seq<Item>, path: string, outcome: Option<ErrorInfo>)
  {
    |after| == |before| + 1 && after[..|before|] == before
    && after[|before|].propertyName == path && after[|before|].func() == FromResult(outcome)
  }

  /** Every error a rule can produce names the path the rule is registered under. */
  predicate KeyedByPath(items: seq<Item>)
  {
    forall i :: 0 <= i < |items| && Fails(items, i) ==>
      items[i].func().result.value.propertyName == items[i].propertyName
  }

  lemma KeyedByPathAppended(before: seq<Item>, after: seq<Item>, path: string, outcome: Option<ErrorInfo>)
    requires KeyedByPath(before) && Appended(before, after, path, outcome)
    requires outcome.Some? ==> outcome.value.propertyName == path
    ensures KeyedByPath(after)
  {
    forall i | 0 <= i < |after| && Fails(after, i)
      ensures after[i].func().result.value.propertyName == after[i].propertyName
    {
      if i < |before| {
        assert after[i] == after[..|before|][i];
      }
    }
  }

  /**
   * When rules report errors under their own path, the errors Validate
   * returns name pairwise different paths.
   */
  lemma ErrorPathsDistinct(items: seq<Item>)
    requires KeyedByPath(items)
    ensures forall a, b :: 0 <= a < b < |Outcome(items).errors| ==>
              Outcome(items).errors[a].propertyName != Outcome(items).errors[b].propertyName
  {
    EvaluateErrors(items, |items|);
    OneFirstFailurePerPath(items, |items|);
    var ff := FirstFailures(items, |items|);
    forall a, b | 0 <= a < b < |Outcome(items).errors|
      ensures Outcome(items).errors[a].propertyName != Outcome(items).errors[b].propertyName
    {
      assert Fails(items, ff[a]) && Fails(items, ff[b]);
    }
  }

  /** Items registered later do not change what the earlier ones produce. */
  lemma {:induction false} EvaluateExtend(items: seq<Item>, more: seq<Item>, n: nat)
    requires n <= |items|
    ensures Evaluate(items + more, n) == Evaluate(items, n)
  {
    if n > 0 {
      EvaluateExtend(items, more, n - 1);
      assert (items + more)[n - 1] == items[n - 1];
    }
  }

  class ValidationCommand {
    var items: seq<Item>

    constructor ()
      ensures items == []
    {
      items := [];
    }

    /** Registers a rule for a path at the end; the rule is not run. */
    method AddAsync(propertyName: string, func: Rule)
      modifies this
      ensures items == old(items) + [Item(propertyName, func)]
    {
      items := items + [Item(propertyName, func)];
    }

    /** Registers a synchronous rule as one whose task has already completed. */
    method Add(propertyName: string, func: () -> Option<ErrorInfo>)
      modifies this
      ensures |items| == |old(items)| + 1 && items[..|old(items)|] == old(items)
      ensures items[|old(items)|].propertyName == propertyName
      ensures items[|old(items)|].func() == FromResult(func())
    {
      AddAsync(propertyName, () => FromResult(func()));
    }

    /**
     * Runs the rules in registration order, skipping those whose path has
     * already failed; returns the errors and the indices of the rules run.
     */
    method Validate() returns (result: seq<ErrorInfo>, invoked: seq<nat>)
      ensures result == Outcome(items).errors && invoked == Outcome(items).invoked
      ensures forall k :: k in invoked <==> 0 <= k < |items| && NoEarlierFailure(items, k)
      ensures |result| == |FirstFailures(items, |items|)|
      ensures forall k :: 0 <= k < |result| ==>
                Some(result[k]) == items[FirstFailures(items, |items|)[k]].func().result
    {
      result := [];
      var decided: set<string> := {};
      invoked := [];
      var i := 0;
      while i < |items|
        invariant 0 <= i <= |items|
        invariant Evaluate(items, i) == Pass(result, decided, invoked)
      {
        var item := items[i];
        if item.propertyName !in decided {
          var errorInfo := item.func().result;
          invoked := invoked + [i];
          if errorInfo.Some? {
            result := result + [errorInfo.value];
            decided := decided + {item.propertyName};
          }
        }
        i := i + 1;
      }
      EvaluateInvoked(items, |items|);
      EvaluateErrors(items, |items|);
    }
  }
}
