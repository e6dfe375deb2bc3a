// The numbered if/else block: `else if` pairs named by position, counted on change, one
// more empty pair and the `else` body offered while the block is selected.
module IfElse {
  import opened Std
  import opened Text
  import opened Inputs

  function CondName(i: nat): string {
    "ELSE_IF_COND_" + NatToString(i)
  }

  function BodyName(i: nat): string {
    "ELSE_IF_BODY_" + NatToString(i)
  }

  const ElseBody: string := "ELSE_BODY"

  /** The `i`-th `else if` pair holds something: its condition or its body is not empty. */
  predicate PairFilled(connected: set<string>, i: nat) {
    !(InputEmpty(connected, CondName(i)) && InputEmpty(connected, BodyName(i)))
  }

  /** The names of the pairs `1..k`. */
  function Names(k: nat): set<string> {
    if k == 0 then {} else Names(k - 1) + {CondName(k), BodyName(k)}
  }

  lemma NameParts(i: nat, j: nat)
    ensures CondName(i) == CondName(j) ==> i == j
    ensures BodyName(i) == BodyName(j) ==> i == j
    ensures CondName(i) != BodyName(j)
  {
    assert CondName(i)[8] == 'C' && BodyName(j)[8] == 'B';
    if CondName(i) == CondName(j) {
      assert CondName(i)[13..] == NatToString(i) && CondName(j)[13..] == NatToString(j);
      NatToStringInjective(i, j);
    }
    if BodyName(i) == BodyName(j) {
      assert BodyName(i)[13..] == NatToString(i) && BodyName(j)[13..] == NatToString(j);
      NatToStringInjective(i, j);
    }
  }

  /** A later pair's names are not among the earlier pairs'. */
  lemma {:induction false} NamesExclude(k: nat, i: nat)
    requires i > k
    ensures CondName(i) !in Names(k) && BodyName(i) !in Names(k)
    decreases k
  {
    if k > 0 {
      NamesExclude(k - 1, i);
      NameParts(i, k);
      NameParts(k, i);
    }
  }

  /** `getElseIfCount_`: the pairs are read from 1 up to the first empty one. */
  method GetElseIfCount(connected: set<string>) returns (count: nat)
    ensures forall j :: 1 <= j <= count ==> PairFilled(connected, j)
    ensures !PairFilled(connected, count + 1)
  {
    count := 0;
    var i := 1;
    while PairFilled(connected, i)
      invariant i == count + 1
      invariant forall j :: 1 <= j <= count ==> PairFilled(connected, j)
      decreases connected - Names(count)
    {
      NamesExclude(count, i);
      assert CondName(i) in connected - Names(count) || BodyName(i) in connected - Names(count);
      count := i;
      i := i + 1;
    }
  }

  /** Filled pairs `1..k` hold at least `k` connected inputs, so the count never
      exceeds the number of connected inputs. */
  lemma {:induction false} FilledPairsBound(connected: set<string>, k: nat)
    requires forall j :: 1 <= j <= k ==> PairFilled(connected, j)
    ensures k <= |connected * Names(k)| <= |connected|
    decreases k
  {
    if k > 0 {
      FilledPairsBound(connected, k - 1);
      NamesExclude(k - 1, k);
      var before := connected * Names(k - 1);
      var added := connected * {CondName(k), BodyName(k)};
      assert connected * Names(k) == before + added;
      assert before !! added;
      assert connected == (connected * Names(k)) + (connected - Names(k));
      assert PairFilled(connected, k);
      assert |added| >= 1 by {
        if CondName(k) in connected {
          assert CondName(k) in added;
        } else {
          assert BodyName(k) in added;
        }
      }
    }
  }

  // ---------------------------------------------------------------------------
  // render_
  // ---------------------------------------------------------------------------

  /** The `i`-th pair's inputs. */
  function Pair(i: nat): seq<View> {
    [View(ValueInput, CondName(i), true), View(StatementInput, BodyName(i), true)]
  }

  /** `Array.from({length: n})`'s pairs, named from 1 to `n`. */
  function ElseIfViews(n: nat): (r: seq<View>)
    ensures |r| == 2 * n
  {
    if n == 0 then [] else ElseIfViews(n - 1) + Pair(n)
  }

  lemma {:induction false} ElseIfViewsAt(n: nat)
    ensures forall i :: 1 <= i <= n ==> ElseIfViews(n)[2 * i - 2..2 * i] == Pair(i)
    decreases n
  {
    if n > 0 {
      ElseIfViewsAt(n - 1);
      var r := ElseIfViews(n);
      forall i | 1 <= i <= n ensures r[2 * i - 2..2 * i] == Pair(i) {
        if i < n {
          assert r[2 * i - 2..2 * i] == ElseIfViews(n - 1)[2 * i - 2..2 * i];
        }
      }
    }
  }

  /** One more pair than the count while selected. */
  function VisibleElseIfCount(isSelected: bool, elseIfCount: nat): nat {
    if isSelected then elseIfCount + 1 else elseIfCount
  }

  function Render(isSelected: bool, elseIfCount: nat, hasElse: bool): seq<View> {
    [View(ValueInput, "COND", true), View(StatementInput, "BODY", true)]
    + ElseIfViews(VisibleElseIfCount(isSelected, elseIfCount))
    + (if hasElse || isSelected then [View(StatementInput, ElseBody, true)] else [])
  }

  /** The rendered inputs: the `if` pair, pairs `1..count` (and `count + 1` while
      selected) in order, then the `else` body exactly when there is one or the block
      is selected. */
  lemma RenderLayout(isSelected: bool, elseIfCount: nat, hasElse: bool)
    ensures var r := Render(isSelected, elseIfCount, hasElse);
      var n := VisibleElseIfCount(isSelected, elseIfCount);
      && |r| == 2 + 2 * n + (if hasElse || isSelected then 1 else 0)
      && (forall i :: 1 <= i <= n ==> r[2 * i..2 * i + 2] == Pair(i))
      && ((hasElse || isSelected) <==> View(StatementInput, ElseBody, true) in r)
  {
    var r := Render(isSelected, elseIfCount, hasElse);
    var n := VisibleElseIfCount(isSelected, elseIfCount);
    var views := ElseIfViews(n);
    ElseIfViewsAt(n);
    forall i | 1 <= i <= n ensures r[2 * i..2 * i + 2] == Pair(i) {
      assert r[2 * i..2 * i + 2] == views[2 * i - 2..2 * i];
    }
    if !(hasElse || isSelected) {
      forall k | 0 <= k < |r| ensures r[k] != View(StatementInput, ElseBody, true) {
        if k >= 2 {
          var i := (k - 2) / 2 + 1;
          assert views[2 * i - 2..2 * i] == Pair(i);
          assert r[k] == Pair(i)[k - 2 * i];
          assert CondName(i)[5] == 'I' && BodyName(i)[5] == 'I' && ElseBody[5] == 'B';
        }
      }
    }
  }

  // ---------------------------------------------------------------------------
  // The block
  // ---------------------------------------------------------------------------

  /** The numbered if/else block's `state_`, each entry absent until first set. */
  class IfElseBlock {
    var isSelected: Option<bool>
    var elseIfCount: Option<nat>
    var hasElse: Option<bool>

    constructor ()
      ensures isSelected == None && elseIfCount == None && hasElse == None
    {
      isSelected := None;
      elseIfCount := None;
      hasElse := None;
    }

    /** `onChange_`: the count of leading filled pairs, and whether the `else` body holds
        a block. */
    method OnChange(connected: set<string>)
      modifies this
      ensures elseIfCount.Some?
      ensures forall j :: 1 <= j <= elseIfCount.value ==> PairFilled(connected, j)
      ensures !PairFilled(connected, elseIfCount.value + 1)
      ensures hasElse == Some(ElseBody in connected)
      ensures isSelected == old(isSelected)
    {
      var count := GetElseIfCount(connected);
      elseIfCount := Some(count);
      hasElse := Some(!InputEmpty(connected, ElseBody));
    }

    /** `render_`'s inputs, absent state read as not selected, no pairs and no `else`. */
    function Rendered(): seq<View>
      reads this
    {
      Render(isSelected.Some? && isSelected.value,
             if elseIfCount.Some? then elseIfCount.value else 0,
             hasElse.Some? && hasElse.value)
    }
  }
}
