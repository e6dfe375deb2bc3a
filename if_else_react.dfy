// The React-rendered if/else block: committed else parts keyed by id, one shadow else
// part offered while the block is selected, and the promote/retire rule run on change.
module IfElseReact {
  import opened Std
  import opened Text
  import opened Inputs

  /** A committed else part, and whether its condition was empty when last checked. */
  datatype ElsePart = ElsePart(id: string, condEmpty: bool)

  /** `checkElsePart_(id)`'s result. */
  datatype PartCheck = PartCheck(empty: bool, condEmpty: bool, bodyEmpty: bool)

  function CondName(id: string): string {
    "ELSE_COND_" + id
  }

  function BodyName(id: string): string {
    "ELSE_BODY_" + id
  }

  /** An else part is empty when both its condition and its body are. */
  function CheckElsePart(connected: set<string>, id: string): (c: PartCheck)
    ensures c.condEmpty <==> CondName(id) !in connected
    ensures c.bodyEmpty <==> BodyName(id) !in connected
    ensures c.empty <==> CondName(id) !in connected && BodyName(id) !in connected
  {
    var condEmpty := InputEmpty(connected, CondName(id));
    var bodyEmpty := InputEmpty(connected, BodyName(id));
    PartCheck(condEmpty && bodyEmpty, condEmpty, bodyEmpty)
  }

  // ---------------------------------------------------------------------------
  // onChange_
  // ---------------------------------------------------------------------------

  /** The parts the filter loop keeps: the non-empty ones in order, each with its
      condition's emptiness refreshed. */
  function Surviving(parts: seq<ElsePart>, connected: set<string>): seq<ElsePart>
    decreases |parts|
  {
    if parts == [] then []
    else
      var last := parts[|parts| - 1];
      var c := CheckElsePart(connected, last.id);
      Surviving(parts[..|parts| - 1], connected) + (if c.empty then [] else [ElsePart(last.id, c.condEmpty)])
  }

  /** The new `elseParts`, `shadowElseId` and id counter: a non-empty shadow joins the
      parts and a fresh shadow id is drawn. */
  function AfterChange(parts: seq<ElsePart>, shadowId: string, next: nat, connected: set<string>)
    : (seq<ElsePart>, string, nat)
  {
    var kept := Surviving(parts, connected);
    var c := CheckElsePart(connected, shadowId);
    if c.empty then (kept, shadowId, next)
    else (kept + [ElsePart(shadowId, c.condEmpty)], Uid(next), next + 1)
  }

  function IdSet(parts: seq<ElsePart>): set<string> {
    set i | 0 <= i < |parts| :: parts[i].id
  }

  /** The ids `uid()` handed out before the counter reached `next`. */
  function Issued(next: nat): set<string> {
    set k | 0 <= k < next :: Uid(k)
  }

  /** The parts' ids and the shadow id are pairwise distinct ids already handed out. */
  predicate IdsOk(parts: seq<ElsePart>, shadowId: string, next: nat) {
    && (forall i, j :: 0 <= i < j < |parts| ==> parts[i].id != parts[j].id)
    && shadowId !in IdSet(parts)
    && IdSet(parts) <= Issued(next)
    && shadowId in Issued(next)
  }

  /** Filtering splits over concatenation: the kept parts keep their order. */
  lemma {:induction false} SurvivingAppend(p: seq<ElsePart>, q: seq<ElsePart>, connected: set<string>)
    ensures Surviving(p + q, connected) == Surviving(p, connected) + Surviving(q, connected)
    decreases |q|
  {
    if q == [] {
      assert p + q == p;
    } else {
      var q' := q[..|q| - 1];
      assert (p + q)[..|p + q| - 1] == p + q';
      assert (p + q)[|p + q| - 1] == q[|q| - 1];
      SurvivingAppend(p, q', connected);
    }
  }

  /** Every kept part is non-empty and records its condition's emptiness. */
  lemma {:induction false} SurvivingNonEmpty(parts: seq<ElsePart>, connected: set<string>)
    ensures forall k :: 0 <= k < |Surviving(parts, connected)| ==>
      var p := Surviving(parts, connected)[k];
      !CheckElsePart(connected, p.id).empty && (p.condEmpty <==> CondName(p.id) !in connected)
    decreases |parts|
  {
    if parts != [] {
      var init := parts[..|parts| - 1];
      SurvivingNonEmpty(init, connected);
      var r := Surviving(parts, connected);
      var ri := Surviving(init, connected);
      var last := parts[|parts| - 1];
      var c := CheckElsePart(connected, last.id);
      assert r == ri + (if c.empty then [] else [ElsePart(last.id, c.condEmpty)]);
      forall k | 0 <= k < |r|
        ensures !CheckElsePart(connected, r[k].id).empty
        ensures r[k].condEmpty <==> CondName(r[k].id) !in connected
      {
        if k < |ri| {
          assert r[k] == ri[k];
          assert !CheckElsePart(connected, ri[k].id).empty;
        } else {
          assert r[k] == ElsePart(last.id, c.condEmpty);
        }
      }
    }
  }

  /** The kept parts are exactly the non-empty ones: each comes from the old parts, and
      each non-empty old part is kept. */
  lemma {:induction false} SurvivingExactly(parts: seq<ElsePart>, connected: set<string>)
    ensures IdSet(Surviving(parts, connected)) <= IdSet(parts)
    ensures forall i :: 0 <= i < |parts| && !CheckElsePart(connected, parts[i].id).empty ==>
      ElsePart(parts[i].id, CheckElsePart(connected, parts[i].id).condEmpty) in Surviving(parts, connected)
    decreases |parts|
  {
    if parts != [] {
      var init := parts[..|parts| - 1];
      SurvivingExactly(init, connected);
      assert IdSet(init) <= IdSet(parts) by {
        forall id | id in IdSet(init) ensures id in IdSet(parts) {
          var i :| 0 <= i < |init| && init[i].id == id;
          assert parts[i] == init[i];
        }
      }
      var r := Surviving(parts, connected);
      var last := parts[|parts| - 1];
      forall id | id in IdSet(r) ensures id in IdSet(parts) {
        var k :| 0 <= k < |r| && r[k].id == id;
        if k >= |Surviving(init, connected)| {
          assert id == last.id;
        } else {
          assert r[k] == Surviving(init, connected)[k];
          assert id in IdSet(Surviving(init, connected));
        }
      }
      forall i | 0 <= i < |parts| && !CheckElsePart(connected, parts[i].id).empty
        ensures ElsePart(parts[i].id, CheckElsePart(connected, parts[i].id).condEmpty) in r
      {
        if i < |init| {
          assert parts[i] == init[i];
        }
      }
    }
  }

  /** Filtering twice changes nothing: the kept parts all pass again. */
  lemma {:induction false} SurvivingIdempotent(parts: seq<ElsePart>, connected: set<string>)
    ensures Surviving(Surviving(parts, connected), connected) == Surviving(parts, connected)
    decreases |parts|
  {
    if parts != [] {
      var init := parts[..|parts| - 1];
      var last := parts[|parts| - 1];
      var c := CheckElsePart(connected, last.id);
      var tail := if c.empty then [] else [ElsePart(last.id, c.condEmpty)];
      SurvivingAppend(Surviving(init, connected), tail, connected);
      SurvivingIdempotent(init, connected);
      if !c.empty {
        assert tail[..0] == [];
      }
    }
  }

  /** The kept parts keep distinct ids. */
  lemma {:induction false} SurvivingDistinct(parts: seq<ElsePart>, connected: set<string>)
    requires forall i, j :: 0 <= i < j < |parts| ==> parts[i].id != parts[j].id
    ensures var r := Surviving(parts, connected);
      forall i, j :: 0 <= i < j < |r| ==> r[i].id != r[j].id
    decreases |parts|
  {
    if parts != [] {
      var init := parts[..|parts| - 1];
      var last := parts[|parts| - 1];
      SurvivingDistinct(init, connected);
      SurvivingExactly(init, connected);
      assert last.id !in IdSet(init);
      var r := Surviving(parts, connected);
      var ri := Surviving(init, connected);
      forall i, j | 0 <= i < j < |r| ensures r[i].id != r[j].id {
        if j >= |ri| {
          assert r[j].id == last.id;
          assert r[i] == ri[i];
          assert r[i].id in IdSet(ri);
        } else {
          assert r[i] == ri[i] && r[j] == ri[j];
        }
      }
    }
  }

  /** `onChange_` keeps the ids distinct and never reuses one: the new shadow id is
      fresh and the promoted shadow's id was not among the kept parts. */
  lemma AfterChangeIdsOk(parts: seq<ElsePart>, shadowId: string, next: nat, connected: set<string>)
    requires IdsOk(parts, shadowId, next)
    ensures var (p, s, n) := AfterChange(parts, shadowId, next, connected); IdsOk(p, s, n) && n >= next
  {
    var kept := Surviving(parts, connected);
    SurvivingDistinct(parts, connected);
    SurvivingExactly(parts, connected);
    var c := CheckElsePart(connected, shadowId);
    if !c.empty {
      var p := kept + [ElsePart(shadowId, c.condEmpty)];
      assert IdSet(p) == IdSet(kept) + {shadowId} by {
        forall id | id in IdSet(p) ensures id in IdSet(kept) + {shadowId} {
          var k :| 0 <= k < |p| && p[k].id == id;
          if k < |kept| {
            assert p[k] == kept[k];
          }
        }
        forall id | id in IdSet(kept) ensures id in IdSet(p) {
          var k :| 0 <= k < |kept| && kept[k].id == id;
          assert p[k] == kept[k];
        }
        assert p[|kept|].id == shadowId;
      }
      assert Uid(next) !in Issued(next) by {
        forall k | 0 <= k < next ensures Uid(k) != Uid(next) {
          UidInjective(k, next);
        }
      }
      assert Issued(next) <= Issued(next + 1);
      assert Uid(next) in Issued(next + 1);
      forall i, j | 0 <= i < j < |p| ensures p[i].id != p[j].id {
        if j == |kept| {
          assert p[i] == kept[i];
          assert p[i].id in IdSet(kept);
        } else {
          assert p[i] == kept[i] && p[j] == kept[j];
        }
      }
    }
  }

  // ---------------------------------------------------------------------------
  // render_
  // ---------------------------------------------------------------------------

  /** A committed part: `else`, the condition or its `...` stand-in, the body. */
  function PartView(p: ElsePart, isSelected: bool): seq<View> {
    var condVisible := isSelected || !p.condEmpty;
    [ View(DummyInput, "else", true), View(ValueInput, CondName(p.id), condVisible),
      View(DummyInput, "...", !condVisible), View(StatementInput, BodyName(p.id), true) ]
  }

  function PartsView(parts: seq<ElsePart>, isSelected: bool): (r: seq<View>)
    ensures |r| == 4 * |parts|
  {
    if parts == [] then [] else PartView(parts[0], isSelected) + PartsView(parts[1..], isSelected)
  }

  /** The shadow part, shown only while selected. */
  function ShadowView(id: string, isSelected: bool): seq<View> {
    [ View(DummyInput, "else", isSelected), View(ValueInput, CondName(id), isSelected),
      View(StatementInput, BodyName(id), isSelected) ]
  }

  /** The block's inputs in order: the `if` condition and body, the else parts, the
      shadow part and the trailing `...`. */
  function Render(parts: seq<ElsePart>, shadowId: string, isSelected: bool): seq<View> {
    [View(ValueInput, "COND", true), View(StatementInput, "BODY", true)]
    + PartsView(parts, isSelected) + ShadowView(shadowId, isSelected)
    + [View(DummyInput, "...", !isSelected)]
  }

  lemma {:induction false} PartsViewAt(parts: seq<ElsePart>, isSelected: bool)
    ensures forall i :: 0 <= i < |parts| ==>
      PartsView(parts, isSelected)[4 * i..4 * i + 4] == PartView(parts[i], isSelected)
    decreases |parts|
  {
    if parts != [] {
      PartsViewAt(parts[1..], isSelected);
      var r := PartsView(parts, isSelected);
      forall i | 0 <= i < |parts| ensures r[4 * i..4 * i + 4] == PartView(parts[i], isSelected) {
        if i > 0 {
          assert r[4 * i..4 * i + 4] == PartsView(parts[1..], isSelected)[4 * (i - 1)..4 * (i - 1) + 4];
        }
      }
    }
  }

  /** Where each part's inputs sit and when they show: a committed condition iff
      selected or non-empty, its `...` iff the condition is hidden, the body always; the
      shadow part iff selected; the trailing `...` iff not selected. */
  lemma RenderLayout(parts: seq<ElsePart>, shadowId: string, isSelected: bool)
    ensures var r := Render(parts, shadowId, isSelected);
      && |r| == 4 * |parts| + 6
      && (forall i :: 0 <= i < |parts| ==>
            && r[4 * i + 3] == View(ValueInput, CondName(parts[i].id), isSelected || !parts[i].condEmpty)
            && r[4 * i + 4] == View(DummyInput, "...", !isSelected && parts[i].condEmpty)
            && r[4 * i + 5] == View(StatementInput, BodyName(parts[i].id), true))
      && r[4 * |parts| + 3] == View(ValueInput, CondName(shadowId), isSelected)
      && r[4 * |parts| + 4] == View(StatementInput, BodyName(shadowId), isSelected)
      && r[4 * |parts| + 5] == View(DummyInput, "...", !isSelected)
  {
    var r := Render(parts, shadowId, isSelected);
    var pv := PartsView(parts, isSelected);
    PartsViewAt(parts, isSelected);
    assert forall j :: 2 <= j < 2 + |pv| ==> r[j] == pv[j - 2];
    forall i | 0 <= i < |parts|
      ensures r[4 * i + 3] == View(ValueInput, CondName(parts[i].id), isSelected || !parts[i].condEmpty)
      ensures r[4 * i + 4] == View(DummyInput, "...", !isSelected && parts[i].condEmpty)
      ensures r[4 * i + 5] == View(StatementInput, BodyName(parts[i].id), true)
    {
      var part := pv[4 * i..4 * i + 4];
      assert part == PartView(parts[i], isSelected);
      assert pv[4 * i + 1] == part[1] && pv[4 * i + 2] == part[2] && pv[4 * i + 3] == part[3];
    }
  }

  /** Selected, the block shows every input and no `...`; unselected, no part of the
      shadow shows. */
  lemma RenderSelection(parts: seq<ElsePart>, shadowId: string, isSelected: bool)
    ensures var r := Render(parts, shadowId, isSelected);
      isSelected ==> forall k :: 0 <= k < |r| ==> (r[k].visible <==> r[k].name != "...")
    ensures var r := Render(parts, shadowId, isSelected);
      !isSelected ==> forall k :: 4 * |parts| + 2 <= k < 4 * |parts| + 5 ==> !r[k].visible
  {
    var r := Render(parts, shadowId, isSelected);
    var pv := PartsView(parts, isSelected);
    PartsViewAt(parts, isSelected);
    if isSelected {
      forall k | 0 <= k < |r| ensures r[k].visible <==> r[k].name != "..." {
        if 2 <= k < 4 * |parts| + 2 {
          var i := (k - 2) / 4;
          assert pv[4 * i..4 * i + 4] == PartView(parts[i], isSelected);
          assert r[k] == pv[4 * i..4 * i + 4][k - 2 - 4 * i];
          assert CondName(parts[i].id)[0] == 'E' && BodyName(parts[i].id)[0] == 'E';
        } else if 4 * |parts| + 2 <= k < 4 * |parts| + 5 {
          assert CondName(shadowId)[0] == 'E' && BodyName(shadowId)[0] == 'E';
        }
      }
    }
  }

  // ---------------------------------------------------------------------------
  // The block
  // ---------------------------------------------------------------------------

  /** The if/else block's `state_`; `elseParts` and `isSelected` are absent until first
      set. */
  class IfElseBlock {
    var elseParts: Option<seq<ElsePart>>
    var shadowElseId: string
    var isSelected: Option<bool>
    var nextUid: nat

    /** `init`: an empty state, then a shadow id drawn before the first render. */
    constructor (next: nat)
      ensures elseParts == None && isSelected == None
      ensures shadowElseId == Uid(next) && nextUid == next + 1
      ensures IdsOk(Parts(), shadowElseId, nextUid)
    {
      elseParts := None;
      isSelected := None;
      shadowElseId := Uid(next);
      nextUid := next + 1;
      new;
      assert Uid(next) in Issued(next + 1);
      assert IdSet([]) == {};
    }

    /** `elseParts ?? []`. */
    function Parts(): seq<ElsePart>
      reads this
    {
      if elseParts.Some? then elseParts.value else []
    }

    function Selected(): bool
      reads this
    {
      isSelected.Some? && isSelected.value
    }

    predicate Valid()
      reads this
    {
      IdsOk(Parts(), shadowElseId, nextUid)
    }

    /** `onChange_`: the loop drops the empty parts, then the shadow is promoted if it
        was filled in. */
    method OnChange(connected: set<string>)
      modifies this
      ensures (Parts(), shadowElseId, nextUid) == AfterChange(old(Parts()), old(shadowElseId), old(nextUid), connected)
      ensures elseParts.Some? && isSelected == old(isSelected)
      ensures old(Valid()) ==> Valid()
    {
      var parts := Parts();
      ghost var wasValid := Valid();
      ghost var next := nextUid;
      var newParts := [];
      var i := 0;
      while i < |parts|
        invariant 0 <= i <= |parts|
        invariant newParts == Surviving(parts[..i], connected)
      {
        assert parts[..i + 1][..i] == parts[..i];
        var c := CheckElsePart(connected, parts[i].id);
        if !c.empty {
          newParts := newParts + [ElsePart(parts[i].id, c.condEmpty)];
        }
        i := i + 1;
      }
      assert parts[..i] == parts;
      var newShadow := shadowElseId;
      var shadowChecked := CheckElsePart(connected, shadowElseId);
      if !shadowChecked.empty {
        newParts := newParts + [ElsePart(shadowElseId, shadowChecked.condEmpty)];
        newShadow := Uid(nextUid);
        nextUid := nextUid + 1;
      }
      if wasValid {
        AfterChangeIdsOk(parts, shadowElseId, next, connected);
      }
      elseParts := Some(newParts);
      shadowElseId := newShadow;
    }

    /** `render_`'s inputs for the current state. */
    function Rendered(): seq<View>
      reads this
    {
      Render(Parts(), shadowElseId, Selected())
    }
  }
}
