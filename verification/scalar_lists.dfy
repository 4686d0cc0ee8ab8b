/** Grouping the decoded (record id, value) pairs of a scalar-list read into one
    ScalarListValues per run of equal record ids. */
module ScalarLists {
  import opened PrismaModels

  /** One decoded row of a scalar-list read. */
  datatype ScalarListElement = ScalarListElement(recordId: GraphqlId, value: PrismaValue)

  /** The elements a group stands for: each of its values with the group's id. */
  function GroupElements(g: ScalarListValues): seq<ScalarListElement> {
    seq(|g.values|, k requires 0 <= k < |g.values| => ScalarListElement(g.recordId, g.values[k]))
  }

  /** The elements a sequence of groups stands for, group after group. */
  function Expand(groups: seq<ScalarListValues>): seq<ScalarListElement> {
    if groups == [] then [] else GroupElements(groups[0]) + Expand(groups[1..])
  }

  /** The groups' values concatenated in output order. */
  function ValuesOf(groups: seq<ScalarListValues>): seq<PrismaValue> {
    if groups == [] then [] else groups[0].values + ValuesOf(groups[1..])
  }

  function ElementValues(elements: seq<ScalarListElement>): seq<PrismaValue> {
    seq(|elements|, k requires 0 <= k < |elements| => elements[k].value)
  }

  /** `groups` is the grouping of `elements` into maximal runs of consecutive
      equal record ids: expanding the groups gives back exactly the elements,
      no group is empty, and neighbouring groups have different ids. */
  predicate IsRunGrouping(groups: seq<ScalarListValues>, elements: seq<ScalarListElement>) {
    Expand(groups) == elements && NonEmptyGroups(groups) && NeighboursDiffer(groups)
  }

  predicate NonEmptyGroups(groups: seq<ScalarListValues>) {
    forall i :: 0 <= i < |groups| ==> groups[i].values != []
  }

  predicate NeighboursDiffer(groups: seq<ScalarListValues>) {
    forall i :: 0 < i < |groups| ==> groups[i - 1].recordId != groups[i].recordId
  }

  /** The `for` loop over `group_by(record_id)` that pushes one
      ScalarListValues per run. The run being read is held in `current` and
      pushed when an element with another id arrives, and at the end. */
  method GroupByRecordId(elements: seq<ScalarListElement>) returns (listValues: seq<ScalarListValues>)
    ensures IsRunGrouping(listValues, elements)
    ensures ValuesOf(listValues) == ElementValues(elements)
    ensures |listValues| <= |elements|
  {
    listValues := [];
    if elements == [] {
      return;
    }
    var current := ScalarListValues(elements[0].recordId, [elements[0].value]);
    assert Expand([current]) == elements[..1] by {
      assert Expand([current]) == GroupElements(current) + Expand([]);
    }
    var i := 1;
    while i < |elements|
      invariant 1 <= i <= |elements|
      invariant IsRunGrouping(listValues + [current], elements[..i])
    {
      var e := elements[i];
      assert elements[..i + 1] == elements[..i] + [e];
      if e.recordId == current.recordId {
        var next := current.(values := current.values + [e.value]);
        ExpandSnoc(listValues, current);
        ExpandSnoc(listValues, next);
        GroupsSnoc(listValues, current);
        GroupsSnoc(listValues, next);
        assert GroupElements(next) == GroupElements(current) + [e];
        current := next;
      } else {
        var next := ScalarListValues(e.recordId, [e.value]);
        ExpandSnoc(listValues + [current], next);
        GroupsSnoc(listValues + [current], next);
        assert GroupElements(next) == [e];
        listValues := listValues + [current];
        current := next;
      }
      i := i + 1;
    }
    listValues := listValues + [current];
    assert elements[..i] == elements;
    RunGroupingValues(listValues, elements);
    RunGroupingCount(listValues, elements);
  }

  lemma GroupsSnoc(gs: seq<ScalarListValues>, g: ScalarListValues)
    ensures NonEmptyGroups(gs + [g]) <==> NonEmptyGroups(gs) && g.values != []
    ensures NeighboursDiffer(gs + [g]) <==> NeighboursDiffer(gs) && (gs != [] ==> gs[|gs| - 1].recordId != g.recordId)
  {
    var hs := gs + [g];
    assert forall i :: 0 <= i < |gs| ==> hs[i] == gs[i];
    assert hs[|gs|] == g;
    if NeighboursDiffer(hs) {
      assert forall i :: 0 < i < |gs| ==> hs[i - 1].recordId != hs[i].recordId;
      if gs != [] {
        assert hs[|gs| - 1].recordId != hs[|gs|].recordId;
      }
    }
    if NeighboursDiffer(gs) && (gs != [] ==> gs[|gs| - 1].recordId != g.recordId) {
      forall i | 0 < i < |hs| ensures hs[i - 1].recordId != hs[i].recordId {
        if i < |gs| {
          assert hs[i - 1] == gs[i - 1] && hs[i] == gs[i];
        }
      }
    }
  }

  lemma {:induction false} ExpandAppend(gs: seq<ScalarListValues>, hs: seq<ScalarListValues>)
    ensures Expand(gs + hs) == Expand(gs) + Expand(hs)
    decreases |gs|
  {
    if gs == [] {
      assert gs + hs == hs;
    } else {
      assert (gs + hs)[1..] == gs[1..] + hs;
      ExpandAppend(gs[1..], hs);
    }
  }

  lemma ExpandSnoc(gs: seq<ScalarListValues>, g: ScalarListValues)
    ensures Expand(gs + [g]) == Expand(gs) + GroupElements(g)
  {
    ExpandAppend(gs, [g]);
    assert Expand([g]) == GroupElements(g) + Expand([]);
  }

  /** Concatenating the groups' values gives the values of the elements they
      stand for, in the same order. */
  lemma {:induction false} ValuesOfExpand(gs: seq<ScalarListValues>)
    ensures ValuesOf(gs) == ElementValues(Expand(gs))
    decreases |gs|
  {
    if gs != [] {
      ValuesOfExpand(gs[1..]);
      var head := GroupElements(gs[0]);
      assert ElementValues(head) == gs[0].values;
      assert ElementValues(head + Expand(gs[1..])) == ElementValues(head) + ElementValues(Expand(gs[1..]));
    }
  }

  /** Grouping loses, duplicates and reorders no value. */
  lemma RunGroupingValues(gs: seq<ScalarListValues>, es: seq<ScalarListElement>)
    requires IsRunGrouping(gs, es)
    ensures ValuesOf(gs) == ElementValues(es)
  {
    ValuesOfExpand(gs);
  }

  /** A grouping of non-empty groups has no more groups than elements, and no
      groups exactly when there are no elements. */
  lemma {:induction false} RunGroupingCount(gs: seq<ScalarListValues>, es: seq<ScalarListElement>)
    requires IsRunGrouping(gs, es)
    ensures |gs| <= |es|
    ensures gs == [] <==> es == []
    decreases |gs|
  {
    if gs != [] {
      RunGroupingTail(gs, es);
      RunGroupingCount(gs[1..], es[|gs[0].values|..]);
    }
  }

  /** The first group covers a prefix of the elements, and the remaining groups
      are the run grouping of the rest. */
  lemma RunGroupingTail(gs: seq<ScalarListValues>, es: seq<ScalarListElement>)
    requires gs != [] && IsRunGrouping(gs, es)
    ensures |gs[0].values| <= |es|
    ensures es[..|gs[0].values|] == GroupElements(gs[0])
    ensures IsRunGrouping(gs[1..], es[|gs[0].values|..])
  {
  }

  /** Inside the first group the elements carry its id; the element right after
      it starts the second group. */
  lemma RunHeadIds(gs: seq<ScalarListValues>, es: seq<ScalarListElement>, k: nat)
    requires gs != [] && IsRunGrouping(gs, es)
    ensures k < |gs[0].values| ==> k < |es| && es[k].recordId == gs[0].recordId
    ensures k == |gs[0].values| && |gs| >= 2 ==> k < |es| && es[k].recordId == gs[1].recordId
  {
    RunGroupingTail(gs, es);
    var n := |gs[0].values|;
    if k < n {
      assert es[k] == es[..n][k];
    }
    if k == n && |gs| >= 2 {
      RunGroupingTail(gs[1..], es[n..]);
      assert es[n] == es[n..][..|gs[1].values|][0];
    }
  }

  /** Each sequence of elements has exactly one run grouping. */
  lemma {:induction false} RunGroupingUnique(gs: seq<ScalarListValues>, hs: seq<ScalarListValues>, es: seq<ScalarListElement>)
    requires IsRunGrouping(gs, es) && IsRunGrouping(hs, es)
    ensures gs == hs
    decreases |gs|
  {
    if gs == [] || hs == [] {
      RunGroupingCount(gs, es);
      RunGroupingCount(hs, es);
    } else {
      RunGroupingTail(gs, es);
      RunGroupingTail(hs, es);
      var a, b := |gs[0].values|, |hs[0].values|;
      assert es[0] == GroupElements(gs[0])[0] == GroupElements(hs[0])[0];
      if a < b {
        RunGroupingCount(gs[1..], es[a..]);
        RunHeadIds(hs, es, a);
        RunHeadIds(gs, es, a);
        assert false;
      } else if b < a {
        RunGroupingCount(hs[1..], es[b..]);
        RunHeadIds(gs, es, b);
        RunHeadIds(hs, es, b);
        assert false;
      }
      assert gs[0].values == hs[0].values by {
        forall k | 0 <= k < a ensures gs[0].values[k] == hs[0].values[k] {
          assert GroupElements(gs[0])[k] == es[k] == GroupElements(hs[0])[k];
        }
      }
      assert gs[0] == hs[0];
      RunGroupingUnique(gs[1..], hs[1..], es[a..]);
      assert gs == [gs[0]] + gs[1..] && hs == [hs[0]] + hs[1..];
    }
  }

  /** Grouping is by consecutive runs, not by id: equal neighbours share a group,
      and an id that comes back after another id starts a new group. */
  lemma ReappearingIdStartsNewGroup(a: GraphqlId, b: GraphqlId, u: PrismaValue, v: PrismaValue,
                                    w: PrismaValue, x: PrismaValue, gs: seq<ScalarListValues>)
    requires a != b
    requires IsRunGrouping(gs, [ScalarListElement(a, u), ScalarListElement(a, v),
                                ScalarListElement(b, w), ScalarListElement(a, x)])
    ensures gs == [ScalarListValues(a, [u, v]), ScalarListValues(b, [w]), ScalarListValues(a, [x])]
  {
    var es := [ScalarListElement(a, u), ScalarListElement(a, v),
               ScalarListElement(b, w), ScalarListElement(a, x)];
    var g1, g2, g3 := ScalarListValues(a, [u, v]), ScalarListValues(b, [w]), ScalarListValues(a, [x]);
    var expected := [g1, g2, g3];
    assert Expand(expected) == es by {
      assert Expand([g3]) == GroupElements(g3) + Expand([]);
      assert expected[1..] == [g2, g3] && [g2, g3][1..] == [g3];
      assert GroupElements(g1) == es[..2];
    }
    RunGroupingUnique(gs, expected, es);
  }
}
