/**
 * How a rule's matched facts become findings: all of them once, those whose function has no
 * excluding fact, and the latter grouped by function.
 */
module EvidenceCombine {
  import opened Picking

  /** A matched row: `detail` stands for everything a finding merely passes on. */
  datatype Fact = Fact(id: nat, function_: nat, confidence: real, detail: string)

  /** A need with the rows the store answers for it. */
  datatype Need = Need(optional: bool, facts: seq<Fact>)

  datatype Evidence = Evidence(confidence: real, items: seq<Fact>)

  // ---- Specification ----

  function Smaller(a: real, b: real): real { if b < a then b else a }

  function Lowest(facts: seq<Fact>): real
    requires facts != []
  {
    if |facts| == 1 then facts[0].confidence
    else Smaller(Lowest(facts[..|facts| - 1]), facts[|facts| - 1].confidence)
  }

  ghost predicate BearsFunction(facts: seq<Fact>, f: nat) { exists s :: s in facts && s.function_ == f }

  /** A function some optional need after the first has a fact for. */
  ghost predicate Excluded(needs: seq<Need>, f: nat) {
    exists i | 1 <= i < |needs| :: needs[i].optional && BearsFunction(needs[i].facts, f)
  }

  ghost function ExcludedSet(needs: seq<Need>): (ex: set<nat>)
    ensures forall f :: f in ex <==> Excluded(needs, f)
  {
    var ex := set i, j | 1 <= i < |needs| && needs[i].optional && 0 <= j < |needs[i].facts| ::
                needs[i].facts[j].function_;
    assert forall f | Excluded(needs, f) :: f in ex by {
      forall f | Excluded(needs, f) ensures f in ex {
        var i :| 1 <= i < |needs| && needs[i].optional && BearsFunction(needs[i].facts, f);
        var s :| s in needs[i].facts && s.function_ == f;
        var j :| 0 <= j < |needs[i].facts| && needs[i].facts[j] == s;
        assert needs[i].facts[j].function_ == f;
      }
    }
    ex
  }

  ghost function Surviving(facts: seq<Fact>, excluded: set<nat>): seq<Fact> {
    if facts == [] then []
    else
      var n := |facts| - 1;
      Surviving(facts[..n], excluded) + if facts[n].function_ in excluded then [] else [facts[n]]
  }

  ghost function OfFunction(facts: seq<Fact>, f: nat): seq<Fact> {
    if facts == [] then []
    else
      var n := |facts| - 1;
      OfFunction(facts[..n], f) + if facts[n].function_ == f then [facts[n]] else []
  }

  /** The functions of some facts, each where it is first seen. */
  ghost function Functions(facts: seq<Fact>): seq<nat> {
    if facts == [] then []
    else
      var before := Functions(facts[..|facts| - 1]);
      if facts[|facts| - 1].function_ in before then before else before + [facts[|facts| - 1].function_]
  }

  function Confidence(facts: seq<Fact>): real { if facts == [] then 1.0 else Lowest(facts) }

  /** One finding for each of some functions. */
  ghost function FindingsFor(facts: seq<Fact>, order: seq<nat>): seq<Evidence> {
    if order == [] then []
    else
      var group := OfFunction(facts, order[|order| - 1]);
      FindingsFor(facts, order[..|order| - 1]) + [Evidence(Confidence(group), group)]
  }

  ghost function AllItems(evs: seq<Evidence>): seq<Fact> {
    if evs == [] then [] else AllItems(evs[..|evs| - 1]) + evs[|evs| - 1].items
  }

  /** The facts of the needs that are not optional, in order. */
  ghost function Merged(needs: seq<Need>): seq<Fact> {
    if needs == [] then []
    else
      var n := |needs| - 1;
      Merged(needs[..n]) + if needs[n].optional then [] else needs[n].facts
  }

  ghost function Ids(facts: seq<Fact>): set<nat> { set f | f in facts :: f.id }

  /** The facts without those whose id came before. */
  ghost function Firsts(facts: seq<Fact>): seq<Fact> {
    if facts == [] then []
    else
      var front := Firsts(facts[..|facts| - 1]);
      if facts[|facts| - 1].id in Ids(front) then front else front + [facts[|facts| - 1]]
  }

  // ---- What is collected, told of the needs ----

  /** A fact of a need that is not optional. */
  ghost predicate IsPlace(needs: seq<Need>, p: Place) {
    p.list < |needs| && !needs[p.list].optional && p.at < |needs[p.list].facts|
  }

  ghost function FactAt(needs: seq<Need>, p: Place): Fact
    requires IsPlace(needs, p)
  {
    needs[p.list].facts[p.at]
  }

  /** No fact at an earlier place bears its id. */
  ghost predicate IsFirstPlace(needs: seq<Need>, p: Place) {
    && IsPlace(needs, p)
    && forall q | IsPlace(needs, q) && Earlier(q, p) :: FactAt(needs, q).id != FactAt(needs, p).id
  }

  /** The facts are those at the first places, in order. */
  ghost predicate CollectsAt(needs: seq<Need>, ps: seq<Place>, facts: seq<Fact>) {
    && InOrder(ps) && (forall p :: p in ps <==> IsFirstPlace(needs, p))
    && |facts| == |ps| && forall m | 0 <= m < |ps| :: IsPlace(needs, ps[m]) && facts[m] == FactAt(needs, ps[m])
  }

  ghost predicate IsCollection(needs: seq<Need>, facts: seq<Fact>) { exists ps :: CollectsAt(needs, ps, facts) }

  /** The finding for some facts: none for no facts, else one with all of them and the least of their confidences. */
  ghost predicate IsFindingOf(facts: seq<Fact>, result: seq<Evidence>) {
    if facts == [] then result == []
    else
      && |result| == 1 && result[0].items == facts
      && (forall f | f in facts :: result[0].confidence <= f.confidence)
      && exists f :: f in facts && f.confidence == result[0].confidence
  }

  /** Facts of the first need whose function no later optional need has a fact for. */
  ghost function NotExcludedAt(needs: seq<Need>): nat -> bool {
    (k: nat) => needs != [] && k < |needs[0].facts| &&
      forall i | 1 <= i < |needs| && needs[i].optional ::
        forall s | s in needs[i].facts :: s.function_ != needs[0].facts[k].function_
  }

  ghost function FunctionsOf(facts: seq<Fact>): seq<nat> {
    seq(|facts|, (k: nat) requires k < |facts| => facts[k].function_)
  }

  /** The position where a function is seen first. */
  ghost function FirstSeenAt(facts: seq<Fact>): nat -> bool {
    (k: nat) => k < |facts| && forall j | 0 <= j < k :: facts[j].function_ != facts[k].function_
  }

  ghost function OfFunctionAt(facts: seq<Fact>, f: nat): nat -> bool {
    (k: nat) => k < |facts| && facts[k].function_ == f
  }

  /** One finding for each function of the facts, in the order in which they are first seen, with all its facts. */
  ghost predicate GroupsAs(facts: seq<Fact>, order: seq<nat>, result: seq<Evidence>) {
    && Picks(FunctionsOf(facts), FirstSeenAt(facts), order) && |result| == |order|
    && forall i | 0 <= i < |order| ::
         Picks(facts, OfFunctionAt(facts, order[i]), result[i].items) && IsFindingOf(result[i].items, [result[i]])
  }

  ghost predicate IsGrouping(facts: seq<Fact>, result: seq<Evidence>) { exists order :: GroupsAs(facts, order, result) }

  // ---- Code ----

  method MinConfidence(facts: seq<Fact>) returns (m: real)
    ensures m == Confidence(facts)
  {
    if facts == [] {
      return 1.0;
    }
    m := facts[0].confidence;
    assert facts[..1] == [facts[0]];
    for i := 1 to |facts|
      invariant m == Lowest(facts[..i])
    {
      assert facts[..i + 1][..i] == facts[..i];
      m := Smaller(m, facts[i].confidence);
    }
    assert facts[..|facts|] == facts;
  }

  method CollectExcluded(needs: seq<Need>) returns (excluded: set<nat>)
    ensures excluded == ExcludedSet(needs)
  {
    excluded := {};
    if needs == [] {
      return;
    }
    for i := 1 to |needs|
      invariant forall f :: f in excluded <==> Excluded(needs[..i], f)
    {
      assert needs[..i + 1] == needs[..i] + [needs[i]];
      ghost var before := excluded;
      assert forall f :: Excluded(needs[..i + 1], f) <==>
          Excluded(needs[..i], f) || (needs[i].optional && BearsFunction(needs[i].facts, f)) by {
        ExcludedOneMore(needs[..i], needs[i]);
      }
      if needs[i].optional {
        for j := 0 to |needs[i].facts|
          invariant forall f :: f in excluded <==>
            f in before || BearsFunction(needs[i].facts[..j], f)
        {
          assert needs[i].facts[..j + 1] == needs[i].facts[..j] + [needs[i].facts[j]];
          excluded := excluded + {needs[i].facts[j].function_};
        }
        assert needs[i].facts[..|needs[i].facts|] == needs[i].facts;
      }
    }
    assert needs[..|needs|] == needs;
  }

  lemma ExcludedOneMore(front: seq<Need>, last: Need)
    requires front != []
    ensures forall f :: Excluded(front + [last], f) <==>
      Excluded(front, f) || (last.optional && BearsFunction(last.facts, f))
  {
    var needs := front + [last];
    assert needs[|front|] == last && forall i | 0 <= i < |front| :: needs[i] == front[i];
  }

  /** Every fact of the needs that are not optional, once. */
  method CombineCollect(needs: seq<Need>) returns (result: seq<Evidence>)
    ensures var all := Firsts(Merged(needs));
      result == if all == [] then [] else [Evidence(Lowest(all), all)]
    ensures exists facts :: IsCollection(needs, facts) && IsFindingOf(facts, result)
    ensures result == [] <==> forall i | 0 <= i < |needs| && !needs[i].optional :: needs[i].facts == []
  {
    CollectedByPlaces(needs);
    MergedIsEmpty(needs);
    FindingMeans(Firsts(Merged(needs)));
    hide IsCollection, IsFindingOf;
    var all: seq<Fact> := [];
    var seen: set<nat> := {};
    for i := 0 to |needs|
      invariant all == Firsts(Merged(needs[..i])) && seen == Ids(all)
    {
      assert needs[..i + 1][..i] == needs[..i];
      ghost var before := Merged(needs[..i]);
      if !needs[i].optional {
        all, seen := CollectNeed(before, needs[i].facts, all, seen);
      } else {
        assert before + [] == before;
      }
    }
    assert needs[..|needs|] == needs;
    if all == [] {
      return [];
    }
    var m := MinConfidence(all);
    result := [Evidence(m, all)];
  }

  /** The facts of one need, without those already seen. */
  method CollectNeed(ghost before: seq<Fact>, facts: seq<Fact>, all0: seq<Fact>, seen0: set<nat>)
    returns (all: seq<Fact>, seen: set<nat>)
    requires all0 == Firsts(before) && seen0 == Ids(all0)
    ensures all == Firsts(before + facts) && seen == Ids(all)
  {
    hide *;
    all, seen := all0, seen0;
    assert before + facts[..0] == before;
    for j := 0 to |facts|
      invariant all == Firsts(before + facts[..j]) && seen == Ids(all)
    {
      FirstsOneMore(before + facts[..j], facts[j]);
      assert before + facts[..j + 1] == (before + facts[..j]) + [facts[j]];
      if facts[j].id !in seen {
        seen := seen + {facts[j].id};
        all := all + [facts[j]];
      }
    }
    assert facts[..|facts|] == facts;
  }

  lemma FirstsOneMore(front: seq<Fact>, f: Fact)
    ensures f.id in Ids(Firsts(front)) ==> Firsts(front + [f]) == Firsts(front)
    ensures f.id !in Ids(Firsts(front)) ==>
      Firsts(front + [f]) == Firsts(front) + [f] && Ids(Firsts(front + [f])) == Ids(Firsts(front)) + {f.id}
  {
    assert (front + [f])[..|front|] == front;
    IdsAppend(Firsts(front), [f]);
    assert Ids([f]) == {f.id};
  }

  /** The facts whose function is not excluded, as one finding. */
  method CombineMissingMatch(needs: seq<Need>) returns (result: seq<Evidence>)
    ensures result == Flat(needs)
    ensures exists facts :: Picks(if needs == [] then [] else needs[0].facts, NotExcludedAt(needs), facts)
                            && IsFindingOf(facts, result)
  {
    KeptArePicked(needs);
    FindingMeans(Kept(needs));
    hide Picks, IsFindingOf, NotExcludedAt;
    var excluded := CollectExcluded(needs);
    if needs == [] || needs[0].facts == [] {
      return [];
    }
    var primary := needs[0].facts;
    var kept: seq<Fact> := [];
    for i := 0 to |primary|
      invariant kept == Surviving(primary[..i], excluded)
    {
      assert primary[..i + 1][..i] == primary[..i];
      if primary[i].function_ !in excluded {
        kept := kept + [primary[i]];
      }
    }
    assert primary[..|primary|] == primary;
    if kept == [] {
      return [];
    }
    var m := MinConfidence(kept);
    result := [Evidence(m, kept)];
  }

  /** The same facts, one finding for each function. */
  method CombineMissingMatchPerFunction(needs: seq<Need>) returns (result: seq<Evidence>)
    ensures result == PerFunction(needs)
    ensures exists facts :: Picks(if needs == [] then [] else needs[0].facts, NotExcludedAt(needs), facts)
                            && IsGrouping(facts, result)
  {
    KeptArePicked(needs);
    GroupingMeans(Kept(needs));
    hide Picks, NotExcludedAt, IsGrouping;
    var excluded := CollectExcluded(needs);
    if needs == [] || needs[0].facts == [] {
      return [];
    }
    var order, byFunction := GroupByFunction(needs[0].facts, excluded);
    result := EmitGroups(Kept(needs), order, byFunction);
  }

  /** One finding for each function. */
  method EmitGroups(ghost kept: seq<Fact>, order: seq<nat>, byFunction: map<nat, seq<Fact>>)
    returns (result: seq<Evidence>)
    requires Grouped(kept, order, byFunction)
    ensures result == FindingsFor(kept, Functions(kept))
  {
    assert order == Functions(kept);
    hide *;
    result := [];
    NoFindings(kept);
    for i := 0 to |order|
      invariant result == FindingsFor(kept, order[..i])
    {
      GroupAt(kept, order, byFunction, i);
      var m := MinConfidence(byFunction[order[i]]);
      OneMoreFinding(kept, order, i);
      result := result + [Evidence(m, byFunction[order[i]])];
    }
    assert order[..|order|] == order;
  }

  lemma NoFindings(kept: seq<Fact>)
    ensures FindingsFor(kept, []) == []
  {
  }

  /** The groups of some facts, and their functions in the order they are first seen. */
  ghost predicate Grouped(facts: seq<Fact>, order: seq<nat>, groups: map<nat, seq<Fact>>) {
    && order == Functions(facts) && (forall f :: f in groups <==> f in order)
    && forall f | f in groups :: groups[f] == OfFunction(facts, f)
  }

  /** The surviving facts by function. */
  method GroupByFunction(primary: seq<Fact>, excluded: set<nat>)
    returns (order: seq<nat>, byFunction: map<nat, seq<Fact>>)
    ensures Grouped(Surviving(primary, excluded), order, byFunction)
  {
    hide Grouped;
    order, byFunction := [], map[];
    NoGroups();
    for i := 0 to |primary|
      invariant Grouped(Surviving(primary[..i], excluded), order, byFunction)
    {
      assert primary[..i + 1][..i] == primary[..i];
      var f := primary[i];
      ghost var kept := Surviving(primary[..i], excluded);
      assert Surviving(primary[..i + 1], excluded) == kept + if f.function_ in excluded then [] else [f];
      if f.function_ !in excluded {
        GroupOneMore(kept, order, byFunction, f);
        hide *;
        ghost var was := byFunction;
        if f.function_ !in byFunction {
          order := order + [f.function_];
          byFunction := byFunction[f.function_ := []];
        }
        byFunction := byFunction[f.function_ := byFunction[f.function_] + [f]];
        assert byFunction == was[f.function_ := (if f.function_ in was then was[f.function_] else []) + [f]];
      } else {
        assert kept + [] == kept;
      }
    }
    assert primary[..|primary|] == primary;
  }

  lemma NoGroups()
    ensures Grouped([], [], map[])
  {
  }

  lemma GroupAt(facts: seq<Fact>, order: seq<nat>, groups: map<nat, seq<Fact>>, i: nat)
    requires Grouped(facts, order, groups) && i < |order|
    ensures order[i] in groups && groups[order[i]] == OfFunction(facts, order[i])
  {
    hide Functions, OfFunction;
  }

  lemma OneMoreFinding(facts: seq<Fact>, order: seq<nat>, i: nat)
    requires i < |order|
    ensures FindingsFor(facts, order[..i + 1]) == FindingsFor(facts, order[..i])
      + [Evidence(Confidence(OfFunction(facts, order[i])), OfFunction(facts, order[i]))]
  {
    hide OfFunction, Confidence;
    assert order[..i + 1][..i] == order[..i];
  }

  lemma GroupOneMore(kept: seq<Fact>, order: seq<nat>, groups: map<nat, seq<Fact>>, f: Fact)
    requires Grouped(kept, order, groups)
    ensures var known := f.function_ in groups;
      Grouped(kept + [f], if known then order else order + [f.function_],
              groups[f.function_ := (if known then groups[f.function_] else []) + [f]])
  {
    AddFact(kept, f);
    hide Functions, OfFunction;
  }

  /** What one more surviving fact changes. */
  lemma AddFact(kept: seq<Fact>, f: Fact)
    ensures Functions(kept + [f]) ==
      if f.function_ in Functions(kept) then Functions(kept) else Functions(kept) + [f.function_]
    ensures forall g :: OfFunction(kept + [f], g) == OfFunction(kept, g) + if f.function_ == g then [f] else []
    ensures f.function_ !in Functions(kept) ==> OfFunction(kept, f.function_) == []
  {
    assert (kept + [f])[..|kept|] == kept;
    NotSeen(kept, f.function_);
  }

  // ---- What the two missing-match modes answer ----

  ghost function Primary(needs: seq<Need>): seq<Fact> { if needs == [] then [] else needs[0].facts }

  ghost function Kept(needs: seq<Need>): seq<Fact> { Surviving(Primary(needs), ExcludedSet(needs)) }

  ghost function Flat(needs: seq<Need>): seq<Evidence> {
    var kept := Kept(needs);
    if kept == [] then [] else [Evidence(Lowest(kept), kept)]
  }

  ghost function PerFunction(needs: seq<Need>): seq<Evidence> { FindingsFor(Kept(needs), Functions(Kept(needs))) }

  // ---- The specification, told of the needs ----

  ghost predicate MergesAt(needs: seq<Need>, ps: seq<Place>, facts: seq<Fact>) {
    && InOrder(ps) && (forall p :: p in ps <==> IsPlace(needs, p))
    && |facts| == |ps| && forall m | 0 <= m < |ps| :: IsPlace(needs, ps[m]) && facts[m] == FactAt(needs, ps[m])
  }

  /** The places of the facts merged. */
  lemma {:induction false} MergedPlaces(needs: seq<Need>) returns (ps: seq<Place>)
    ensures MergesAt(needs, ps, Merged(needs))
  {
    ps := [];
    if needs != [] {
      var n := |needs| - 1;
      var front := MergedPlaces(needs[..n]);
      ps := front + LastPlaces(needs);
      AddedPlaces(needs, front);
    }
  }

  /** The places of one more need. */
  ghost function LastPlaces(needs: seq<Need>): seq<Place>
    requires needs != []
  {
    var n := |needs| - 1;
    if needs[n].optional then [] else seq(|needs[n].facts|, (j: nat) => Place(n, j))
  }

  lemma WhereLast(needs: seq<Need>)
    requires needs != []
    ensures forall p :: p in LastPlaces(needs) <==> IsPlace(needs, p) && p.list == |needs| - 1
    ensures InOrder(LastPlaces(needs))
    ensures forall p :: IsPlace(needs[..|needs| - 1], p) <==> IsPlace(needs, p) && p.list < |needs| - 1
  {
    forall p | IsPlace(needs, p) && p.list == |needs| - 1 ensures p in LastPlaces(needs) {
      assert LastPlaces(needs)[p.at] == p;
    }
  }

  lemma AddedPlaces(needs: seq<Need>, front: seq<Place>)
    requires needs != [] && MergesAt(needs[..|needs| - 1], front, Merged(needs[..|needs| - 1]))
    ensures MergesAt(needs, front + LastPlaces(needs), Merged(needs))
  {
    MergedFacts(needs, front);
    hide Merged;
    ListedPlaces(needs, front);
  }

  lemma ListedPlaces(needs: seq<Need>, front: seq<Place>)
    requires needs != [] && InOrder(front) && forall p :: p in front <==> IsPlace(needs[..|needs| - 1], p)
    ensures InOrder(front + LastPlaces(needs))
    ensures forall p :: p in front + LastPlaces(needs) <==> IsPlace(needs, p)
  {
    var more := LastPlaces(needs);
    WhereLast(needs);
    hide LastPlaces, IsPlace;
    LaterPlaces(front, more, |needs| - 1);
    forall p ensures p in front + more <==> IsPlace(needs, p) {
      assert IsPlace(needs, p) ==> p.list < |needs| by {
        PlaceIsInside(needs, p);
      }
    }
  }

  lemma PlaceIsInside(needs: seq<Need>, p: Place)
    ensures IsPlace(needs, p) ==> p.list < |needs|
  {
  }

  lemma LaterPlaces(front: seq<Place>, more: seq<Place>, n: nat)
    requires InOrder(front) && InOrder(more)
    requires (forall p | p in front :: p.list < n) && forall p | p in more :: p.list == n
    ensures InOrder(front + more)
  {
    assert forall i | 0 <= i < |front| :: front[i] in front;
    assert forall i | 0 <= i < |more| :: more[i] in more;
  }

  lemma MergedFacts(needs: seq<Need>, front: seq<Place>)
    requires needs != [] && MergesAt(needs[..|needs| - 1], front, Merged(needs[..|needs| - 1]))
    ensures var ps := front + LastPlaces(needs);
      |Merged(needs)| == |ps| &&
      forall m | 0 <= m < |ps| :: IsPlace(needs, ps[m]) && Merged(needs)[m] == FactAt(needs, ps[m])
  {
  }

  /** The facts picked are those whose id comes first. */
  lemma {:induction false} FirstsArePicked(facts: seq<Fact>)
    ensures Picks(facts, (k: nat) => k < |facts| && forall j | 0 <= j < k :: facts[j].id != facts[k].id, Firsts(facts))
  {
    hide Picks;
    var p := (k: nat) => k < |facts| && forall j | 0 <= j < k :: facts[j].id != facts[k].id;
    if facts == [] {
      PickNone<Fact>(p);
    } else {
      var n := |facts| - 1;
      var front, last := facts[..n], facts[n];
      FirstsArePicked(front);
      PickAlike(front, (k: nat) => k < |front| && forall j | 0 <= j < k :: front[j].id != front[k].id, p,
                Firsts(front));
      PickOneMore(front, last, p, Firsts(front));
      assert facts == front + [last];
      FirstsKeepIds(front);
      assert p(n) <==> last.id !in Ids(front) by {
        if last.id in Ids(front) {
          var f :| f in front && f.id == last.id;
          var j :| 0 <= j < n && front[j] == f;
          assert facts[j].id == facts[n].id;
        }
        assert forall j | 0 <= j < n :: facts[j] in front;
      }
    }
  }

  lemma CollectedByPlaces(needs: seq<Need>)
    ensures IsCollection(needs, Firsts(Merged(needs)))
  {
    var all := Merged(needs);
    var ps := MergedPlaces(needs);
    FirstsArePicked(all);
    var p := (k: nat) => k < |all| && forall j | 0 <= j < k :: all[j].id != all[k].id;
    var ks :| PicksAt(all, p, ks, Firsts(all));
    PickedPlaces(needs, all, ps, p, ks, Firsts(all));
  }

  lemma PickedPlaces(needs: seq<Need>, all: seq<Fact>, ps: seq<Place>, p: nat -> bool, ks: seq<nat>,
                     picked: seq<Fact>)
    requires MergesAt(needs, ps, all) && PicksAt(all, p, ks, picked)
    requires forall k: nat :: p(k) <==> k < |all| && forall j | 0 <= j < k :: all[j].id != all[k].id
    ensures IsCollection(needs, picked)
  {
    var firsts := seq(|ks|, (m: nat) requires m < |ks| => ps[ks[m]]);
    forall k: nat | k < |ps| ensures p(k) <==> IsFirstPlace(needs, ps[k]) {
      FirstByPlace(needs, all, ps, k);
    }
    forall q ensures q in firsts <==> IsFirstPlace(needs, q) {
      if q in firsts {
        var m :| 0 <= m < |firsts| && firsts[m] == q;
        assert ks[m] in ks;
      }
      if IsFirstPlace(needs, q) {
        assert q in ps;
        var k :| 0 <= k < |ps| && ps[k] == q;
        assert k in ks;
        var m :| 0 <= m < |ks| && ks[m] == k;
        assert firsts[m] == q;
      }
    }
    assert CollectsAt(needs, firsts, picked);
  }

  lemma FirstByPlace(needs: seq<Need>, all: seq<Fact>, ps: seq<Place>, k: nat)
    requires MergesAt(needs, ps, all) && k < |ps|
    ensures IsFirstPlace(needs, ps[k]) <==> forall j | 0 <= j < k :: all[j].id != all[k].id
  {
    if IsFirstPlace(needs, ps[k]) {
      forall j | 0 <= j < k ensures all[j].id != all[k].id {
        assert Earlier(ps[j], ps[k]) && IsPlace(needs, ps[j]);
      }
    }
    if forall j | 0 <= j < k :: all[j].id != all[k].id {
      forall q | IsPlace(needs, q) && Earlier(q, ps[k]) ensures FactAt(needs, q).id != FactAt(needs, ps[k]).id {
        assert q in ps;
        var j :| 0 <= j < |ps| && ps[j] == q;
        assert j < k;
      }
    }
  }

  lemma FindingMeans(facts: seq<Fact>)
    ensures IsFindingOf(facts, if facts == [] then [] else [Evidence(Lowest(facts), facts)])
  {
    if facts != [] {
      LowestIsLeast(facts);
    }
  }

  lemma {:induction false} SurvivorsArePicked(facts: seq<Fact>, excluded: set<nat>)
    ensures Picks(facts, (k: nat) => k < |facts| && facts[k].function_ !in excluded, Surviving(facts, excluded))
  {
    hide Picks;
    var p := (k: nat) => k < |facts| && facts[k].function_ !in excluded;
    if facts == [] {
      PickNone<Fact>(p);
    } else {
      var front, last := facts[..|facts| - 1], facts[|facts| - 1];
      SurvivorsArePicked(front, excluded);
      PickAlike(front, (k: nat) => k < |front| && front[k].function_ !in excluded, p, Surviving(front, excluded));
      PickOneMore(front, last, p, Surviving(front, excluded));
      assert facts == front + [last];
      assert Surviving(front, excluded) + [] == Surviving(front, excluded);
    }
  }

  /** The facts of the missing-match modes, told of the needs. */
  lemma KeptArePicked(needs: seq<Need>)
    ensures Picks(Primary(needs), NotExcludedAt(needs), Kept(needs))
  {
    var facts, excluded := Primary(needs), ExcludedSet(needs);
    SurvivorsArePicked(facts, excluded);
    forall k: nat | k < |facts|
      ensures facts[k].function_ !in excluded <==> NotExcludedAt(needs)(k)
    {
      assert facts[k].function_ in excluded <==> Excluded(needs, facts[k].function_);
    }
    PickAlike(facts, (k: nat) => k < |facts| && facts[k].function_ !in excluded, NotExcludedAt(needs), Kept(needs));
  }

  lemma {:induction false} GroupIsPicked(facts: seq<Fact>, f: nat)
    ensures Picks(facts, OfFunctionAt(facts, f), OfFunction(facts, f))
  {
    hide Picks;
    var p := OfFunctionAt(facts, f);
    if facts == [] {
      PickNone<Fact>(p);
    } else {
      var front, last := facts[..|facts| - 1], facts[|facts| - 1];
      GroupIsPicked(front, f);
      PickAlike(front, OfFunctionAt(front, f), p, OfFunction(front, f));
      PickOneMore(front, last, p, OfFunction(front, f));
      assert facts == front + [last];
      assert OfFunction(front, f) + [] == OfFunction(front, f);
    }
  }

  lemma {:induction false} FunctionsArePicked(facts: seq<Fact>)
    ensures Picks(FunctionsOf(facts), FirstSeenAt(facts), Functions(facts))
  {
    hide Picks;
    var p := FirstSeenAt(facts);
    if facts == [] {
      PickNone<nat>(p);
      assert FunctionsOf(facts) == [];
    } else {
      var n := |facts| - 1;
      var front, last := facts[..n], facts[n];
      FunctionsArePicked(front);
      PickAlike(FunctionsOf(front), FirstSeenAt(front), p, Functions(front));
      PickOneMore(FunctionsOf(front), last.function_, p, Functions(front));
      assert FunctionsOf(facts) == FunctionsOf(front) + [last.function_];
      FunctionsInOrder(front);
      assert p(n) <==> last.function_ !in Functions(front) by {
        if x :| x in front && x.function_ == last.function_ {
          var j :| 0 <= j < n && front[j] == x;
          assert facts[j].function_ == facts[n].function_;
        }
        assert forall j | 0 <= j < n :: facts[j] in front;
      }
    }
  }

  lemma GroupingMeans(facts: seq<Fact>)
    ensures IsGrouping(facts, FindingsFor(facts, Functions(facts)))
  {
    hide OfFunction, Functions, Lowest, Picks, FunctionsOf, FirstSeenAt, OfFunctionAt, IsFindingOf;
    var order := Functions(facts);
    var result := FindingsFor(facts, order);
    FindingsAreByFunction(facts, order);
    FunctionsArePicked(facts);
    forall i | 0 <= i < |order|
      ensures Picks(facts, OfFunctionAt(facts, order[i]), result[i].items) && IsFindingOf(result[i].items, [result[i]])
    {
      GroupIsPicked(facts, order[i]);
      NotSeen(facts, order[i]);
      FindingMeans(OfFunction(facts, order[i]));
    }
    assert GroupsAs(facts, order, result);
  }

  lemma {:induction false} MergedIsEmpty(needs: seq<Need>)
    ensures Merged(needs) == [] <==> forall i | 0 <= i < |needs| && !needs[i].optional :: needs[i].facts == []
    ensures Firsts(Merged(needs)) == [] <==> Merged(needs) == []
  {
    if needs != [] {
      MergedIsEmpty(needs[..|needs| - 1]);
      assert forall i | 0 <= i < |needs| - 1 :: needs[..|needs| - 1][i] == needs[i];
    }
    FirstsKeepIds(Merged(needs));
    if Merged(needs) != [] {
      assert Merged(needs)[0].id in Ids(Merged(needs));
    }
  }

  /** The ids collected are those of the facts that are not optional. */
  lemma CollectedIds(needs: seq<Need>, id: nat)
    ensures id in Ids(Firsts(Merged(needs))) <==> exists p :: IsPlace(needs, p) && FactAt(needs, p).id == id
  {
    FirstsKeepIds(Merged(needs));
    hide Firsts;
    var ps := MergedPlaces(needs);
    IdsAtPlaces(needs, ps, Merged(needs), id);
  }

  lemma IdsAtPlaces(needs: seq<Need>, ps: seq<Place>, all: seq<Fact>, id: nat)
    requires MergesAt(needs, ps, all)
    ensures id in Ids(all) <==> exists p :: IsPlace(needs, p) && FactAt(needs, p).id == id
  {
    if id in Ids(all) {
      var f :| f in all && f.id == id;
      var m :| 0 <= m < |all| && all[m] == f;
      assert FactAt(needs, ps[m]).id == id;
    }
    if p :| IsPlace(needs, p) && FactAt(needs, p).id == id {
      assert p in ps;
      var m :| 0 <= m < |ps| && ps[m] == p;
      assert all[m] in all;
    }
  }

  // ---- Laws ----

  lemma NotSeen(facts: seq<Fact>, f: nat)
    ensures f in Functions(facts) <==> OfFunction(facts, f) != []
  {
    if facts != [] {
      NotSeen(facts[..|facts| - 1], f);
    }
  }

  /** Collecting loses no id. */
  lemma {:induction false} FirstsKeepIds(facts: seq<Fact>)
    ensures Ids(Firsts(facts)) == Ids(facts)
  {
    if facts != [] {
      var front, last := facts[..|facts| - 1], facts[|facts| - 1];
      FirstsKeepIds(front);
      assert facts == front + [last];
      IdsAppend(front, [last]);
      IdsAppend(Firsts(front), [last]);
      assert Ids([last]) == {last.id};
    }
  }

  lemma IdsAppend(a: seq<Fact>, b: seq<Fact>)
    ensures Ids(a + b) == Ids(a) + Ids(b)
  {
  }

  /** Collected facts have distinct ids, and each id comes with the first fact that bears it. */
  lemma {:induction false} FirstsAreFirst(facts: seq<Fact>, k: nat)
    ensures forall i, j | 0 <= i < j < |Firsts(facts)| :: Firsts(facts)[i].id != Firsts(facts)[j].id
    ensures k < |facts| && (forall i | 0 <= i < k :: facts[i].id != facts[k].id) ==> facts[k] in Firsts(facts)
  {
    if facts != [] {
      var n := |facts| - 1;
      var front, last := facts[..n], facts[n];
      FirstsAreFirst(front, k);
      FirstsKeepIds(front);
      forall i | 0 <= i < |Firsts(front)| ensures Firsts(front)[i].id in Ids(Firsts(front)) {
        assert Firsts(front)[i] in Firsts(front);
      }
      assert k == n && (forall i | 0 <= i < n :: facts[i].id != last.id) ==> last.id !in Ids(front) by {
        forall f | f in front && f.id == last.id ensures exists i | 0 <= i < n :: facts[i].id == last.id {
          var i :| 0 <= i < n && front[i] == f;
          assert facts[i].id == last.id;
        }
      }
    }
  }

  /** The functions listed are distinct and just those of the facts. */
  lemma {:induction false} FunctionsInOrder(facts: seq<Fact>)
    ensures forall i, j | 0 <= i < j < |Functions(facts)| :: Functions(facts)[i] != Functions(facts)[j]
    ensures forall f :: f in Functions(facts) <==> exists x :: x in facts && x.function_ == f
  {
    if facts != [] {
      var front, last := facts[..|facts| - 1], facts[|facts| - 1];
      FunctionsInOrder(front);
      assert facts == front + [last];
      assert forall x :: x in facts <==> x in front || x == last;
    }
  }

  /** The findings hold the surviving facts, each as often: nothing is lost, added or counted twice. */
  lemma FindingsPartition(needs: seq<Need>)
    ensures multiset(AllItems(PerFunction(needs))) == multiset(Kept(needs))
  {
    var facts := Kept(needs);
    FunctionsInOrder(facts);
    forall x: Fact ensures multiset(AllItems(PerFunction(needs)))[x] == multiset(facts)[x] {
      ItemCounts(facts, Functions(facts), x);
      assert x.function_ !in Functions(facts) ==> x !in facts;
    }
  }

  lemma MultisetAppend(a: seq<Fact>, b: seq<Fact>, x: Fact)
    ensures multiset(a + b)[x] == multiset(a)[x] + multiset(b)[x]
  {
  }

  lemma {:induction false} ItemCounts(facts: seq<Fact>, order: seq<nat>, x: Fact)
    requires forall i, j | 0 <= i < j < |order| :: order[i] != order[j]
    ensures multiset(AllItems(FindingsFor(facts, order)))[x] == if x.function_ in order then multiset(facts)[x] else 0
  {
    if order != [] {
      var n := |order| - 1;
      ItemCounts(facts, order[..n], x);
      GroupCounts(facts, order[n], x);
      OneMoreGroup(facts, order);
      hide *;
      MultisetAppend(AllItems(FindingsFor(facts, order[..n])), OfFunction(facts, order[n]), x);
      assert order == order[..n] + [order[n]];
    }
  }

  lemma OneMoreGroup(facts: seq<Fact>, order: seq<nat>)
    requires order != []
    ensures AllItems(FindingsFor(facts, order))
      == AllItems(FindingsFor(facts, order[..|order| - 1])) + OfFunction(facts, order[|order| - 1])
  {
    hide OfFunction, Confidence;
    var front := FindingsFor(facts, order[..|order| - 1]);
    assert FindingsFor(facts, order)[..|front|] == front;
  }

  lemma {:induction false} GroupCounts(facts: seq<Fact>, f: nat, x: Fact)
    ensures multiset(OfFunction(facts, f))[x] == if x.function_ == f then multiset(facts)[x] else 0
  {
    if facts != [] {
      var front, last := facts[..|facts| - 1], facts[|facts| - 1];
      GroupCounts(front, f, x);
      MultisetAppend(front, [last], x);
      MultisetAppend(OfFunction(front, f), [last], x);
      assert facts == front + [last];
    }
  }

  /** Each finding is about one function, in the facts' own order, none of them excluded. */
  lemma {:induction false} FindingsAreByFunction(facts: seq<Fact>, order: seq<nat>)
    ensures |FindingsFor(facts, order)| == |order|
    ensures forall i | 0 <= i < |order| ::
      FindingsFor(facts, order)[i] == Evidence(Confidence(OfFunction(facts, order[i])), OfFunction(facts, order[i]))
  {
    hide OfFunction, Confidence;
    if order != [] {
      var n := |order| - 1;
      FindingsAreByFunction(facts, order[..n]);
      assert forall i | 0 <= i < n :: order[..n][i] == order[i];
    }
  }

  lemma {:induction false} SurvivorsAreNotExcluded(facts: seq<Fact>, excluded: set<nat>, x: Fact)
    ensures x in Surviving(facts, excluded) <==> x in facts && x.function_ !in excluded
  {
    if facts != [] {
      SurvivorsAreNotExcluded(facts[..|facts| - 1], excluded, x);
      assert facts == facts[..|facts| - 1] + [facts[|facts| - 1]];
    }
  }

  lemma {:induction false} GroupMembers(facts: seq<Fact>, f: nat, x: Fact)
    ensures x in OfFunction(facts, f) <==> x in facts && x.function_ == f
  {
    if facts != [] {
      GroupMembers(facts[..|facts| - 1], f, x);
      assert facts == facts[..|facts| - 1] + [facts[|facts| - 1]];
    }
  }

  /** The confidence of a finding is the least among its facts. */
  lemma {:induction false} LowestIsLeast(facts: seq<Fact>)
    requires facts != []
    ensures exists f :: f in facts && f.confidence == Lowest(facts)
    ensures forall f | f in facts :: Lowest(facts) <= f.confidence
  {
    var n := |facts| - 1;
    if n > 0 {
      LowestIsLeast(facts[..n]);
      assert facts == facts[..n] + [facts[n]];
    } else {
      assert facts == [facts[0]] && Lowest(facts) == facts[0].confidence && facts[0] in facts;
    }
  }

  /** One mode answers nothing exactly when the other does. */
  lemma EmptyTogether(needs: seq<Need>)
    ensures Flat(needs) == [] <==> PerFunction(needs) == []
    ensures |PerFunction(needs)| == |Functions(Kept(needs))|
  {
    FindingsAreByFunction(Kept(needs), Functions(Kept(needs)));
    FunctionsInOrder(Kept(needs));
    if Kept(needs) != [] {
      assert Kept(needs)[0] in Kept(needs);
    }
  }

  /**
   * A grouped finding is about one function, the next in first-seen order, which is not
   * excluded; it holds just that function's surviving facts, in order, and its confidence is
   * no lower than the flat finding's.
   */
  lemma FindingIsOfOneFunction(needs: seq<Need>, i: nat)
    requires i < |PerFunction(needs)|
    ensures |PerFunction(needs)| == |Functions(Kept(needs))| && Flat(needs) != []
    ensures var f := Functions(Kept(needs))[i];
      var ev := PerFunction(needs)[i];
      && ev.items == OfFunction(Kept(needs), f) && ev.items != [] && !Excluded(needs, f)
      && Flat(needs)[0].confidence <= ev.confidence
  {
    hide OfFunction, Functions, Lowest, Excluded;
    var facts := Kept(needs);
    var order := Functions(facts);
    EmptyTogether(needs);
    FindingsAreByFunction(facts, order);
    NotSeen(facts, order[i]);
    GroupIsNoLower(facts, order[i]);
    var x := OfFunction(facts, order[i])[0];
    GroupMembers(facts, order[i], x);
    SurvivorsAreNotExcluded(Primary(needs), ExcludedSet(needs), x);
  }

  /** The least confidence among the grouped findings is that of the flat one: none is lower, and some is equal. */
  lemma LeastConfidenceAgrees(needs: seq<Need>)
    requires Flat(needs) != []
    ensures forall i | 0 <= i < |PerFunction(needs)| :: Flat(needs)[0].confidence <= PerFunction(needs)[i].confidence
    ensures exists i | 0 <= i < |PerFunction(needs)| :: PerFunction(needs)[i].confidence == Flat(needs)[0].confidence
  {
    hide OfFunction, Functions, Lowest;
    var facts := Kept(needs);
    var order := Functions(facts);
    FindingsAreByFunction(facts, order);
    LowestIsLeast(facts);
    var f :| f in facts && f.confidence == Lowest(facts);
    FunctionsInOrder(facts);
    assert f.function_ in order;
    var i :| 0 <= i < |order| && order[i] == f.function_;
    GroupMembers(facts, order[i], f);
    LowestIsLeast(OfFunction(facts, order[i]));
    GroupIsNoLower(facts, order[i]);
    assert PerFunction(needs)[i].confidence == Flat(needs)[0].confidence;
    forall k | 0 <= k < |PerFunction(needs)|
      ensures Flat(needs)[0].confidence <= PerFunction(needs)[k].confidence
    {
      FindingIsOfOneFunction(needs, k);
    }
  }

  lemma GroupIsNoLower(facts: seq<Fact>, f: nat)
    requires OfFunction(facts, f) != []
    ensures facts != [] && Lowest(facts) <= Lowest(OfFunction(facts, f))
  {
    LowestIsLeast(OfFunction(facts, f));
    var x :| x in OfFunction(facts, f) && x.confidence == Lowest(OfFunction(facts, f));
    GroupMembers(facts, f, x);
    LowestIsLeast(facts);
  }

  // ---- Against exclusion by the second need alone ----

  /** The functions that the second need has a fact for, be it optional or not. */
  ghost predicate ExcludedBySecond(needs: seq<Need>, f: nat) { |needs| > 1 && BearsFunction(needs[1].facts, f) }

  /** Both ways of excluding leave the same facts of the first need. */
  ghost predicate SecondDecides(needs: seq<Need>) {
    forall ex | IsExcludedBySecond(needs, ex) :: Surviving(Primary(needs), ex) == Kept(needs)
  }

  ghost predicate IsExcludedBySecond(needs: seq<Need>, ex: set<nat>) {
    forall f :: f in ex <==> ExcludedBySecond(needs, f)
  }

  lemma {:induction false} SurvivorsAgreeExactly(facts: seq<Fact>, a: set<nat>, b: set<nat>)
    ensures Surviving(facts, a) == Surviving(facts, b) <==>
      forall x | x in facts :: x.function_ in a <==> x.function_ in b
  {
    if forall x | x in facts :: x.function_ in a <==> x.function_ in b {
      SameSurvivors(facts, a, b);
    } else {
      var x :| x in facts && (x.function_ in a) != (x.function_ in b);
      SurvivorsAreNotExcluded(facts, a, x);
      SurvivorsAreNotExcluded(facts, b, x);
    }
  }

  lemma {:induction false} SameSurvivors(facts: seq<Fact>, a: set<nat>, b: set<nat>)
    requires forall x | x in facts :: x.function_ in a <==> x.function_ in b
    ensures Surviving(facts, a) == Surviving(facts, b)
  {
    if facts != [] {
      SameSurvivors(facts[..|facts| - 1], a, b);
    }
  }

  lemma SecondIsFinite(needs: seq<Need>) returns (ex: set<nat>)
    ensures IsExcludedBySecond(needs, ex)
  {
    ex := if |needs| > 1 then set s | s in needs[1].facts :: s.function_ else {};
  }

  /** The second need alone decides exactly when the two agree on every function of the first need. */
  lemma SecondDecidesExactly(needs: seq<Need>)
    ensures SecondDecides(needs) <==>
      forall x | x in Primary(needs) :: Excluded(needs, x.function_) <==> ExcludedBySecond(needs, x.function_)
  {
    hide Excluded, ExcludedBySecond;
    var ex := SecondIsFinite(needs);
    SurvivorsAgreeExactly(Primary(needs), ex, ExcludedSet(needs));
    forall ex' | IsExcludedBySecond(needs, ex') ensures ex' == ex {
    }
  }

  /** The same needs with other rows in the store. */
  ghost predicate SameShape(needs: seq<Need>, other: seq<Need>) {
    |needs| == |other| && forall i | 0 <= i < |needs| :: needs[i].optional == other[i].optional
  }

  /** At most one need, or the second is optional and no later one is. */
  predicate OnlySecondOptional(needs: seq<Need>) {
    |needs| > 1 ==> needs[1].optional && forall i | 2 <= i < |needs| :: !needs[i].optional
  }

  /**
   * For a rule, whatever the store holds, the second need decides exactly when there is none
   * or it is the only optional one after the first.
   */
  lemma SecondDecidesForAllFacts(needs: seq<Need>)
    ensures (forall other | SameShape(needs, other) :: SecondDecides(other)) <==> OnlySecondOptional(needs)
  {
    if OnlySecondOptional(needs) {
      forall other | SameShape(needs, other) ensures SecondDecides(other) {
        OnlySecondExcludes(other);
        SecondDecidesExactly(other);
      }
    } else if !needs[1].optional {
      OneRow(needs, 1);
    } else {
      var i :| 2 <= i < |needs| && needs[i].optional;
      OneRow(needs, i);
    }
  }

  lemma OnlySecondExcludes(needs: seq<Need>)
    requires OnlySecondOptional(needs)
    ensures forall f :: Excluded(needs, f) <==> ExcludedBySecond(needs, f)
  {
  }

  /** The first need and one other answer the same row, the rest nothing: only that other one can exclude it. */
  lemma OneRow(needs: seq<Need>, i: nat)
    requires 1 <= i < |needs| && needs[i].optional == (i != 1)
    ensures exists other :: SameShape(needs, other) && !SecondDecides(other)
  {
    var row := [Fact(1, 7, 1.0, "")];
    var other := seq(|needs|, (k: nat) requires k < |needs| =>
      Need(needs[k].optional, if k == 0 || k == i then row else []));
    assert row[0] in Primary(other);
    assert BearsFunction(row, 7) && !BearsFunction([], 7);
    assert ExcludedBySecond(other, 7) <==> i == 1;
    assert Excluded(other, 7) <==> i != 1 by {
      if i != 1 {
        assert other[i].optional && row[0] in other[i].facts;
      }
    }
    SecondDecidesExactly(other);
    assert SameShape(needs, other);
  }
}
