/** The org-chart page (pages/company-hierarchy/index.tsx): the expanded set,
    direct reports by `managerId`, the top-level positions and the
    depth-first render walk that descends only into expanded positions. */
module CompanyHierarchy {
  import opened Seqs
  import opened Interfaces

  // ---------------------------------------------------------------------
  // Expanded set
  // ---------------------------------------------------------------------

  /** The chart opens with position "1" expanded. */
  const InitialExpanded: set<string> := {"1"}

  /** `togglePosition`: a new set in which `id` has flipped membership and
      every other id is as before. Sets are values here, so the caller's
      set is untouched, as with the copy the page makes before `add` or
      `delete`. */
  function TogglePosition(expanded: set<string>, id: string): (r: set<string>)
    ensures id in r <==> id !in expanded
    ensures forall x :: x != id ==> (x in r <==> x in expanded)
  {
    if id in expanded then expanded - {id} else expanded + {id}
  }

  /** Toggling the same id twice restores the original set. */
  lemma ToggleTwice(expanded: set<string>, id: string)
    ensures TogglePosition(TogglePosition(expanded, id), id) == expanded
  {
  }

  // ---------------------------------------------------------------------
  // Direct reports and top-level positions
  // ---------------------------------------------------------------------

  /** The test `getDirectReports` filters by: `managerId === id`. A missing
      `managerId` equals no string. */
  predicate ReportsTo(q: Position, id: string)
  {
    q.managerId == Some(id)
  }

  /** `getDirectReports`, written as the walk over the chart that `filter`
      performs; `DirectReportsIsFilter` ties it to `Filter`. */
  function DirectReports(ps: seq<Position>, id: string): (r: seq<Position>)
    ensures forall q :: q in r ==> q in ps
  {
    if ps == [] then []
    else (if ReportsTo(ps[0], id) then [ps[0]] else []) + DirectReports(ps[1..], id)
  }

  /** `getDirectReports(id)` is `positions.filter(pos => pos.managerId === id)`. */
  lemma {:induction false} DirectReportsIsFilter(ps: seq<Position>, id: string)
    ensures DirectReports(ps, id) == Filter(ps, (q: Position) => ReportsTo(q, id))
  {
    if ps != [] {
      DirectReportsIsFilter(ps[1..], id);
    }
  }

  /** The reports of `id` are the positions naming `id` as manager, each
      as often as in the chart, in chart order. */
  lemma DirectReportsExact(ps: seq<Position>, id: string)
    ensures Subseq(DirectReports(ps, id), ps)
    ensures forall q :: q in DirectReports(ps, id) <==> q in ps && ReportsTo(q, id)
    ensures forall q :: multiset(DirectReports(ps, id))[q] == if ReportsTo(q, id) then multiset(ps)[q] else 0
  {
    DirectReportsIsFilter(ps, id);
    FilterCounts(ps, (q: Position) => ReportsTo(q, id));
  }

  /** An id that no position names as its manager has no reports. */
  lemma NoReports(ps: seq<Position>, id: string)
    requires forall q :: q in ps ==> !ReportsTo(q, id)
    ensures DirectReports(ps, id) == []
  {
    DirectReportsExact(ps, id);
    if DirectReports(ps, id) != [] {
      assert DirectReports(ps, id)[0] in DirectReports(ps, id);
    }
  }

  /** `!pos.managerId`: the id is absent or the empty string. */
  predicate IsTopLevel(p: Position)
  {
    p.managerId == None || p.managerId == Some("")
  }

  /** `topLevelPositions`: exactly the positions with a falsy `managerId`,
      in input order. */
  function TopLevel(ps: seq<Position>): (r: seq<Position>)
    ensures Subseq(r, ps)
    ensures forall q :: q in r <==> q in ps && IsTopLevel(q)
    ensures forall q :: multiset(r)[q] == if IsTopLevel(q) then multiset(ps)[q] else 0
  {
    FilterCounts(ps, IsTopLevel);
    Filter(ps, IsTopLevel)
  }

  /** The "No positions defined" card is shown when there is no top-level
      position. */
  function ShowsEmptyState(ps: seq<Position>): (b: bool)
    ensures b <==> forall q :: q in ps ==> !IsTopLevel(q)
  {
    TopLevel(ps) == []
  }

  // ---------------------------------------------------------------------
  // The render walk
  // ---------------------------------------------------------------------

  /** What sits left of a position's card: a spacer, or the expand/collapse
      button showing a down chevron (expanded) or a right chevron. */
  datatype Control = Spacer | Chevron(expanded: bool)

  /** One rendered card: the position, its indentation depth and its control. */
  datatype Visit = Visit(position: Position, depth: nat, control: Control)

  /** The result of a walk. `Diverges(id)` marks the point where the walk
      would enter position `id` while already inside it: the source
      recurses without a guard, and since what is rendered under a position
      depends only on its id and the expanded set, the recursion there is
      unbounded. The JavaScript engine ends it with a stack overflow (a
      `RangeError`), and the page fails to render. The page itself reports
      no error of its own. */
  datatype Outcome = Rendered(visits: seq<Visit>) | Diverges(id: string)

  /** The button appears exactly when the position has direct reports. */
  function ControlFor(ps: seq<Position>, expanded: set<string>, p: Position): (c: Control)
    ensures c.Chevron? <==> DirectReports(ps, p.id) != []
    ensures c.Chevron? ==> (c.expanded <==> p.id in expanded)
  {
    if |DirectReports(ps, p.id)| > 0 then Chevron(p.id in expanded) else Spacer
  }

  /** The walk descends below `p`: it is expanded and has reports. */
  predicate Opens(ps: seq<Position>, expanded: set<string>, p: Position)
  {
    p.id in expanded && |DirectReports(ps, p.id)| > 0
  }

  /** The ids of the chart's positions. */
  function Ids(ps: seq<Position>): set<string>
  {
    if ps == [] then {} else {ps[0].id} + Ids(ps[1..])
  }

  lemma {:induction false} InIds(ps: seq<Position>, c: Position)
    requires c in ps
    ensures Ids(ps) + {c.id} == Ids(ps)
  {
    if ps[0] != c {
      InIds(ps[1..], c);
    }
  }

  /** Adding a fresh id to the path shrinks the termination measure by one. */
  lemma PathGrows(ids: set<string>, path: set<string>, x: string)
    requires x !in path
    ensures |(ids + {x}) - path| == |ids - (path + {x})| + 1
  {
    assert (ids + {x}) - path == (ids - (path + {x})) + {x};
  }

  /** `renderPosition(p, depth)`: the card for `p` first, then, only when
      `p` is expanded and has reports, the walks of its reports in
      `getDirectReports` order at `depth + 1`. `path` holds the ids of the
      positions the walk is currently inside. */
  function Walk(ps: seq<Position>, expanded: set<string>, p: Position, depth: nat, path: set<string>): (r: Outcome)
    requires p.id !in path
    ensures r.Rendered? ==> |r.visits| >= 1 && r.visits[0] == Visit(p, depth, ControlFor(ps, expanded, p))
    ensures !Opens(ps, expanded, p) ==> r == Rendered([Visit(p, depth, ControlFor(ps, expanded, p))])
    decreases |(Ids(ps) + {p.id}) - path|, 1, 0
  {
    var head := Visit(p, depth, ControlFor(ps, expanded, p));
    if Opens(ps, expanded, p) then
      PathGrows(Ids(ps), path, p.id);
      var below := WalkAll(ps, expanded, DirectReports(ps, p.id), depth + 1, path + {p.id});
      if below.Diverges? then below else Rendered([head] + below.visits)
    else
      Rendered([head])
  }

  /** `reports.map(report => renderPosition(report, depth))`: the walks of
      `cs` one after the other; the first that diverges makes the whole
      list diverge. */
  function WalkAll(ps: seq<Position>, expanded: set<string>, cs: seq<Position>, depth: nat, path: set<string>): (r: Outcome)
    requires forall c :: c in cs ==> c in ps
    ensures r.Rendered? ==> (|r.visits| == 0 <==> cs == [])
    decreases |Ids(ps) - path| + 1, 0, |cs|
  {
    if cs == [] then Rendered([])
    else if cs[0].id in path then Diverges(cs[0].id)
    else
      InIds(ps, cs[0]);
      var first := Walk(ps, expanded, cs[0], depth, path);
      if first.Diverges? then first
      else
        var rest := WalkAll(ps, expanded, cs[1..], depth, path);
        if rest.Diverges? then rest
        else Rendered(first.visits + rest.visits)
  }

  /** The whole chart: the walks of the top-level positions at depth 0.
      It draws no card exactly when the empty-state card is shown instead. */
  function RenderChart(ps: seq<Position>, expanded: set<string>): (r: Outcome)
    ensures r.Rendered? ==> (r.visits == [] <==> ShowsEmptyState(ps))
  {
    WalkAll(ps, expanded, TopLevel(ps), 0, {})
  }

  // ---------------------------------------------------------------------
  // Properties of the walk
  // ---------------------------------------------------------------------

  /** The positions of the visits at exactly depth `d`, in visiting order. */
  function Level(vs: seq<Visit>, d: nat): seq<Position>
  {
    if vs == [] then []
    else (if vs[0].depth == d then [vs[0].position] else []) + Level(vs[1..], d)
  }

  lemma {:induction false} LevelConcat(a: seq<Visit>, b: seq<Visit>, d: nat)
    ensures Level(a + b, d) == Level(a, d) + Level(b, d)
  {
    if a == [] {
      assert a + b == b;
    } else {
      var ab := a + b;
      assert ab[0] == a[0];
      assert ab[1..] == a[1..] + b;
      LevelConcat(a[1..], b, d);
      var here := if a[0].depth == d then [a[0].position] else [];
      calc {
        Level(ab, d);
        here + Level(ab[1..], d);
        here + (Level(a[1..], d) + Level(b, d));
        (here + Level(a[1..], d)) + Level(b, d);
      }
    }
  }

  /** Every visit of a walk from `p` at depth `d` lies at depth `d` or
      deeper, all but the first are positions of the chart, and the visits
      at depth `d + 1` are exactly `p`'s direct reports in order when `p`
      opens, and none otherwise. */
  lemma {:induction false} WalkShape(ps: seq<Position>, expanded: set<string>, p: Position, d: nat, path: set<string>)
    requires p.id !in path
    requires Walk(ps, expanded, p, d, path).Rendered?
    ensures var vs := Walk(ps, expanded, p, d, path).visits;
      && (forall i :: 1 <= i < |vs| ==> vs[i].depth > d && vs[i].position in ps)
      && Level(vs, d) == [p]
      && Level(vs, d + 1) == if Opens(ps, expanded, p) then DirectReports(ps, p.id) else []
    decreases |(Ids(ps) + {p.id}) - path|, 1, 0
  {
    var vs := Walk(ps, expanded, p, d, path).visits;
    var head := Visit(p, d, ControlFor(ps, expanded, p));
    if Opens(ps, expanded, p) {
      PathGrows(Ids(ps), path, p.id);
      var cs := DirectReports(ps, p.id);
      WalkAllShape(ps, expanded, cs, d + 1, path + {p.id});
      var below := WalkAll(ps, expanded, cs, d + 1, path + {p.id}).visits;
      assert vs == [head] + below;
      LevelConcat([head], below, d);
      LevelConcat([head], below, d + 1);
      LevelAbove(below, d);
    }
  }

  /** No visit of `vs` lies at depth `d`, so its level `d` is empty. */
  lemma {:induction false} LevelAbove(vs: seq<Visit>, d: nat)
    requires forall i :: 0 <= i < |vs| ==> vs[i].depth > d
    ensures Level(vs, d) == []
  {
    if vs != [] {
      LevelAbove(vs[1..], d);
    }
  }

  /** A rendered walk of a non-empty list is the walk of its head followed
      by the walk of its tail. */
  lemma WalkAllUnfold(ps: seq<Position>, expanded: set<string>, cs: seq<Position>, d: nat, path: set<string>)
    requires forall c :: c in cs ==> c in ps
    requires cs != [] && cs[0].id !in path
    requires WalkAll(ps, expanded, cs, d, path).Rendered?
    ensures Walk(ps, expanded, cs[0], d, path).Rendered?
    ensures WalkAll(ps, expanded, cs[1..], d, path).Rendered?
    ensures WalkAll(ps, expanded, cs, d, path).visits
         == Walk(ps, expanded, cs[0], d, path).visits + WalkAll(ps, expanded, cs[1..], d, path).visits
  {
  }

  /** Every card of `vs` lies at depth `d` or deeper and shows a position
      of the chart. */
  predicate Within(ps: seq<Position>, vs: seq<Visit>, d: nat)
  {
    forall i :: 0 <= i < |vs| ==> vs[i].depth >= d && vs[i].position in ps
  }

  lemma WithinConcat(ps: seq<Position>, a: seq<Visit>, b: seq<Visit>, d: nat)
    requires Within(ps, a, d) && Within(ps, b, d)
    ensures Within(ps, a + b, d)
  {
    forall i | 0 <= i < |a + b|
      ensures (a + b)[i].depth >= d && (a + b)[i].position in ps
    {
      if i >= |a| {
        assert (a + b)[i] == b[i - |a|];
      }
    }
  }

  /** The walk from a position of the chart stays within the chart, at its
      depth or deeper, and its only card at its own depth is its first. */
  lemma WalkWithin(ps: seq<Position>, expanded: set<string>, p: Position, d: nat, path: set<string>)
    requires p in ps && p.id !in path
    requires Walk(ps, expanded, p, d, path).Rendered?
    ensures Within(ps, Walk(ps, expanded, p, d, path).visits, d)
    ensures Level(Walk(ps, expanded, p, d, path).visits, d) == [p]
    decreases |(Ids(ps) + {p.id}) - path|, 2, 0
  {
    WalkShape(ps, expanded, p, d, path);
  }

  /** The walk of a list of positions at depth `d` stays at depth `d` or
      deeper, visits only positions of the chart, and its visits at depth
      `d` are exactly the list, in order. */
  lemma {:induction false} WalkAllShape(ps: seq<Position>, expanded: set<string>, cs: seq<Position>, d: nat, path: set<string>)
    requires forall c :: c in cs ==> c in ps
    requires WalkAll(ps, expanded, cs, d, path).Rendered?
    ensures var vs := WalkAll(ps, expanded, cs, d, path).visits;
      && Within(ps, vs, d)
      && Level(vs, d) == cs
      && (cs != [] ==> vs[0] == Visit(cs[0], d, ControlFor(ps, expanded, cs[0])))
    decreases |Ids(ps) - path| + 1, 0, |cs|
  {
    if cs != [] {
      assert cs[0] in cs && cs[0].id !in path;
      WalkAllUnfold(ps, expanded, cs, d, path);
      var first := Walk(ps, expanded, cs[0], d, path).visits;
      var rest := WalkAll(ps, expanded, cs[1..], d, path).visits;
      InIds(ps, cs[0]);
      WalkWithin(ps, expanded, cs[0], d, path);
      WalkAllShape(ps, expanded, cs[1..], d, path);
      WithinConcat(ps, first, rest, d);
      LevelConcat(first, rest, d);
      assert Level(first + rest, d) == [cs[0]] + cs[1..] == cs;
      assert (first + rest)[0] == first[0];
    }
  }

  /** Every card carries the control its position calls for. */
  predicate ControlsMatch(ps: seq<Position>, expanded: set<string>, vs: seq<Visit>)
  {
    forall i :: 0 <= i < |vs| ==> vs[i].control == ControlFor(ps, expanded, vs[i].position)
  }

  lemma ControlsMatchConcat(ps: seq<Position>, expanded: set<string>, a: seq<Visit>, b: seq<Visit>)
    requires ControlsMatch(ps, expanded, a) && ControlsMatch(ps, expanded, b)
    ensures ControlsMatch(ps, expanded, a + b)
  {
    forall i | 0 <= i < |a + b|
      ensures (a + b)[i].control == ControlFor(ps, expanded, (a + b)[i].position)
    {
      if i >= |a| {
        assert (a + b)[i] == b[i - |a|];
      }
    }
  }

  /** On every card of a walk, the expand/collapse button is present exactly
      when that position has direct reports, and it shows whether the
      position is expanded. */
  lemma {:induction false} WalkControls(ps: seq<Position>, expanded: set<string>, p: Position, d: nat, path: set<string>)
    requires p.id !in path
    requires Walk(ps, expanded, p, d, path).Rendered?
    ensures ControlsMatch(ps, expanded, Walk(ps, expanded, p, d, path).visits)
    decreases |(Ids(ps) + {p.id}) - path|, 1, 0
  {
    if Opens(ps, expanded, p) {
      PathGrows(Ids(ps), path, p.id);
      var cs := DirectReports(ps, p.id);
      WalkAllControls(ps, expanded, cs, d + 1, path + {p.id});
      var below := WalkAll(ps, expanded, cs, d + 1, path + {p.id}).visits;
      ControlsMatchConcat(ps, expanded, [Visit(p, d, ControlFor(ps, expanded, p))], below);
    }
  }

  lemma {:induction false} WalkAllControls(ps: seq<Position>, expanded: set<string>, cs: seq<Position>, d: nat, path: set<string>)
    requires forall c :: c in cs ==> c in ps
    requires WalkAll(ps, expanded, cs, d, path).Rendered?
    ensures ControlsMatch(ps, expanded, WalkAll(ps, expanded, cs, d, path).visits)
    decreases |Ids(ps) - path| + 1, 0, |cs|
  {
    if cs != [] {
      assert cs[0].id !in path;
      WalkAllUnfold(ps, expanded, cs, d, path);
      InIds(ps, cs[0]);
      WalkControls(ps, expanded, cs[0], d, path);
      WalkAllControls(ps, expanded, cs[1..], d, path);
      ControlsMatchConcat(ps, expanded, Walk(ps, expanded, cs[0], d, path).visits, WalkAll(ps, expanded, cs[1..], d, path).visits);
    }
  }

  /** One step of a pre-order walk: after a position that opens comes its
      first direct report, one level deeper; after any other position the
      walk does not go deeper. */
  predicate StepOk(ps: seq<Position>, expanded: set<string>, a: Visit, b: Visit)
  {
    if Opens(ps, expanded, a.position) then
      b.depth == a.depth + 1 && b.position == DirectReports(ps, a.position.id)[0]
    else
      b.depth <= a.depth
  }

  /** Every consecutive pair of cards is a pre-order step, and the last card
      does not open (its reports would otherwise follow it). */
  predicate StepsOk(ps: seq<Position>, expanded: set<string>, vs: seq<Visit>)
  {
    && (forall i :: 0 <= i < |vs| - 1 ==> StepOk(ps, expanded, vs[i], vs[i + 1]))
    && (vs != [] ==> !Opens(ps, expanded, vs[|vs| - 1].position))
  }

  lemma StepsCons(ps: seq<Position>, expanded: set<string>, h: Visit, b: seq<Visit>)
    requires b != [] && StepOk(ps, expanded, h, b[0]) && StepsOk(ps, expanded, b)
    ensures StepsOk(ps, expanded, [h] + b)
  {
    var vs := [h] + b;
    forall i | 0 <= i < |vs| - 1
      ensures StepOk(ps, expanded, vs[i], vs[i + 1])
    {
      if i > 0 {
        assert vs[i] == b[i - 1] && vs[i + 1] == b[i];
      }
    }
  }

  lemma StepsConcat(ps: seq<Position>, expanded: set<string>, a: seq<Visit>, b: seq<Visit>)
    requires a != [] && b != [] && StepsOk(ps, expanded, a) && StepsOk(ps, expanded, b)
    requires b[0].depth <= a[|a| - 1].depth
    ensures StepsOk(ps, expanded, a + b)
  {
    var vs := a + b;
    forall i | 0 <= i < |vs| - 1
      ensures StepOk(ps, expanded, vs[i], vs[i + 1])
    {
      if i < |a| - 1 {
        assert vs[i] == a[i] && vs[i + 1] == a[i + 1];
      } else if i == |a| - 1 {
        assert vs[i] == a[|a| - 1] && vs[i + 1] == b[0];
      } else {
        assert vs[i] == b[i - |a|] && vs[i + 1] == b[i - |a| + 1];
      }
    }
    assert vs[|vs| - 1] == b[|b| - 1];
  }

  /** Every step of a rendered walk is a pre-order step. */
  lemma {:induction false} WalkSteps(ps: seq<Position>, expanded: set<string>, p: Position, d: nat, path: set<string>)
    requires p.id !in path
    requires Walk(ps, expanded, p, d, path).Rendered?
    ensures StepsOk(ps, expanded, Walk(ps, expanded, p, d, path).visits)
    decreases |(Ids(ps) + {p.id}) - path|, 1, 0
  {
    if Opens(ps, expanded, p) {
      PathGrows(Ids(ps), path, p.id);
      var cs := DirectReports(ps, p.id);
      WalkAllSteps(ps, expanded, cs, d + 1, path + {p.id});
      WalkAllShape(ps, expanded, cs, d + 1, path + {p.id});
      var below := WalkAll(ps, expanded, cs, d + 1, path + {p.id}).visits;
      StepsCons(ps, expanded, Visit(p, d, ControlFor(ps, expanded, p)), below);
    }
  }

  lemma {:induction false} WalkAllSteps(ps: seq<Position>, expanded: set<string>, cs: seq<Position>, d: nat, path: set<string>)
    requires forall c :: c in cs ==> c in ps
    requires WalkAll(ps, expanded, cs, d, path).Rendered?
    ensures StepsOk(ps, expanded, WalkAll(ps, expanded, cs, d, path).visits)
    decreases |Ids(ps) - path| + 1, 0, |cs|
  {
    if cs != [] {
      assert cs[0].id !in path;
      WalkAllUnfold(ps, expanded, cs, d, path);
      InIds(ps, cs[0]);
      var first := Walk(ps, expanded, cs[0], d, path).visits;
      var rest := WalkAll(ps, expanded, cs[1..], d, path).visits;
      WalkSteps(ps, expanded, cs[0], d, path);
      WalkAllSteps(ps, expanded, cs[1..], d, path);
      if rest != [] {
        WalkShape(ps, expanded, cs[0], d, path);
        WalkAllShape(ps, expanded, cs[1..], d, path);
        assert first[|first| - 1].depth >= d;
        StepsConcat(ps, expanded, first, rest);
      } else {
        assert first + rest == first;
      }
    }
  }

  /** The index of the first card at or after `j` that lies at depth `d`
      or shallower, or `|vs|` when there is none. */
  function EndFrom(vs: seq<Visit>, d: nat, j: nat): (e: nat)
    requires j <= |vs|
    ensures j <= e <= |vs|
    decreases |vs| - j
  {
    if j == |vs| || vs[j].depth <= d then j else EndFrom(vs, d, j + 1)
  }

  /** The cards drawn below card `i` run from `i + 1` up to the next card
      that is no deeper than card `i`. */
  function SubtreeEnd(vs: seq<Visit>, i: nat): (e: nat)
    requires i < |vs|
    ensures i < e <= |vs|
  {
    EndFrom(vs, vs[i].depth, i + 1)
  }

  /** The reports the chart must list directly below `p`: all of its
      direct reports, in order, when it opens; none otherwise. */
  function ListedBelow(ps: seq<Position>, expanded: set<string>, p: Position): seq<Position>
  {
    if Opens(ps, expanded, p) then DirectReports(ps, p.id) else []
  }

  /** Below card `i`, the cards one level deeper are exactly the reports
      that card lists: none is skipped, none is added, and they come in
      `getDirectReports` order. */
  predicate ListsAt(ps: seq<Position>, expanded: set<string>, vs: seq<Visit>, i: nat)
    requires i < |vs|
  {
    Level(vs[i + 1..SubtreeEnd(vs, i)], vs[i].depth + 1) == ListedBelow(ps, expanded, vs[i].position)
  }

  /** Every card of `vs` lists its reports below it. */
  predicate ReportsListed(ps: seq<Position>, expanded: set<string>, vs: seq<Visit>)
  {
    forall i :: 0 <= i < |vs| ==> ListsAt(ps, expanded, vs, i)
  }

  /** Card `i` of `vs` lists its reports when it is card `k` of `b` and
      the cards below it are the same in both. */
  lemma {:induction false} ListsAtMoved(ps: seq<Position>, expanded: set<string>, vs: seq<Visit>, i: nat, b: seq<Visit>, k: nat)
    requires i < |vs| && k < |b| && vs[i] == b[k]
    requires vs[i + 1..SubtreeEnd(vs, i)] == b[k + 1..SubtreeEnd(b, k)]
    requires ListsAt(ps, expanded, b, k)
    ensures ListsAt(ps, expanded, vs, i)
  {
  }

  /** Prepending cards shifts where a run of deeper cards ends. */
  lemma {:induction false} EndFromShift(a: seq<Visit>, b: seq<Visit>, d: nat, j: nat)
    requires j <= |b|
    ensures EndFrom(a + b, d, |a| + j) == |a| + EndFrom(b, d, j)
    decreases |b| - j
  {
    if j < |b| {
      assert (a + b)[|a| + j] == b[j];
      if b[j].depth > d {
        EndFromShift(a, b, d, j + 1);
      }
    }
  }

  /** Appending cards that start no deeper than `d` does not move the end
      of a run of cards deeper than `d`. */
  lemma {:induction false} EndFromPrefix(a: seq<Visit>, b: seq<Visit>, d: nat, j: nat)
    requires j <= |a|
    requires b != [] ==> b[0].depth <= d
    ensures EndFrom(a + b, d, j) == EndFrom(a, d, j)
    decreases |a| - j
  {
    if j < |a| {
      assert (a + b)[j] == a[j];
      if a[j].depth > d {
        EndFromPrefix(a, b, d, j + 1);
      }
    } else if b != [] {
      assert (a + b)[j] == b[0];
    }
  }

  /** When every card from `j` on is deeper than `d`, the run reaches the end. */
  lemma {:induction false} EndFromDeeper(vs: seq<Visit>, d: nat, j: nat)
    requires j <= |vs|
    requires forall k :: j <= k < |vs| ==> vs[k].depth > d
    ensures EndFrom(vs, d, j) == |vs|
    decreases |vs| - j
  {
    if j < |vs| {
      EndFromDeeper(vs, d, j + 1);
    }
  }

  /** A card alone lists its reports exactly when it does not open. */
  lemma {:induction false} ReportsListedSingle(ps: seq<Position>, expanded: set<string>, h: Visit)
    requires !Opens(ps, expanded, h.position)
    ensures ReportsListed(ps, expanded, [h])
  {
    assert [h][1..SubtreeEnd([h], 0)] == [];
    assert ListsAt(ps, expanded, [h], 0);
  }

  /** When all of `b` is deeper than `h`, the cards below `h` in
      `[h] + b` are all of `b`. */
  lemma {:induction false} HeadSubtree(h: Visit, b: seq<Visit>)
    requires forall k :: 0 <= k < |b| ==> b[k].depth > h.depth
    ensures SubtreeEnd([h] + b, 0) == |b| + 1
  {
    var vs := [h] + b;
    forall k | 1 <= k < |vs|
      ensures vs[k].depth > h.depth
    {
      assert vs[k] == b[k - 1];
    }
    EndFromDeeper(vs, h.depth, 1);
  }

  /** The first card of `[h] + b`, all of `b` being deeper, has all of
      `b` below it. */
  lemma {:induction false} ListsAtHead(ps: seq<Position>, expanded: set<string>, h: Visit, b: seq<Visit>)
    requires forall k :: 0 <= k < |b| ==> b[k].depth > h.depth
    requires Level(b, h.depth + 1) == ListedBelow(ps, expanded, h.position)
    ensures ListsAt(ps, expanded, [h] + b, 0)
  {
    HeadSubtree(h, b);
    assert ([h] + b)[1..|b| + 1] == b;
  }

  /** A card followed by deeper cards whose next level is its listed
      reports. */
  lemma {:induction false} ReportsListedCons(ps: seq<Position>, expanded: set<string>, h: Visit, b: seq<Visit>)
    requires forall k :: 0 <= k < |b| ==> b[k].depth > h.depth
    requires Level(b, h.depth + 1) == ListedBelow(ps, expanded, h.position)
    requires ReportsListed(ps, expanded, b)
    ensures ReportsListed(ps, expanded, [h] + b)
  {
    var vs := [h] + b;
    forall i | 0 <= i < |vs|
      ensures ListsAt(ps, expanded, vs, i)
    {
      if i == 0 {
        ListsAtHead(ps, expanded, h, b);
      } else {
        var k := i - 1;
        EndFromShift([h], b, b[k].depth, k + 1);
        ListsAtMoved(ps, expanded, vs, i, b, k);
      }
    }
  }

  /** Two listings side by side, the second starting no deeper than any
      card of the first. */
  lemma {:induction false} ReportsListedConcat(ps: seq<Position>, expanded: set<string>, a: seq<Visit>, b: seq<Visit>)
    requires ReportsListed(ps, expanded, a) && ReportsListed(ps, expanded, b)
    requires b != [] ==> forall k :: 0 <= k < |a| ==> b[0].depth <= a[k].depth
    ensures ReportsListed(ps, expanded, a + b)
  {
    var vs := a + b;
    forall i | 0 <= i < |vs|
      ensures ListsAt(ps, expanded, vs, i)
    {
      if i < |a| {
        assert vs[i] == a[i];
        EndFromPrefix(a, b, a[i].depth, i + 1);
        ListsAtMoved(ps, expanded, vs, i, a, i);
      } else {
        var k := i - |a|;
        assert vs[i] == b[k];
        EndFromShift(a, b, b[k].depth, k + 1);
        ListsAtMoved(ps, expanded, vs, i, b, k);
      }
    }
  }

  /** Below every card of a rendered walk come exactly the reports that
      card lists. */
  lemma {:induction false} WalkListsReports(ps: seq<Position>, expanded: set<string>, p: Position, d: nat, path: set<string>)
    requires p.id !in path
    requires Walk(ps, expanded, p, d, path).Rendered?
    ensures ReportsListed(ps, expanded, Walk(ps, expanded, p, d, path).visits)
    decreases |(Ids(ps) + {p.id}) - path|, 1, 0
  {
    var head := Visit(p, d, ControlFor(ps, expanded, p));
    if Opens(ps, expanded, p) {
      PathGrows(Ids(ps), path, p.id);
      var cs := DirectReports(ps, p.id);
      WalkAllListsReports(ps, expanded, cs, d + 1, path + {p.id});
      WalkAllShape(ps, expanded, cs, d + 1, path + {p.id});
      var below := WalkAll(ps, expanded, cs, d + 1, path + {p.id}).visits;
      ReportsListedCons(ps, expanded, head, below);
    } else {
      ReportsListedSingle(ps, expanded, head);
    }
  }

  lemma {:induction false} WalkAllListsReports(ps: seq<Position>, expanded: set<string>, cs: seq<Position>, d: nat, path: set<string>)
    requires forall c :: c in cs ==> c in ps
    requires WalkAll(ps, expanded, cs, d, path).Rendered?
    ensures ReportsListed(ps, expanded, WalkAll(ps, expanded, cs, d, path).visits)
    decreases |Ids(ps) - path| + 1, 0, |cs|
  {
    if cs != [] {
      assert cs[0] in cs && cs[0].id !in path;
      WalkAllUnfold(ps, expanded, cs, d, path);
      InIds(ps, cs[0]);
      var first := Walk(ps, expanded, cs[0], d, path).visits;
      var rest := WalkAll(ps, expanded, cs[1..], d, path).visits;
      WalkListsReports(ps, expanded, cs[0], d, path);
      WalkAllListsReports(ps, expanded, cs[1..], d, path);
      WalkWithin(ps, expanded, cs[0], d, path);
      WalkAllShape(ps, expanded, cs[1..], d, path);
      ReportsListedConcat(ps, expanded, first, rest);
    }
  }

  /** A listing in pre-order: every step is a pre-order step, and below
      every card come exactly the reports it lists. */
  predicate PreOrder(ps: seq<Position>, expanded: set<string>, vs: seq<Visit>)
  {
    StepsOk(ps, expanded, vs) && ReportsListed(ps, expanded, vs)
  }

  /** A rendered walk is a pre-order depth-first traversal that descends
      exactly below the positions that are expanded and have reports, and
      below each such position lists all of its reports in order. */
  lemma WalkPreOrder(ps: seq<Position>, expanded: set<string>, p: Position, d: nat, path: set<string>)
    requires p.id !in path
    requires Walk(ps, expanded, p, d, path).Rendered?
    ensures PreOrder(ps, expanded, Walk(ps, expanded, p, d, path).visits)
  {
    WalkSteps(ps, expanded, p, d, path);
    WalkListsReports(ps, expanded, p, d, path);
  }

  lemma WalkAllPreOrder(ps: seq<Position>, expanded: set<string>, cs: seq<Position>, d: nat, path: set<string>)
    requires forall c :: c in cs ==> c in ps
    requires WalkAll(ps, expanded, cs, d, path).Rendered?
    ensures PreOrder(ps, expanded, WalkAll(ps, expanded, cs, d, path).visits)
  {
    WalkAllSteps(ps, expanded, cs, d, path);
    WalkAllListsReports(ps, expanded, cs, d, path);
  }

  /** The whole chart, when it renders, is a pre-order walk that starts
      with the first top-level position at depth 0, whose depth-0 cards
      are exactly the top-level positions in order, below each card
      of which come exactly the reports it lists, whose cards all show the
      control their position calls for, and which shows only positions of
      the chart. */
  lemma RenderChartProperties(ps: seq<Position>, expanded: set<string>)
    requires RenderChart(ps, expanded).Rendered?
    ensures var vs := RenderChart(ps, expanded).visits;
      && Level(vs, 0) == TopLevel(ps)
      && (vs != [] ==> TopLevel(ps) != [] && vs[0].depth == 0 && vs[0].position == TopLevel(ps)[0])
      && PreOrder(ps, expanded, vs)
      && ControlsMatch(ps, expanded, vs)
      && (forall i :: 0 <= i < |vs| ==> vs[i].position in ps)
  {
    WalkAllShape(ps, expanded, TopLevel(ps), 0, {});
    WalkAllPreOrder(ps, expanded, TopLevel(ps), 0, {});
    WalkAllControls(ps, expanded, TopLevel(ps), 0, {});
  }

  /** `rank` numbers the positions so that every position ranks strictly
      above the position its `managerId` names: the reporting lines have
      no cycle. */
  predicate Ranked(ps: seq<Position>, rank: map<string, nat>)
  {
    forall q :: q in ps ==>
      && q.id in rank
      && (q.managerId.Some? ==> q.managerId.value in rank && rank[q.managerId.value] < rank[q.id])
  }

  /** On a ranked chart the walk from `p` never re-enters a position it is
      inside: every id on the path ranks below `p`. */
  lemma {:induction false} WalkRenders(ps: seq<Position>, expanded: set<string>, p: Position, d: nat, path: set<string>, rank: map<string, nat>)
    requires Ranked(ps, rank) && p.id in rank
    requires forall x :: x in path ==> x in rank && rank[x] < rank[p.id]
    ensures p.id !in path && Walk(ps, expanded, p, d, path).Rendered?
    decreases |(Ids(ps) + {p.id}) - path|, 1, 0
  {
    if Opens(ps, expanded, p) {
      PathGrows(Ids(ps), path, p.id);
      var cs := DirectReports(ps, p.id);
      DirectReportsExact(ps, p.id);
      WalkAllRenders(ps, expanded, cs, d + 1, path + {p.id}, rank);
    }
  }

  lemma {:induction false} WalkAllRenders(ps: seq<Position>, expanded: set<string>, cs: seq<Position>, d: nat, path: set<string>, rank: map<string, nat>)
    requires Ranked(ps, rank)
    requires forall c :: c in cs ==> c in ps
    requires forall c, x :: c in cs && x in path ==> x in rank && rank[x] < rank[c.id]
    ensures WalkAll(ps, expanded, cs, d, path).Rendered?
    decreases |Ids(ps) - path| + 1, 0, |cs|
  {
    if cs != [] {
      assert cs[0] in cs;
      InIds(ps, cs[0]);
      WalkRenders(ps, expanded, cs[0], d, path, rank);
      WalkAllRenders(ps, expanded, cs[1..], d, path, rank);
    }
  }

  /** A chart whose reporting lines have no cycle always renders, whatever
      is expanded. */
  lemma RankedChartRenders(ps: seq<Position>, expanded: set<string>, rank: map<string, nat>)
    requires Ranked(ps, rank)
    ensures RenderChart(ps, expanded).Rendered?
  {
    WalkAllRenders(ps, expanded, TopLevel(ps), 0, {}, rank);
  }

  // ---------------------------------------------------------------------
  // The page's fixture
  // ---------------------------------------------------------------------

  const JaneSmith := User("2", "jane@example.com", "Jane Smith", Manager, true)
  const JohnDoe := User("1", "john@example.com", "John Doe", Mechanic, true)
  const MikeJohnson := User("3", "mike@example.com", "Mike Johnson", Trainee, true)

  const ShopManager := Position(
    "1", "Shop Manager", "Oversees all shop operations and staff",
    "Manage daily operations, staff scheduling, customer relations, inventory management",
    1, "Management", None, [JaneSmith], ["1", "2"], ["1"],
    ["5+ years experience", "Management skills", "Bicycle repair expertise"])

  const SeniorMechanic := Position(
    "2", "Senior Mechanic", "Experienced mechanic handling complex repairs",
    "Complex repairs, training junior mechanics, quality control, customer consultations",
    2, "Service", Some("1"), [JohnDoe], ["1"], ["1", "2"],
    ["3+ years experience", "Advanced repair skills", "Training ability"])

  const JuniorMechanic := Position(
    "3", "Junior Mechanic", "Entry-level mechanic learning the trade",
    "Basic repairs, maintenance, parts installation, customer service",
    3, "Service", Some("2"), [MikeJohnson], ["2"], ["3"],
    ["1+ year experience", "Basic repair skills", "Willingness to learn"])

  /** The chain 1 -> 2 -> 3 the page ships with. */
  const MockPositions := [ShopManager, SeniorMechanic, JuniorMechanic]

  lemma FixtureReports()
    ensures TopLevel(MockPositions) == [ShopManager]
    ensures DirectReports(MockPositions, "1") == [SeniorMechanic]
    ensures DirectReports(MockPositions, "2") == [JuniorMechanic]
    ensures DirectReports(MockPositions, "3") == []
  {
    var ps := MockPositions;
    assert ps[1..] == [SeniorMechanic, JuniorMechanic];
    assert ps[1..][1..] == [JuniorMechanic];
    assert [JuniorMechanic][1..] == [];
    assert Filter([JuniorMechanic], IsTopLevel) == [];
    assert Filter(ps[1..], IsTopLevel) == [];
    assert DirectReports([JuniorMechanic], "1") == [];
    assert DirectReports(ps[1..], "1") == [SeniorMechanic];
    assert DirectReports([JuniorMechanic], "2") == [JuniorMechanic];
    assert DirectReports(ps[1..], "2") == [JuniorMechanic];
    assert DirectReports([JuniorMechanic], "3") == [];
    assert DirectReports(ps[1..], "3") == [];
  }

  /** The fixture's chain is ranked by the positions' own levels, so it
      renders under every expanded set. */
  lemma FixtureRenders(expanded: set<string>)
    ensures RenderChart(MockPositions, expanded).Rendered?
  {
    var rank := map["1" := 1, "2" := 2, "3" := 3];
    assert Ranked(MockPositions, rank);
    RankedChartRenders(MockPositions, expanded, rank);
  }

  /** With the initial expanded set the chart shows 1 (expanded) and 2
      (collapsed, with a button), but not 3. */
  lemma FixtureInitialChart()
    ensures RenderChart(MockPositions, InitialExpanded)
         == Rendered([Visit(ShopManager, 0, Chevron(true)), Visit(SeniorMechanic, 1, Chevron(false))])
  {
    FixtureReports();
    var ps, e := MockPositions, InitialExpanded;
    assert Walk(ps, e, SeniorMechanic, 1, {"1"}) == Rendered([Visit(SeniorMechanic, 1, Chevron(false))]);
    assert WalkAll(ps, e, [SeniorMechanic], 1, {"1"}) == Rendered([Visit(SeniorMechanic, 1, Chevron(false))]);
    assert {} + {"1"} == {"1"};
    assert Walk(ps, e, ShopManager, 0, {}) == Rendered([Visit(ShopManager, 0, Chevron(true)), Visit(SeniorMechanic, 1, Chevron(false))]);
    assert WalkAll(ps, e, [ShopManager], 0, {}) == Walk(ps, e, ShopManager, 0, {});
  }

  /** With 1 and 2 expanded, the subtree under 2 is 2 (expanded) and 3. */
  lemma FixtureSecondSubtree()
    ensures Walk(MockPositions, {"1", "2"}, SeniorMechanic, 1, {"1"})
         == Rendered([Visit(SeniorMechanic, 1, Chevron(true)), Visit(JuniorMechanic, 2, Spacer)])
  {
    FixtureReports();
    var ps, e := MockPositions, {"1", "2"};
    assert Walk(ps, e, JuniorMechanic, 2, {"1", "2"}) == Rendered([Visit(JuniorMechanic, 2, Spacer)]);
    assert WalkAll(ps, e, [JuniorMechanic], 2, {"1", "2"}) == Rendered([Visit(JuniorMechanic, 2, Spacer)]);
    assert {"1"} + {"2"} == {"1", "2"};
  }

  /** Expanding 2 as well reveals 3, which has no button. */
  lemma FixtureExpandSecond()
    ensures RenderChart(MockPositions, TogglePosition(InitialExpanded, "2"))
         == Rendered([Visit(ShopManager, 0, Chevron(true)), Visit(SeniorMechanic, 1, Chevron(true)), Visit(JuniorMechanic, 2, Spacer)])
  {
    FixtureReports();
    FixtureSecondSubtree();
    var ps, e := MockPositions, TogglePosition(InitialExpanded, "2");
    assert e == {"1", "2"};
    assert WalkAll(ps, e, [SeniorMechanic], 1, {"1"}) == Walk(ps, e, SeniorMechanic, 1, {"1"});
    assert {} + {"1"} == {"1"};
    assert Walk(ps, e, ShopManager, 0, {}) == Rendered([Visit(ShopManager, 0, Chevron(true)), Visit(SeniorMechanic, 1, Chevron(true)), Visit(JuniorMechanic, 2, Spacer)]);
    assert WalkAll(ps, e, [ShopManager], 0, {}) == Walk(ps, e, ShopManager, 0, {});
  }

  /** Collapsing 1 leaves only its card, with a right chevron. */
  lemma FixtureCollapseRoot()
    ensures RenderChart(MockPositions, TogglePosition(InitialExpanded, "1"))
         == Rendered([Visit(ShopManager, 0, Chevron(false))])
  {
    FixtureReports();
    assert TogglePosition(InitialExpanded, "1") == {};
    var ps, e := MockPositions, TogglePosition(InitialExpanded, "1");
    assert Walk(ps, e, ShopManager, 0, {}) == Rendered([Visit(ShopManager, 0, Chevron(false))]);
    assert WalkAll(ps, e, [ShopManager], 0, {}) == Walk(ps, e, ShopManager, 0, {});
  }

  /** A position whose id and `managerId` are both the empty string is
      top-level (the empty string is falsy) and its own direct report, so
      once it is expanded the recursion into it is unbounded and ends in a
      stack overflow. */
  lemma SelfReportDiverges()
    ensures var p := Position("", "", "", "", 0, "", Some(""), [], [], [], []);
      RenderChart([p], {""}) == Diverges("")
  {
    var p := Position("", "", "", "", 0, "", Some(""), [], [], [], []);
    assert TopLevel([p]) == [p];
    assert DirectReports([p], "") == [p];
  }

  /** A position with only an id and a manager, for small example charts. */
  function Bare(id: string, managerId: Option<string>): Position
  {
    Position(id, "", "", "", 0, "", managerId, [], [], [], [])
  }

  /** A listing that skips a report of an open card is not in pre-order:
      with a over b and c, b over d and e, and a and b expanded, the
      listing a, b, d, c leaves e out below b. */
  lemma SkippedReportRejected()
    ensures var a, b, c, d, e := Bare("a", None), Bare("b", Some("a")), Bare("c", Some("a")), Bare("d", Some("b")), Bare("e", Some("b"));
      !PreOrder([a, b, c, d, e], {"a", "b"},
                [Visit(a, 0, Chevron(true)), Visit(b, 1, Chevron(true)), Visit(d, 2, Spacer), Visit(c, 1, Spacer)])
  {
    var a, b, c, d, e := Bare("a", None), Bare("b", Some("a")), Bare("c", Some("a")), Bare("d", Some("b")), Bare("e", Some("b"));
    var ps := [a, b, c, d, e];
    var vs := [Visit(a, 0, Chevron(true)), Visit(b, 1, Chevron(true)), Visit(d, 2, Spacer), Visit(c, 1, Spacer)];
    assert ReportsTo(d, "b") && ReportsTo(e, "b") && !ReportsTo(a, "b") && !ReportsTo(b, "b") && !ReportsTo(c, "b");
    assert [e][1..] == [];
    assert DirectReports([e], "b") == [e];
    assert [d, e][1..] == [e];
    assert DirectReports([d, e], "b") == [d, e];
    assert ps[1..][1..][1..] == [d, e];
    assert DirectReports([c, d, e], "b") == [d, e];
    assert DirectReports([b, c, d, e], "b") == [d, e];
    assert DirectReports(ps, "b") == [d, e];
    assert Opens(ps, {"a", "b"}, b);
    assert Level(vs[2..3], 2) == [d];
    assert EndFrom(vs, 1, 3) == 3;
    assert SubtreeEnd(vs, 1) == 3;
    assert vs[2..3] == [Visit(d, 2, Spacer)];
    assert !ListsAt(ps, {"a", "b"}, vs, 1);
  }
}
