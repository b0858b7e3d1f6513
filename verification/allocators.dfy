/**
 The three allocator scripts as pipelines over the engine: allocator.py
 runs one plain greedy pass; allocator1.py and allocator2.py run the STRICT
 pre-pass and then the quant-aware greedy fill, differing only in the
 capacity of the two quant projects (10 and 14).
 */
module Allocators {
  import opened Lists
  import opened Quant
  import opened Preferences
  import opened Allocation

  const FamaFrench: Project := "Fama French Regressions"
  const Pca: Project := "PCA (ML in Finance)"

  /** `quant_projects` of both quant-aware scripts. */
  const QuantProjects: set<Project> := {FamaFrench, Pca}

  /** `DEFAULT_CAPACITY` / `DEFAULT_CAP`. */
  const DefaultCapacity: nat := 10

  /** allocator2.py: quant projects seat 14, every other project 10. */
  function Allocator2Policy(): (pol: Policy)
    ensures pol.quant == QuantProjects
    ensures forall p :: Limit(pol, p) == if p in QuantProjects then 14 else 10
  {
    Policy(QuantProjects, map[FamaFrench := 14, Pca := 14], DefaultCapacity)
  }

  /** allocator1.py: the capacity map names the quant projects with 10,
      so every project seats 10. */
  function Allocator1Policy(): (pol: Policy)
    ensures pol.quant == QuantProjects
    ensures forall p :: Limit(pol, p) == 10
  {
    Policy(QuantProjects, map[FamaFrench := 10, Pca := 10], DefaultCapacity)
  }

  /** allocator.py has no quant rules; its pass ignores the policy. */
  const PlainPolicy: Policy := Policy({}, map[], PlainAdmitBound + 1)

  /** `projs = set(df.iloc[:, 2])`: the projects somebody ranked first. */
  function FirstChoices(rows: seq<Response>): (ps: set<Project>)
    requires WellShaped(rows)
    ensures forall i :: 0 <= i < |rows| ==> rows[i].choices[0] in ps
    decreases |rows|
  {
    if |rows| == 0 then {}
    else FirstChoices(rows[..|rows| - 1]) + {rows[|rows| - 1].choices[0]}
  }

  /** The first choices are exactly the projects some row ranked first. */
  lemma {:induction false} FirstChoicesRanked(rows: seq<Response>, p: Project)
    requires WellShaped(rows)
    ensures p in FirstChoices(rows) <==> exists i :: RankedAt(rows, i, 1, p)
    decreases |rows|
  {
    if |rows| > 0 {
      var init := rows[..|rows| - 1];
      assert FirstChoices(rows) == FirstChoices(init) + {rows[|rows| - 1].choices[0]};
      FirstChoicesRanked(init, p);
      if p in FirstChoices(init) {
        var i :| RankedAt(init, i, 1, p);
        assert RankedAt(rows, i, 1, p);
      } else if p == rows[|rows| - 1].choices[0] {
        assert RankedAt(rows, |rows| - 1, 1, p);
      }
      if exists i :: RankedAt(rows, i, 1, p) {
        var i :| RankedAt(rows, i, 1, p);
        if i < |init| {
          assert RankedAt(init, i, 1, p);
        } else {
          assert p == rows[|rows| - 1].choices[0];
        }
      }
    } else {
      assert forall i :: !RankedAt(rows, i, 1, p);
    }
  }

  /** What the scripts need of the survey to run to completion: five choices
      per row, distinct emails (`remove` deletes one occurrence), and every
      ranked project among the first choices (otherwise the group lookup
      fails). An empty survey, on which `master_map[1]` is missing, is
      admitted here and yields empty groups. */
  predicate ValidRows(rows: seq<Response>) {
    && WellShaped(rows)
    && DistinctEmails(rows)
    && forall i, k :: 0 <= i < |rows| && 0 <= k < Ranks ==> rows[i].choices[k] in FirstChoices(rows)
  }

  /** Every respondent has an entry in `quant_pref_map`. */
  predicate AnswersCover(sv: Survey) {
    forall i :: 0 <= i < |sv.rows| ==> sv.rows[i].email in sv.answers
  }

  /** Everyone unmatched, an empty group for every first-choice project. */
  function Start(rows: seq<Response>): (st: State)
    requires WellShaped(rows)
    ensures st.groups.Keys == FirstChoices(rows)
    ensures forall p :: p in st.groups ==> st.groups[p] == {}
    ensures st.unmatched == Emails(rows) && st.placed == map[]
  {
    State(map p | p in FirstChoices(rows) :: {}, Emails(rows), map[])
  }

  /** The whole walk of ranks 1..5 over `master_map`. */
  function FullSchedule(rows: seq<Response>): seq<Visit>
    requires WellShaped(rows)
  {
    Schedule(rows, 1)
  }

  /** Every visit of the walk is a choice some row made. */
  lemma {:induction false} VisitIsChoice(rows: seq<Response>, v: Visit)
    requires WellShaped(rows) && v in FullSchedule(rows)
    ensures exists i, n :: RankedAt(rows, i, n, v.project) && rows[i].email == v.person
  {
    ScheduleVisitsChoices(rows, 1, v);
    var m :| 1 <= m <= Ranks && Chose(rows, m, v.project, v.person);
    var i :| RankedAt(rows, i, m, v.project) && rows[i].email == v.person;
  }

  /** Every choice of every row is visited by the walk. */
  lemma ChoiceIsVisited(rows: seq<Response>, i: nat, n: nat)
    requires WellShaped(rows) && i < |rows| && 1 <= n <= Ranks
    ensures Visit(rows[i].choices[n - 1], rows[i].email) in FullSchedule(rows)
  {
    var v := Visit(rows[i].choices[n - 1], rows[i].email);
    assert RankedAt(rows, i, n, v.project);
    assert Chose(rows, n, v.project, v.person);
    ScheduleVisitsChoices(rows, 1, v);
  }

  /** Under the script's preconditions every lookup of the walk succeeds. */
  lemma ScheduleRuns(pass: Pass, sv: Survey)
    requires ValidRows(sv.rows) && (pass != Plain ==> AnswersCover(sv))
    ensures CanVisitAll(pass, sv, FirstChoices(sv.rows), FullSchedule(sv.rows))
  {
    forall v | v in FullSchedule(sv.rows) ensures CanVisit(pass, sv, FirstChoices(sv.rows), v) {
      VisitIsChoice(sv.rows, v);
    }
    CanVisitEach(pass, sv, FirstChoices(sv.rows), FullSchedule(sv.rows));
  }

  /** One walk of ranks 1..5 over `master_map`, from state `st`. */
  function Sweep(pass: Pass, pol: Policy, sv: Survey, st: State): (r: State)
    requires ValidRows(sv.rows) && (pass != Plain ==> AnswersCover(sv))
    requires st.groups.Keys == FirstChoices(sv.rows)
    ensures r.groups.Keys == FirstChoices(sv.rows)
  {
    ScheduleRuns(pass, sv);
    Run(pass, pol, sv, st, FullSchedule(sv.rows))
  }

  /** State after the STRICT pre-pass (allocator1.py:92-106, allocator2.py:106-119). */
  function AfterPrePass(pol: Policy, sv: Survey): (st: State)
    requires ValidRows(sv.rows) && AnswersCover(sv)
    ensures st.groups.Keys == FirstChoices(sv.rows)
  {
    Sweep(PrePass, pol, sv, Start(sv.rows))
  }

  /** State after the greedy fill that follows the pre-pass. */
  function AfterGreedy(pol: Policy, sv: Survey): (st: State)
    requires ValidRows(sv.rows) && AnswersCover(sv)
    ensures st.groups.Keys == FirstChoices(sv.rows)
  {
    Sweep(Greedy, pol, sv, AfterPrePass(pol, sv))
  }

  /** State after allocator.py's single pass. */
  function PlainAllocate(sv: Survey): (st: State)
    requires ValidRows(sv.rows)
    ensures st.groups.Keys == FirstChoices(sv.rows)
  {
    Sweep(Plain, PlainPolicy, sv, Start(sv.rows))
  }

  /** The starting state satisfies every pass's invariant. */
  lemma StartInvariant(pass: Pass, pol: Policy, sv: Survey)
    requires ValidRows(sv.rows)
    ensures Invariant(pass, pol, sv, Start(sv.rows))
  {
    var st := Start(sv.rows);
    UnplacedNone(Emails(sv.rows));
    assert DistinctEmails(sv.rows);
    assert WithinCapacity(pass, pol, st.groups);
    assert Accounted(pass, sv, st);
    assert PlacementsAdmissible(pass, pol, sv, st.placed);
    assert st.placed.Keys == {};
    assert st.unmatched == Unplaced(Emails(sv.rows), st.placed.Keys);
  }

  lemma {:induction false} UnplacedNone(es: seq<Email>)
    ensures Unplaced(es, {}) == es
    decreases |es|
  {
    if |es| > 0 {
      UnplacedNone(es[1..]);
    }
  }

  /** A pre-pass state satisfies the greedy invariant: STRICT placements in
      quant projects are never (quant, NEVER) pairs, and both passes store
      display names against the same limits. */
  lemma PrePassFeedsGreedy(pol: Policy, sv: Survey, st: State)
    requires Invariant(PrePass, pol, sv, st)
    ensures Invariant(Greedy, pol, sv, st)
  {
  }

  /** A sweep keeps its pass's invariant. */
  lemma SweepKeepsInvariant(pass: Pass, pol: Policy, sv: Survey, st: State)
    requires ValidRows(sv.rows) && (pass != Plain ==> AnswersCover(sv))
    requires st.groups.Keys == FirstChoices(sv.rows) && Invariant(pass, pol, sv, st)
    ensures Invariant(pass, pol, sv, Sweep(pass, pol, sv, st))
  {
    ScheduleRuns(pass, sv);
    RunKeepsInvariant(pass, pol, sv, st, FullSchedule(sv.rows));
  }

  /** The pre-pass ends in a state satisfying its invariant. */
  lemma PrePassInvariant(pol: Policy, sv: Survey)
    requires ValidRows(sv.rows) && AnswersCover(sv)
    ensures Invariant(PrePass, pol, sv, AfterPrePass(pol, sv))
  {
    StartInvariant(PrePass, pol, sv);
    SweepKeepsInvariant(PrePass, pol, sv, Start(sv.rows));
  }

  /** The greedy fill ends in a state satisfying its invariant. */
  lemma GreedyInvariant(pol: Policy, sv: Survey)
    requires ValidRows(sv.rows) && AnswersCover(sv)
    ensures Invariant(Greedy, pol, sv, AfterGreedy(pol, sv))
  {
    PrePassInvariant(pol, sv);
    PrePassFeedsGreedy(pol, sv, AfterPrePass(pol, sv));
    SweepKeepsInvariant(Greedy, pol, sv, AfterPrePass(pol, sv));
  }

  /** Phase 1 places only STRICT students, and only into quant projects. */
  lemma PrePassPlacesOnlyStrictIntoQuant(pol: Policy, sv: Survey)
    requires ValidRows(sv.rows) && AnswersCover(sv)
    ensures var st := AfterPrePass(pol, sv);
      forall e :: e in st.placed ==> e in sv.answers && st.placed[e] in pol.quant && BucketOf(sv, e) == Strict
  {
    PrePassInvariant(pol, sv);
    PrePassAdmitsStrict(pol, sv, AfterPrePass(pol, sv));
  }

  lemma PrePassAdmitsStrict(pol: Policy, sv: Survey, st: State)
    requires Invariant(PrePass, pol, sv, st)
    ensures forall e :: e in st.placed ==> e in sv.answers && st.placed[e] in pol.quant && BucketOf(sv, e) == Strict
  {
    assert PlacementsAdmissible(PrePass, pol, sv, st.placed);
  }

  /** No NEVER student is placed into a quant project, in either phase. */
  lemma NeverStudentsStayOutOfQuant(pol: Policy, sv: Survey)
    requires ValidRows(sv.rows) && AnswersCover(sv)
    ensures var st := AfterPrePass(pol, sv);
      forall e :: e in st.placed && st.placed[e] in pol.quant ==> e in sv.answers && BucketOf(sv, e) != Never
    ensures var st := AfterGreedy(pol, sv);
      forall e :: e in st.placed && st.placed[e] in pol.quant ==> e in sv.answers && BucketOf(sv, e) != Never
  {
    PrePassInvariant(pol, sv);
    QuantKeepsNever(PrePass, pol, sv, AfterPrePass(pol, sv));
    GreedyInvariant(pol, sv);
    QuantKeepsNever(Greedy, pol, sv, AfterGreedy(pol, sv));
  }

  /** Under a quant pass's invariant no NEVER student sits in a quant project. */
  lemma QuantKeepsNever(pass: Pass, pol: Policy, sv: Survey, st: State)
    requires pass != Plain && Invariant(pass, pol, sv, st)
    ensures forall e :: e in st.placed && st.placed[e] in pol.quant ==> e in sv.answers && BucketOf(sv, e) != Never
  {
    assert PlacementsAdmissible(pass, pol, sv, st.placed);
  }

  /** Under a quant pass's invariant every group is within its limit. */
  lemma QuantCapacity(pass: Pass, pol: Policy, sv: Survey, st: State)
    requires pass != Plain && Invariant(pass, pol, sv, st)
    ensures forall p :: p in st.groups ==> |st.groups[p]| <= Limit(pol, p)
  {
    assert WithinCapacity(pass, pol, st.groups);
  }

  /** Every group stays within `capacity_map.get(p, DEFAULT)` after each phase
      (and, by `StepKeepsInvariant`, after every single addition). */
  lemma GroupsWithinCapacity(pol: Policy, sv: Survey)
    requires ValidRows(sv.rows) && AnswersCover(sv)
    ensures var st := AfterPrePass(pol, sv);
      forall p :: p in st.groups ==> |st.groups[p]| <= Limit(pol, p)
    ensures var st := AfterGreedy(pol, sv);
      forall p :: p in st.groups ==> |st.groups[p]| <= Limit(pol, p)
  {
    PrePassInvariant(pol, sv);
    QuantCapacity(PrePass, pol, sv, AfterPrePass(pol, sv));
    GreedyInvariant(pol, sv);
    QuantCapacity(Greedy, pol, sv, AfterGreedy(pol, sv));
  }

  /** allocator2.py: after either phase a quant project holds at most 14
      names and every other project at most 10. */
  lemma Allocator2GroupSizes(sv: Survey)
    requires ValidRows(sv.rows) && AnswersCover(sv)
    ensures var st := AfterPrePass(Allocator2Policy(), sv);
      forall p :: p in st.groups ==> |st.groups[p]| <= if p in QuantProjects then 14 else 10
    ensures var st := AfterGreedy(Allocator2Policy(), sv);
      forall p :: p in st.groups ==> |st.groups[p]| <= if p in QuantProjects then 14 else 10
  {
    GroupsWithinCapacity(Allocator2Policy(), sv);
  }

  /** allocator1.py: after either phase every project holds at most 10 names. */
  lemma Allocator1GroupSizes(sv: Survey)
    requires ValidRows(sv.rows) && AnswersCover(sv)
    ensures var st := AfterPrePass(Allocator1Policy(), sv);
      forall p :: p in st.groups ==> |st.groups[p]| <= 10
    ensures var st := AfterGreedy(Allocator1Policy(), sv);
      forall p :: p in st.groups ==> |st.groups[p]| <= 10
  {
    GroupsWithinCapacity(Allocator1Policy(), sv);
  }

  /** The groups hold exactly the display names of the placed students, and
      the unmatched list is exactly the unplaced emails in row order. */
  lemma GroupsAccountForPlacements(pol: Policy, sv: Survey)
    requires ValidRows(sv.rows) && AnswersCover(sv)
    ensures var st := AfterGreedy(pol, sv);
      && st.groups.Keys == FirstChoices(sv.rows)
      && (forall e :: e in st.placed ==> st.placed[e] in st.groups && DisplayName(sv.roster, e) in st.groups[st.placed[e]])
      && (forall p, x :: p in st.groups && x in st.groups[p] ==>
            exists e :: e in st.placed && st.placed[e] == p && DisplayName(sv.roster, e) == x)
      && st.unmatched == Unplaced(Emails(sv.rows), st.placed.Keys)
  {
    GreedyInvariant(pol, sv);
    QuantAccounts(Greedy, pol, sv, AfterGreedy(pol, sv));
  }

  /** Under a quant pass's invariant the groups are the display names of the
      placed students and the pool is the unplaced emails. */
  lemma QuantAccounts(pass: Pass, pol: Policy, sv: Survey, st: State)
    requires pass != Plain && Invariant(pass, pol, sv, st)
    ensures forall e :: e in st.placed ==> st.placed[e] in st.groups && DisplayName(sv.roster, e) in st.groups[st.placed[e]]
    ensures forall p, x :: p in st.groups && x in st.groups[p] ==>
      exists e :: e in st.placed && st.placed[e] == p && DisplayName(sv.roster, e) == x
    ensures st.unmatched == Unplaced(Emails(sv.rows), st.placed.Keys)
  {
    assert Accounted(pass, sv, st);
  }

  /** The unmatched pool only shrinks: the greedy pool is drawn from the
      pre-pass pool, which is drawn from the respondents; a student leaves it
      exactly when placed, and pre-pass placements survive the greedy fill. */
  lemma UnmatchedOnlyShrinks(pol: Policy, sv: Survey)
    requires ValidRows(sv.rows) && AnswersCover(sv)
    ensures var s1, s2 := AfterPrePass(pol, sv), AfterGreedy(pol, sv);
      && (forall e :: e in s2.unmatched ==> e in s1.unmatched)
      && (forall e :: e in s1.unmatched ==> e in Emails(sv.rows))
      && |s2.unmatched| <= |s1.unmatched| <= |sv.rows|
      && (forall e :: e in Emails(sv.rows) ==> (e in s2.unmatched <==> e !in s2.placed))
      && (forall e :: e in s1.placed ==> e in s2.placed && s2.placed[e] == s1.placed[e])
  {
    PrePassInvariant(pol, sv);
    GreedyInvariant(pol, sv);
    var s1 := AfterPrePass(pol, sv);
    assert forall e :: e in s1.placed ==> e !in s1.unmatched;
  }

  /** A sweep leaves every choice of a still-unmatched student that the pass
      admits without room. */
  lemma ChoiceFindsNoRoom(pass: Pass, pol: Policy, sv: Survey, st: State, i: nat, k: nat)
    requires ValidRows(sv.rows) && (pass != Plain ==> AnswersCover(sv))
    requires st.groups.Keys == FirstChoices(sv.rows) && NoDup(st.unmatched)
    requires i < |sv.rows| && k < Ranks
    requires pass != Plain ==> sv.rows[i].email in sv.answers
    requires Admissible(pass, pol, sv, sv.rows[i].choices[k], sv.rows[i].email)
    ensures var r := Sweep(pass, pol, sv, st);
      var p := sv.rows[i].choices[k];
      sv.rows[i].email in r.unmatched ==> p in r.groups && !HasRoom(pass, pol, p, |r.groups[p]|)
  {
    var vs := FullSchedule(sv.rows);
    var v := Visit(sv.rows[i].choices[k], sv.rows[i].email);
    assert CanVisitAll(pass, sv, st.groups.Keys, vs) by {
      ScheduleRuns(pass, sv);
    }
    assert v in vs by {
      ChoiceIsVisited(sv.rows, i, k + 1);
    }
    VisitLeavesNoRoom(pass, pol, sv, st, vs, v);
    assert Sweep(pass, pol, sv, st) == Run(pass, pol, sv, st, vs);
  }

  /** Every still-unmatched student finds each project they ranked that the
      pass would admit them to without room: the pass ran out of options for
      them rather than skipping one. */
  ghost predicate NoRoomLeft(pass: Pass, pol: Policy, sv: Survey, st: State)
    requires ValidRows(sv.rows) && (pass != Plain ==> AnswersCover(sv))
    requires st.groups.Keys == FirstChoices(sv.rows)
  {
    forall i, k ::
      0 <= i < |sv.rows| && 0 <= k < Ranks && sv.rows[i].email in st.unmatched &&
      Admissible(pass, pol, sv, sv.rows[i].choices[k], sv.rows[i].email) ==>
        !HasRoom(pass, pol, sv.rows[i].choices[k], |st.groups[sv.rows[i].choices[k]]|)
  }

  /** A sweep from a state with a duplicate-free pool leaves no room. */
  lemma SweepLeavesNoRoom(pass: Pass, pol: Policy, sv: Survey, st: State)
    requires ValidRows(sv.rows) && (pass != Plain ==> AnswersCover(sv))
    requires st.groups.Keys == FirstChoices(sv.rows) && NoDup(st.unmatched)
    ensures NoRoomLeft(pass, pol, sv, Sweep(pass, pol, sv, st))
  {
    forall i, k | 0 <= i < |sv.rows| && 0 <= k < Ranks
      && sv.rows[i].email in Sweep(pass, pol, sv, st).unmatched
      && Admissible(pass, pol, sv, sv.rows[i].choices[k], sv.rows[i].email)
      ensures !HasRoom(pass, pol, sv.rows[i].choices[k], |Sweep(pass, pol, sv, st).groups[sv.rows[i].choices[k]]|)
    {
      ChoiceFindsNoRoom(pass, pol, sv, st, i, k);
    }
  }

  /** After the pre-pass, a STRICT student still unmatched finds every quant
      project they ranked full (`len >= capacity`). */
  lemma PrePassIsExhaustive(pol: Policy, sv: Survey)
    requires ValidRows(sv.rows) && AnswersCover(sv)
    ensures NoRoomLeft(PrePass, pol, sv, AfterPrePass(pol, sv))
  {
    var s0 := Start(sv.rows);
    assert NoDup(s0.unmatched);
    SweepLeavesNoRoom(PrePass, pol, sv, s0);
  }

  /** After the greedy fill, every still-unmatched student finds each project
      they ranked either full or closed to them as a (quant, NEVER) pair. */
  lemma GreedyIsExhaustive(pol: Policy, sv: Survey)
    requires ValidRows(sv.rows) && AnswersCover(sv)
    ensures NoRoomLeft(Greedy, pol, sv, AfterGreedy(pol, sv))
  {
    PrePassInvariant(pol, sv);
    var s1 := AfterPrePass(pol, sv);
    assert NoDup(s1.unmatched);
    SweepLeavesNoRoom(Greedy, pol, sv, s1);
  }

  /** The plain pass ends in a state satisfying its invariant. */
  lemma PlainInvariant(sv: Survey)
    requires ValidRows(sv.rows)
    ensures Invariant(Plain, PlainPolicy, sv, PlainAllocate(sv))
  {
    StartInvariant(Plain, PlainPolicy, sv);
    SweepKeepsInvariant(Plain, PlainPolicy, sv, Start(sv.rows));
  }

  /** allocator.py: a group admits while it has at most 20 members, so it
      ends with at most 21. */
  lemma PlainGroupsAtMost21(sv: Survey)
    requires ValidRows(sv.rows)
    ensures var st := PlainAllocate(sv);
      forall p :: p in st.groups ==> |st.groups[p]| <= 21
  {
    PlainInvariant(sv);
    assert WithinCapacity(Plain, PlainPolicy, PlainAllocate(sv).groups);
  }

  /** Each group holds exactly the emails placed in its project (the
      raw-email labelling of allocator.py). */
  ghost predicate GroupsArePlacements(st: State) {
    forall p, e :: p in st.groups ==> (e in st.groups[p] <==> e in st.placed && st.placed[e] == p)
  }

  /** allocator.py: the groups are keyed by the first-choice projects and hold
      raw emails; an email is in a group exactly when its student was placed
      there, so no student is in two groups, and a student leaves `unmatched`
      exactly when placed. */
  lemma PlainGroupsHoldPlacedEmails(sv: Survey)
    requires ValidRows(sv.rows)
    ensures var st := PlainAllocate(sv);
      && st.groups.Keys == FirstChoices(sv.rows)
      && GroupsArePlacements(st)
      && (forall e :: e in Emails(sv.rows) ==> (e in st.unmatched <==> e !in st.placed))
      && (forall e :: e in st.placed ==> e in Emails(sv.rows))
  {
    var st := PlainAllocate(sv);
    PlainInvariant(sv);
    assert Accounted(Plain, sv, st);
    assert st.unmatched == Unplaced(Emails(sv.rows), st.placed.Keys);
    forall p, e | p in st.groups
      ensures e in st.groups[p] <==> e in st.placed && st.placed[e] == p
    {
      if e in st.groups[p] {
        var e' :| e' in st.placed && st.placed[e'] == p && Label(Plain, sv, e') == e;
      }
    }
  }

  /** allocator.py: after round 5 every still-unmatched student's five ranked
      projects each hold more than 20 members. */
  lemma PlainIsExhaustive(sv: Survey)
    requires ValidRows(sv.rows)
    ensures NoRoomLeft(Plain, PlainPolicy, sv, PlainAllocate(sv))
  {
    var s0 := Start(sv.rows);
    assert NoDup(s0.unmatched);
    SweepLeavesNoRoom(Plain, PlainPolicy, sv, s0);
  }

  /** The STRICT pre-pass of a quant-aware script: group keys stay the
      first-choice projects, only STRICT students enter quant projects, and
      no STRICT student is left out while a quant project they ranked has
      room. */
  method PrePassScript(pol: Policy, sv: Survey) returns (pre: State)
    requires ValidRows(sv.rows) && AnswersCover(sv)
    ensures pre.groups.Keys == FirstChoices(sv.rows)
    ensures forall e :: e in pre.placed ==> e in sv.answers && pre.placed[e] in pol.quant && BucketOf(sv, e) == Strict
    ensures NoRoomLeft(PrePass, pol, sv, pre)
  {
    pre := AfterPrePass(pol, sv);
    PrePassPlacesOnlyStrictIntoQuant(pol, sv);
    PrePassIsExhaustive(pol, sv);
  }

  /** The two phases of a quant-aware script side by side: the greedy fill
      keeps every pre-pass placement and only shrinks the unmatched pool. */
  method QuantPhases(pol: Policy, sv: Survey) returns (pre: State, st: State)
    requires ValidRows(sv.rows) && AnswersCover(sv)
    ensures forall e :: e in pre.placed ==> e in st.placed && st.placed[e] == pre.placed[e]
    ensures forall e :: e in st.unmatched ==> e in pre.unmatched
    ensures |st.unmatched| <= |pre.unmatched| <= |sv.rows|
  {
    pre := AfterPrePass(pol, sv);
    st := AfterGreedy(pol, sv);
    UnmatchedOnlyShrinks(pol, sv);
  }

  /** A quant-aware script end to end, the STRICT pre-pass and then the
      greedy fill: every group is within its capacity, no NEVER student is
      in a quant project, groups hold exactly the placed students' names,
      and nobody is left out while a project they may join has room (that
      the pre-pass placements survive is stated by QuantPhases). */
  method QuantAllocate(pol: Policy, sv: Survey) returns (st: State)
    requires ValidRows(sv.rows) && AnswersCover(sv)
    ensures st.groups.Keys == FirstChoices(sv.rows)
    ensures forall p :: p in st.groups ==> |st.groups[p]| <= Limit(pol, p)
    ensures forall e :: e in st.placed && st.placed[e] in pol.quant ==> e in sv.answers && BucketOf(sv, e) != Never
    ensures forall e :: e in st.placed ==> st.placed[e] in st.groups && DisplayName(sv.roster, e) in st.groups[st.placed[e]]
    ensures forall p, x :: p in st.groups && x in st.groups[p] ==>
      exists e :: e in st.placed && st.placed[e] == p && DisplayName(sv.roster, e) == x
    ensures st.unmatched == Unplaced(Emails(sv.rows), st.placed.Keys)
    ensures NoRoomLeft(Greedy, pol, sv, st)
  {
    st := AfterGreedy(pol, sv);
    UnmatchedOnlyShrinks(pol, sv);
    GroupsWithinCapacity(pol, sv);
    NeverStudentsStayOutOfQuant(pol, sv);
    GroupsAccountForPlacements(pol, sv);
    GreedyIsExhaustive(pol, sv);
  }

  /** allocator2.py end to end: quant groups end with at most 14 names,
      every other group with at most 10, and no NEVER student in a quant
      project. */
  method Allocator2Script(sv: Survey) returns (st: State)
    requires ValidRows(sv.rows) && AnswersCover(sv)
    ensures forall p :: p in st.groups ==> |st.groups[p]| <= if p in QuantProjects then 14 else 10
    ensures forall e :: e in st.placed && st.placed[e] in QuantProjects ==> e in sv.answers && BucketOf(sv, e) != Never
  {
    st := QuantAllocate(Allocator2Policy(), sv);
    Allocator2GroupSizes(sv);
  }

  /** allocator1.py end to end: every group ends with at most 10 names. */
  method Allocator1Script(sv: Survey) returns (st: State)
    requires ValidRows(sv.rows) && AnswersCover(sv)
    ensures forall p :: p in st.groups ==> |st.groups[p]| <= 10
    ensures forall e :: e in st.placed && st.placed[e] in QuantProjects ==> e in sv.answers && BucketOf(sv, e) != Never
  {
    st := QuantAllocate(Allocator1Policy(), sv);
    Allocator1GroupSizes(sv);
  }

  /** allocator.py end to end: groups of raw emails, at most 21 each, every
      student in at most one group, and nobody left out while a ranked
      project has room. */
  method PlainScript(sv: Survey) returns (st: State)
    requires ValidRows(sv.rows)
    ensures st.groups.Keys == FirstChoices(sv.rows)
    ensures forall p :: p in st.groups ==> |st.groups[p]| <= 21
    ensures GroupsArePlacements(st)
    ensures forall e :: e in Emails(sv.rows) ==> (e in st.unmatched <==> e !in st.placed)
    ensures forall e :: e in st.placed ==> e in Emails(sv.rows)
    ensures NoRoomLeft(Plain, PlainPolicy, sv, st)
  {
    st := PlainAllocate(sv);
    assert forall p :: p in st.groups ==> |st.groups[p]| <= 21 by {
      PlainGroupsAtMost21(sv);
    }
    assert && GroupsArePlacements(st)
           && (forall e :: e in Emails(sv.rows) ==> (e in st.unmatched <==> e !in st.placed))
           && (forall e :: e in st.placed ==> e in Emails(sv.rows)) by {
      PlainGroupsHoldPlacedEmails(sv);
    }
    assert NoRoomLeft(Plain, PlainPolicy, sv, st) by {
      PlainIsExhaustive(sv);
    }
  }
}
