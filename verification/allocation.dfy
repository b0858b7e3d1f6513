/**
 The allocation engine shared by the three allocator scripts. A pass walks
 the preference index (a `Schedule` of visits) and, for each visited
 (project, person), places the person if they are still unmatched, the
 pass admits them to that project, and the project has room.

 - `Plain` is allocator.py: no quant rules, admits while a group has at
   most 20 members, and stores raw emails.
 - `PrePass` is the STRICT-only pre-pass of allocator1.py/allocator2.py:
   only quant projects, only STRICT students.
 - `Greedy` is their main fill: every project, except that a NEVER student
   is skipped for a quant project.

 The state is the source's `constrained_output_map` (project -> set of
 labels) and `unmatched_constrained` (a list of emails), plus `placed`,
 the project each placed student went to. `placed` is bookkeeping the
 scripts do not keep; it records each student's MATCHED(project) state so
 that placements can be stated per student even when two students share a
 display name.
 */
module Allocation {
  import opened Lists
  import opened Strings
  import opened Quant
  import opened Preferences

  /** A group member as stored in a group: a display name or a raw email. */
  type Name = string

  datatype Pass = Plain | PrePass | Greedy

  /** `quant_projects`, `capacity_map` and the default capacity. */
  datatype Policy = Policy(quant: set<Project>, capacity: map<Project, nat>, defaultCap: nat)

  /** `capacity_map.get(p, DEFAULT_CAPACITY)`. */
  function Limit(pol: Policy, p: Project): (c: nat)
    ensures p in pol.capacity ==> c == pol.capacity[p]
    ensures p !in pol.capacity ==> c == pol.defaultCap
  {
    if p in pol.capacity then pol.capacity[p] else pol.defaultCap
  }

  /** allocator.py admits while `len(output_map[proj]) <= 20`. */
  const PlainAdmitBound: nat := 20

  /** The size a group of this pass can reach. */
  function Cap(pass: Pass, pol: Policy, p: Project): nat {
    if pass == Plain then PlainAdmitBound + 1 else Limit(pol, p)
  }

  /** The capacity test each script applies before an addition: one more
      member keeps the group within the size the pass lets it reach. */
  predicate HasRoom(pass: Pass, pol: Policy, p: Project, size: nat): (b: bool)
    ensures b <==> size + 1 <= Cap(pass, pol, p)
  {
    if pass == Plain then size <= PlainAdmitBound else size < Limit(pol, p)
  }

  /** The allocator's inputs apart from the policy: the survey rows,
      `quant_pref_map` and the roster `email_map`. */
  datatype Survey = Survey(rows: seq<Response>, answers: map<Email, Answer>, roster: map<Email, Name>)

  /** `email_map.get(person, person)`: the roster name, or the email itself. */
  function DisplayName(roster: map<Email, Name>, e: Email): (x: Name)
    ensures e in roster ==> x == roster[e]
    ensures e !in roster ==> x == e
  {
    if e in roster then roster[e] else e
  }

  /** What a pass stores for a student: allocator.py stores the email. */
  function Label(pass: Pass, sv: Survey, e: Email): Name {
    if pass == Plain then e else DisplayName(sv.roster, e)
  }

  /** `quant_bucket(quant_pref_map[person])`. */
  function BucketOf(sv: Survey, e: Email): Bucket
    requires e in sv.answers
  {
    QuantBucket(sv.answers[e])
  }

  /** The pass's rule for a (project, person) pair, before capacity. */
  predicate Admissible(pass: Pass, pol: Policy, sv: Survey, p: Project, e: Email): (ok: bool)
    requires pass != Plain ==> e in sv.answers
    ensures pass == Plain ==> ok
    ensures pass == PrePass ==>
      (ok <==> p in pol.quant && sv.answers[e].Text? && Occurs(StrictSignal, sv.answers[e].text))
    ensures pass == Greedy ==>
      (ok <==> (p !in pol.quant || (sv.answers[e].Text?
                 && (Occurs(StrictSignal, sv.answers[e].text) || Occurs(CanDoSignal, sv.answers[e].text)))))
  {
    match pass
    case Plain => true
    case PrePass => p in pol.quant && BucketOf(sv, e) == Strict
    case Greedy => !(p in pol.quant && BucketOf(sv, e) == Never)
  }

  datatype State = State(groups: map<Project, set<Name>>, unmatched: seq<Email>, placed: map<Email, Project>)

  /** The lookups a visit performs succeed: the project is a key of the
      group map and, for the quant passes, the person has an answer. */
  predicate CanVisit(pass: Pass, sv: Survey, keys: set<Project>, v: Visit) {
    v.project in keys && (pass != Plain ==> v.person in sv.answers)
  }

  /** Every visit of `vs` can be performed against the keys `keys`. */
  predicate CanVisitAll(pass: Pass, sv: Survey, keys: set<Project>, vs: seq<Visit>)
    decreases |vs|
  {
    |vs| == 0 || (CanVisit(pass, sv, keys, vs[0]) && CanVisitAll(pass, sv, keys, vs[1..]))
  }

  lemma {:induction false} CanVisitEach(pass: Pass, sv: Survey, keys: set<Project>, vs: seq<Visit>)
    requires forall v :: v in vs ==> CanVisit(pass, sv, keys, v)
    ensures CanVisitAll(pass, sv, keys, vs)
    decreases |vs|
  {
    if |vs| > 0 {
      assert forall v :: v in vs[1..] ==> v in vs;
      CanVisitEach(pass, sv, keys, vs[1..]);
    }
  }

  /** One iteration of the innermost loop. */
  function Step(pass: Pass, pol: Policy, sv: Survey, st: State, v: Visit): (r: State)
    requires CanVisit(pass, sv, st.groups.Keys, v)
    ensures r.groups.Keys == st.groups.Keys
    ensures forall p :: p in st.groups ==> st.groups[p] <= r.groups[p]
    ensures forall p :: p in st.groups && p != v.project ==> r.groups[p] == st.groups[p]
    ensures forall e :: e in r.unmatched ==> e in st.unmatched
    ensures NoDup(st.unmatched) ==> NoDup(r.unmatched)
    ensures st.placed.Keys <= r.placed.Keys
    ensures forall e :: e in st.placed && e !in st.unmatched ==> r.placed[e] == st.placed[e]
    ensures forall e :: e in r.placed ==> e in st.placed || e in st.unmatched
    ensures forall e :: e in st.unmatched && e !in r.unmatched ==> e == v.person && e in r.placed && r.placed[e] == v.project
    ensures v.person !in st.unmatched ==> r == st
  {
    if v.person !in st.unmatched then st
    else if !Admissible(pass, pol, sv, v.project, v.person) then st
    else if !HasRoom(pass, pol, v.project, |st.groups[v.project]|) then st
    else
      State(st.groups[v.project := st.groups[v.project] + {Label(pass, sv, v.person)}],
            RemoveFirst(st.unmatched, v.person),
            st.placed[v.person := v.project])
  }

  /** A whole pass: the steps of `vs` in order. */
  function Run(pass: Pass, pol: Policy, sv: Survey, st: State, vs: seq<Visit>): (r: State)
    requires CanVisitAll(pass, sv, st.groups.Keys, vs)
    ensures r.groups.Keys == st.groups.Keys
    ensures forall p :: p in st.groups ==> st.groups[p] <= r.groups[p]
    ensures forall e :: e in r.unmatched ==> e in st.unmatched
    ensures |r.unmatched| <= |st.unmatched|
    ensures NoDup(st.unmatched) ==> NoDup(r.unmatched)
    ensures st.placed.Keys <= r.placed.Keys
    ensures forall e :: e in st.placed && e !in st.unmatched ==> r.placed[e] == st.placed[e]
    ensures forall e :: e in r.placed ==> e in st.placed || e in st.unmatched
    decreases |vs|
  {
    if |vs| == 0 then st
    else
      var s1 := Step(pass, pol, sv, st, vs[0]);
      Run(pass, pol, sv, s1, vs[1..])
  }

  /** The emails of `es` not yet placed, in their original order: what
      `unmatched` must be once the students in `done` have been removed. */
  function Unplaced(es: seq<Email>, done: set<Email>): (r: seq<Email>)
    ensures forall e :: e in r <==> e in es && e !in done
    ensures NoDup(es) ==> NoDup(r)
    ensures |r| <= |es|
  {
    if |es| == 0 then []
    else (if es[0] in done then [] else [es[0]]) + Unplaced(es[1..], done)
  }

  /** Every group is within the size its pass allows. */
  ghost predicate WithinCapacity(pass: Pass, pol: Policy, groups: map<Project, set<Name>>) {
    forall p :: p in groups ==> |groups[p]| <= Cap(pass, pol, p)
  }

  /** The groups are exactly the labels of the placed students. */
  ghost predicate Accounted(pass: Pass, sv: Survey, st: State) {
    && (forall e :: e in st.placed ==> st.placed[e] in st.groups && Label(pass, sv, e) in st.groups[st.placed[e]])
    && (forall p, x :: p in st.groups && x in st.groups[p] ==>
          exists e :: e in st.placed && st.placed[e] == p && Label(pass, sv, e) == x)
  }

  /** Every placement obeys the pass's rule. */
  ghost predicate PlacementsAdmissible(pass: Pass, pol: Policy, sv: Survey, placed: map<Email, Project>) {
    forall e :: e in placed ==> (pass == Plain || e in sv.answers) && Admissible(pass, pol, sv, placed[e], e)
  }

  /** The state invariant of a pass. */
  ghost predicate Invariant(pass: Pass, pol: Policy, sv: Survey, st: State) {
    && DistinctEmails(sv.rows)
    && WithinCapacity(pass, pol, st.groups)
    && Accounted(pass, sv, st)
    && PlacementsAdmissible(pass, pol, sv, st.placed)
    && st.unmatched == Unplaced(Emails(sv.rows), st.placed.Keys)
  }

  /** The tail of a duplicate-free sequence is duplicate-free and lacks its head. */
  lemma TailNoDup<T>(s: seq<T>)
    requires NoDup(s) && |s| > 0
    ensures NoDup(s[1..]) && s[0] !in s[1..]
  {
    forall i, j | 0 <= i < j < |s[1..]| ensures s[1..][i] != s[1..][j] {
      assert s[1..][i] == s[i + 1] && s[1..][j] == s[j + 1];
    }
    forall k | 0 <= k < |s[1..]| ensures s[1..][k] != s[0] {
      assert s[1..][k] == s[k + 1];
    }
  }

  /** Removing a not-yet-placed student from the pool is placing them. */
  lemma {:induction false} RemoveUnplaced(es: seq<Email>, done: set<Email>, x: Email)
    requires NoDup(es) && x in es && x !in done
    ensures x in Unplaced(es, done)
    ensures RemoveFirst(Unplaced(es, done), x) == Unplaced(es, done + {x})
    decreases |es|
  {
    TailNoDup(es);
    if es[0] == x {
      RemoveUnplacedHead(es, done, x);
    } else if es[0] in done {
      RemoveUnplaced(es[1..], done, x);
      assert Unplaced(es, done) == Unplaced(es[1..], done);
      assert Unplaced(es, done + {x}) == Unplaced(es[1..], done + {x});
    } else {
      RemoveUnplaced(es[1..], done, x);
      RemoveUnplacedKeep(es, done, x);
    }
  }

  /** `RemoveUnplaced` when the student heads the list. */
  lemma RemoveUnplacedHead(es: seq<Email>, done: set<Email>, x: Email)
    requires |es| > 0 && es[0] == x && x !in done && x !in es[1..]
    ensures x in Unplaced(es, done)
    ensures RemoveFirst(Unplaced(es, done), x) == Unplaced(es, done + {x})
  {
    var tail := Unplaced(es[1..], done);
    assert Unplaced(es, done) == [x] + tail;
    RemoveFirstCons([x] + tail, x);
    assert ([x] + tail)[1..] == tail;
    UnplacedIgnores(es[1..], done, x);
  }

  /** `RemoveUnplaced` past an unplaced head that is not the student. */
  lemma RemoveUnplacedKeep(es: seq<Email>, done: set<Email>, x: Email)
    requires |es| > 0 && es[0] != x && es[0] !in done && x in Unplaced(es[1..], done)
    requires RemoveFirst(Unplaced(es[1..], done), x) == Unplaced(es[1..], done + {x})
    ensures x in Unplaced(es, done)
    ensures RemoveFirst(Unplaced(es, done), x) == Unplaced(es, done + {x})
  {
    var tail := Unplaced(es[1..], done);
    assert Unplaced(es, done) == [es[0]] + tail;
    RemoveFirstCons([es[0]] + tail, x);
    assert ([es[0]] + tail)[1..] == tail;
    assert Unplaced(es, done + {x}) == [es[0]] + Unplaced(es[1..], done + {x});
  }

  /** Adding to `done` a student absent from `es` changes nothing. */
  lemma {:induction false} UnplacedIgnores(es: seq<Email>, done: set<Email>, x: Email)
    requires x !in es
    ensures Unplaced(es, done + {x}) == Unplaced(es, done)
    decreases |es|
  {
    if |es| > 0 {
      UnplacedIgnores(es[1..], done, x);
    }
  }

  /** Facts about an admitting step. */
  ghost predicate Admits(pass: Pass, pol: Policy, sv: Survey, st: State, v: Visit, r: State)
    requires CanVisit(pass, sv, st.groups.Keys, v)
  {
    && v.person in st.unmatched
    && Admissible(pass, pol, sv, v.project, v.person)
    && HasRoom(pass, pol, v.project, |st.groups[v.project]|)
    && r.groups == st.groups[v.project := st.groups[v.project] + {Label(pass, sv, v.person)}]
    && r.placed == st.placed[v.person := v.project]
    && r.unmatched == RemoveFirst(st.unmatched, v.person)
  }

  /** A step either changes nothing or admits the visited person. */
  lemma StepCases(pass: Pass, pol: Policy, sv: Survey, st: State, v: Visit)
    requires CanVisit(pass, sv, st.groups.Keys, v)
    ensures var r := Step(pass, pol, sv, st, v); r == st || Admits(pass, pol, sv, st, v, r)
  {
  }

  lemma AdmitKeepsCapacity(pass: Pass, pol: Policy, sv: Survey, st: State, v: Visit, r: State)
    requires CanVisit(pass, sv, st.groups.Keys, v) && Admits(pass, pol, sv, st, v, r)
    requires WithinCapacity(pass, pol, st.groups)
    ensures WithinCapacity(pass, pol, r.groups)
  {
    var p := v.project;
    assert |st.groups[p] + {Label(pass, sv, v.person)}| <= |st.groups[p]| + 1;
  }

  lemma AdmitKeepsAccounts(pass: Pass, sv: Survey, st: State, p: Project, e: Email, r: State)
    requires p in st.groups && e !in st.placed && Accounted(pass, sv, st)
    requires r.groups == st.groups[p := st.groups[p] + {Label(pass, sv, e)}]
    requires r.placed == st.placed[e := p]
    ensures Accounted(pass, sv, r)
  {
    AdmitKeepsLabels(pass, sv, st, p, e, r);
    AdmitKeepsMembers(pass, sv, st, p, e, r);
  }

  /** After an admission every placed student's label is in their group. */
  lemma AdmitKeepsLabels(pass: Pass, sv: Survey, st: State, p: Project, e: Email, r: State)
    requires p in st.groups && Accounted(pass, sv, st)
    requires r.groups == st.groups[p := st.groups[p] + {Label(pass, sv, e)}]
    requires r.placed == st.placed[e := p]
    ensures forall d :: d in r.placed ==> r.placed[d] in r.groups && Label(pass, sv, d) in r.groups[r.placed[d]]
  {
  }

  /** After an admission every group member is the label of a student
      placed there. */
  lemma AdmitKeepsMembers(pass: Pass, sv: Survey, st: State, p: Project, e: Email, r: State)
    requires p in st.groups && e !in st.placed && Accounted(pass, sv, st)
    requires r.groups == st.groups[p := st.groups[p] + {Label(pass, sv, e)}]
    requires r.placed == st.placed[e := p]
    ensures forall q, y :: q in r.groups && y in r.groups[q] ==>
      exists d :: d in r.placed && r.placed[d] == q && Label(pass, sv, d) == y
  {
    forall q, y | q in r.groups && y in r.groups[q]
      ensures exists d :: d in r.placed && r.placed[d] == q && Label(pass, sv, d) == y
    {
      if q == p && y == Label(pass, sv, e) {
        assert r.placed[e] == q;
      } else {
        assert y in st.groups[q];
        var d :| d in st.placed && st.placed[d] == q && Label(pass, sv, d) == y;
        assert r.placed[d] == q;
      }
    }
  }

  lemma AdmitKeepsPool(pass: Pass, pol: Policy, sv: Survey, st: State, v: Visit, r: State)
    requires CanVisit(pass, sv, st.groups.Keys, v) && Admits(pass, pol, sv, st, v, r)
    requires NoDup(Emails(sv.rows)) && st.unmatched == Unplaced(Emails(sv.rows), st.placed.Keys)
    ensures v.person !in st.placed
    ensures r.unmatched == Unplaced(Emails(sv.rows), r.placed.Keys)
  {
    RemoveUnplaced(Emails(sv.rows), st.placed.Keys, v.person);
    assert r.placed.Keys == st.placed.Keys + {v.person};
  }

  lemma AdmitKeepsAdmissible(pass: Pass, pol: Policy, sv: Survey, st: State, v: Visit, r: State)
    requires CanVisit(pass, sv, st.groups.Keys, v) && Admits(pass, pol, sv, st, v, r)
    requires PlacementsAdmissible(pass, pol, sv, st.placed)
    ensures PlacementsAdmissible(pass, pol, sv, r.placed)
  {
  }

  /** The invariant holds after every single step, in particular after every
      addition to a group. */
  lemma StepKeepsInvariant(pass: Pass, pol: Policy, sv: Survey, st: State, v: Visit)
    requires CanVisit(pass, sv, st.groups.Keys, v) && Invariant(pass, pol, sv, st)
    ensures Invariant(pass, pol, sv, Step(pass, pol, sv, st, v))
  {
    var r := Step(pass, pol, sv, st, v);
    StepCases(pass, pol, sv, st, v);
    if Admits(pass, pol, sv, st, v, r) {
      assert DistinctEmails(sv.rows) && NoDup(Emails(sv.rows));
      assert v.person !in st.placed && r.unmatched == Unplaced(Emails(sv.rows), r.placed.Keys) by {
        AdmitKeepsPool(pass, pol, sv, st, v, r);
      }
      assert WithinCapacity(pass, pol, r.groups) by {
        AdmitKeepsCapacity(pass, pol, sv, st, v, r);
      }
      assert Accounted(pass, sv, r) by {
        AdmitKeepsAccounts(pass, sv, st, v.project, v.person, r);
      }
      assert PlacementsAdmissible(pass, pol, sv, r.placed) by {
        AdmitKeepsAdmissible(pass, pol, sv, st, v, r);
      }
    }
  }

  /** The invariant holds after a whole pass. */
  lemma {:induction false} RunKeepsInvariant(pass: Pass, pol: Policy, sv: Survey, st: State, vs: seq<Visit>)
    requires CanVisitAll(pass, sv, st.groups.Keys, vs)
    requires Invariant(pass, pol, sv, st)
    ensures Invariant(pass, pol, sv, Run(pass, pol, sv, st, vs))
    decreases |vs|
  {
    if |vs| > 0 {
      StepKeepsInvariant(pass, pol, sv, st, vs[0]);
      RunKeepsInvariant(pass, pol, sv, Step(pass, pol, sv, st, vs[0]), vs[1..]);
    }
  }

  /** A full group stays full: groups only grow. */
  lemma NoRoomPersists(pass: Pass, pol: Policy, p: Project, a: set<Name>, b: set<Name>)
    requires a <= b && !HasRoom(pass, pol, p, |a|)
    ensures !HasRoom(pass, pol, p, |b|)
  {
    assert |b| == |a| + |b - a| by {
      assert b == a + (b - a);
    }
  }

  /** A visit the pass admits leaves its student placed, or finds the
      project without room at that moment and for the rest of the pass. */
  lemma {:induction false} RunLeavesNoRoom(pass: Pass, pol: Policy, sv: Survey, st: State, vs: seq<Visit>, j: nat)
    requires CanVisitAll(pass, sv, st.groups.Keys, vs)
    requires NoDup(st.unmatched)
    requires j < |vs| && (pass != Plain ==> vs[j].person in sv.answers)
    requires Admissible(pass, pol, sv, vs[j].project, vs[j].person)
    ensures var r := Run(pass, pol, sv, st, vs);
      vs[j].person in r.unmatched ==>
        vs[j].project in r.groups && !HasRoom(pass, pol, vs[j].project, |r.groups[vs[j].project]|)
    decreases |vs|
  {
    var r := Run(pass, pol, sv, st, vs);
    var s1 := Step(pass, pol, sv, st, vs[0]);
    assert r == Run(pass, pol, sv, s1, vs[1..]);
    if j > 0 {
      assert vs[1..][j - 1] == vs[j];
      RunLeavesNoRoom(pass, pol, sv, s1, vs[1..], j - 1);
    } else if vs[0].person in r.unmatched {
      var v := vs[0];
      assert v.person in s1.unmatched;
      assert v.person in st.unmatched;
      assert s1 == st;
      NoRoomPersists(pass, pol, v.project, st.groups[v.project], r.groups[v.project]);
    }
  }

  /** `RunLeavesNoRoom` for a visit named by value. */
  lemma VisitLeavesNoRoom(pass: Pass, pol: Policy, sv: Survey, st: State, vs: seq<Visit>, v: Visit)
    requires CanVisitAll(pass, sv, st.groups.Keys, vs) && NoDup(st.unmatched)
    requires v in vs && (pass != Plain ==> v.person in sv.answers)
    requires Admissible(pass, pol, sv, v.project, v.person)
    ensures var r := Run(pass, pol, sv, st, vs);
      v.person in r.unmatched ==> v.project in r.groups && !HasRoom(pass, pol, v.project, |r.groups[v.project]|)
  {
    var j :| 0 <= j < |vs| && vs[j] == v;
    RunLeavesNoRoom(pass, pol, sv, st, vs, j);
  }

  /** A prefix of a walk that can be performed can be performed. */
  lemma {:induction false} CanVisitPrefix(pass: Pass, sv: Survey, keys: set<Project>, vs: seq<Visit>, k: nat)
    requires CanVisitAll(pass, sv, keys, vs) && k <= |vs|
    ensures CanVisitAll(pass, sv, keys, vs[..k])
    decreases k
  {
    if k > 0 {
      assert vs[..k][1..] == vs[1..][..k - 1];
      CanVisitPrefix(pass, sv, keys, vs[1..], k - 1);
    }
  }

  /** A group without room is left exactly as it is by the rest of a pass. */
  lemma {:induction false} FullGroupFrozen(pass: Pass, pol: Policy, sv: Survey, st: State, vs: seq<Visit>, p: Project)
    requires CanVisitAll(pass, sv, st.groups.Keys, vs)
    requires p in st.groups && !HasRoom(pass, pol, p, |st.groups[p]|)
    ensures Run(pass, pol, sv, st, vs).groups[p] == st.groups[p]
    decreases |vs|
  {
    if |vs| > 0 {
      var s1 := Step(pass, pol, sv, st, vs[0]);
      assert s1.groups[p] == st.groups[p];
      FullGroupFrozen(pass, pol, sv, s1, vs[1..], p);
    }
  }

  /** Seats go to whoever is visited first. If the pass would admit the
      student of visit `j` but that student ends the pass unmatched, the
      project was already full when they were visited, and nobody joins it
      after them: its final group is the group it had before visit `j`. */
  lemma {:induction false} FirstVisitedWins(pass: Pass, pol: Policy, sv: Survey, st: State, vs: seq<Visit>, j: nat)
    requires CanVisitAll(pass, sv, st.groups.Keys, vs)
    requires NoDup(st.unmatched)
    requires j < |vs| && (pass != Plain ==> vs[j].person in sv.answers)
    requires Admissible(pass, pol, sv, vs[j].project, vs[j].person)
    ensures CanVisitAll(pass, sv, st.groups.Keys, vs[..j]) && vs[j].project in st.groups
    ensures vs[j].person in Run(pass, pol, sv, st, vs).unmatched ==>
      Run(pass, pol, sv, st, vs).groups[vs[j].project] == Run(pass, pol, sv, st, vs[..j]).groups[vs[j].project]
    decreases |vs|
  {
    CanVisitPrefix(pass, sv, st.groups.Keys, vs, j);
    var r := Run(pass, pol, sv, st, vs);
    var s1 := Step(pass, pol, sv, st, vs[0]);
    assert r == Run(pass, pol, sv, s1, vs[1..]);
    if j > 0 {
      assert vs[1..][j - 1] == vs[j];
      FirstVisitedWins(pass, pol, sv, s1, vs[1..], j - 1);
      assert vs[..j][1..] == vs[1..][..j - 1];
      assert Run(pass, pol, sv, st, vs[..j]) == Run(pass, pol, sv, s1, vs[1..][..j - 1]);
    } else {
      var v := vs[0];
      assert vs[..0] == [];
      if v.person in r.unmatched {
        assert v.person in s1.unmatched;
        assert s1 == st;
        FullGroupFrozen(pass, pol, sv, st, vs[1..], v.project);
      }
    }
  }
}
