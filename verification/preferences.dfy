/**
 The preference index (`master_map`). For each rank n in 1..5 the source
 builds a dict from project to the list of emails that ranked it n-th.
 A Python dict iterates in insertion order, so the dict is modelled as a
 sequence of entries in first-seen order, and each list in row order.
 The allocation passes walk this index rank by rank, project by project,
 person by person; `Schedule` is that walk written out as one sequence.
 */
module Preferences {
  import opened Lists

  type Email = string
  type Project = string

  /** Number of ranked choices per response (survey columns 2..6). */
  const Ranks: nat := 5

  /** One survey row: the respondent's email and the projects they ranked,
      `choices[n - 1]` being the rank-n project. */
  datatype Response = Response(email: Email, choices: seq<Project>)

  /** Every row carries exactly one project per rank. */
  predicate WellShaped(rows: seq<Response>) {
    forall i :: 0 <= i < |rows| ==> |rows[i].choices| == Ranks
  }

  /** No email answers twice. */
  predicate DistinctEmails(rows: seq<Response>) {
    forall i, j :: 0 <= i < j < |rows| ==> rows[i].email != rows[j].email
  }

  /** The email column, in row order. */
  function Emails(rows: seq<Response>): (es: seq<Email>)
    ensures |es| == |rows|
    ensures forall i :: 0 <= i < |rows| ==> es[i] == rows[i].email
    ensures DistinctEmails(rows) ==> NoDup(es)
  {
    seq(|rows|, i requires 0 <= i < |rows| => rows[i].email)
  }

  /** Row `i` ranked project `p` at rank `n`. */
  predicate RankedAt(rows: seq<Response>, i: int, n: int, p: Project) {
    0 <= i < |rows| && 1 <= n <= |rows[i].choices| && rows[i].choices[n - 1] == p
  }

  /** The student with email `e` ranked project `p` at rank `n`. */
  ghost predicate Chose(rows: seq<Response>, n: int, p: Project, e: Email) {
    exists i :: RankedAt(rows, i, n, p) && rows[i].email == e
  }

  /** The rank-n column of the survey, in row order. */
  function Column(rows: seq<Response>, n: nat): (c: seq<Project>)
    requires WellShaped(rows) && 1 <= n <= Ranks
    ensures |c| == |rows|
    ensures forall i :: 0 <= i < |rows| ==> c[i] == rows[i].choices[n - 1]
  {
    seq(|rows|, i requires 0 <= i < |rows| => rows[i].choices[n - 1])
  }

  /** The distinct values of `s` in order of first appearance: the key order
      of a dict filled from `s`. */
  function FirstSeen(s: seq<Project>): (r: seq<Project>)
    ensures forall x :: x in r <==> x in s
    ensures NoDup(r)
    ensures forall a, b :: 0 <= a < b < |r| ==> FirstIndex(s, r[a]) < FirstIndex(s, r[b])
    decreases |s|
  {
    if |s| == 0 then []
    else
      var init := FirstSeen(s[..|s| - 1]);
      var x := s[|s| - 1];
      FirstSeenStep(s, init);
      if x in init then init
      else
        assert FirstIndex(s, x) == |s| - 1;
        init + [x]
  }

  /** Extending `s[..|s| - 1]` by its last value moves no earlier first
      appearance. */
  lemma FirstSeenStep(s: seq<Project>, init: seq<Project>)
    requires |s| > 0
    requires forall a :: 0 <= a < |init| ==> init[a] in s[..|s| - 1]
    ensures forall y :: y in s <==> y in s[..|s| - 1] || y == s[|s| - 1]
    ensures forall a :: 0 <= a < |init| ==>
      init[a] in s && FirstIndex(s, init[a]) == FirstIndex(s[..|s| - 1], init[a])
  {
    assert s == s[..|s| - 1] + [s[|s| - 1]];
    forall a | 0 <= a < |init| ensures init[a] in s && FirstIndex(s, init[a]) == FirstIndex(s[..|s| - 1], init[a]) {
      FirstIndexPrefix(s, |s| - 1, init[a]);
    }
  }

  /** The emails that ranked `p` at rank `n`, in row order (reference
      definition of one list of the index). */
  function Voters(rows: seq<Response>, n: nat, p: Project): (v: seq<Email>)
    requires WellShaped(rows) && 1 <= n <= Ranks
    ensures forall e :: e in v <==> Chose(rows, n, p, e)
    ensures DistinctEmails(rows) ==> NoDup(v)
    decreases |rows|
  {
    if |rows| == 0 then []
    else
      var init := rows[..|rows| - 1];
      var last := rows[|rows| - 1];
      var v := Voters(init, n, p) + (if last.choices[n - 1] == p then [last.email] else []);
      assert forall e :: e in v <==> Chose(rows, n, p, e) by {
        forall e ensures e in v <==> Chose(rows, n, p, e) {
          if Chose(init, n, p, e) {
            var i :| RankedAt(init, i, n, p) && init[i].email == e;
            assert RankedAt(rows, i, n, p);
          }
          if Chose(rows, n, p, e) {
            var i :| RankedAt(rows, i, n, p) && rows[i].email == e;
            if i < |rows| - 1 {
              assert RankedAt(init, i, n, p);
            }
          }
        }
      }
      assert DistinctEmails(rows) ==> NoDup(v) by {
        if DistinctEmails(rows) && last.choices[n - 1] == p {
          assert DistinctEmails(init);
          assert last.email !in Voters(init, n, p);
        }
      }
      v
  }

  /** `x` occurs in `v` at an earlier position than `y`. */
  ghost predicate Precedes<T>(v: seq<T>, x: T, y: T) {
    exists a, b :: 0 <= a < b < |v| && v[a] == x && v[b] == y
  }

  /** Two rows that ranked `p` n-th appear in its list in row order. */
  lemma {:induction false} VotersInRowOrder(rows: seq<Response>, n: nat, p: Project, i: nat, j: nat)
    requires WellShaped(rows) && 1 <= n <= Ranks
    requires i < j && RankedAt(rows, i, n, p) && RankedAt(rows, j, n, p)
    ensures Precedes(Voters(rows, n, p), rows[i].email, rows[j].email)
    decreases |rows|
  {
    var init := rows[..|rows| - 1];
    var v := Voters(rows, n, p);
    var w := Voters(init, n, p);
    var last := rows[|rows| - 1];
    assert v == w + (if last.choices[n - 1] == p then [last.email] else []);
    if j < |rows| - 1 {
      assert RankedAt(init, i, n, p) && RankedAt(init, j, n, p);
      VotersInRowOrder(init, n, p, i, j);
      assert init[i] == rows[i] && init[j] == rows[j];
      var a, b :| 0 <= a < b < |w| && w[a] == rows[i].email && w[b] == rows[j].email;
      assert v[a] == w[a] && v[b] == w[b];
    } else {
      assert RankedAt(init, i, n, p) && last.choices[n - 1] == p;
      assert Chose(init, n, p, rows[i].email);
      var a :| 0 <= a < |w| && w[a] == rows[i].email;
      assert v[a] == w[a] && v[|w|] == rows[j].email;
    }
  }

  /** One key/value pair of a rank's dict. */
  datatype Entry = Entry(project: Project, people: seq<Email>)

  /** One rank's dict, `master_map[n]`, in insertion order. */
  type RankIndex = seq<Entry>

  /** The keys of a rank's dict in iteration order. */
  function Projects(idx: RankIndex): (ps: seq<Project>)
    ensures |ps| == |idx|
    ensures forall k :: 0 <= k < |idx| ==> ps[k] == idx[k].project
  {
    seq(|idx|, k requires 0 <= k < |idx| => idx[k].project)
  }

  /** A dict has each key once. */
  predicate DistinctProjects(idx: RankIndex) {
    forall j, k :: 0 <= j < k < |idx| ==> idx[j].project != idx[k].project
  }

  /** One step of the build loop: append `e` to the list of `p`, creating
      the key at the end of the dict if it is new. */
  function Add(idx: RankIndex, p: Project, e: Email): (r: RankIndex)
    requires DistinctProjects(idx)
    ensures DistinctProjects(r)
    ensures Projects(r) == if p in Projects(idx) then Projects(idx) else Projects(idx) + [p]
    ensures forall k :: 0 <= k < |r| ==>
      r[k].people == (if k < |idx| then idx[k].people else []) + (if r[k].project == p then [e] else [])
  {
    if p in Projects(idx) then
      var k := FirstIndex(Projects(idx), p);
      var r := idx[k := Entry(p, idx[k].people + [e])];
      assert Projects(r) == Projects(idx);
      r
    else
      var r := idx + [Entry(p, [e])];
      assert Projects(r) == Projects(idx) + [p];
      r
  }

  /** `master_map[n]`: the rank-n dict after all rows have been read, one
      `Add` per row in row order. */
  function IndexRank(rows: seq<Response>, n: nat): (idx: RankIndex)
    requires WellShaped(rows) && 1 <= n <= Ranks
    ensures DistinctProjects(idx)
    decreases |rows|
  {
    if |rows| == 0 then []
    else
      var last := rows[|rows| - 1];
      Add(IndexRank(rows[..|rows| - 1], n), last.choices[n - 1], last.email)
  }

  /** The rank-n dict groups the rows by their rank-n project: its keys are
      the rank-n projects in first-seen order, and the list under each key
      holds exactly the emails that ranked that project n-th, in row order. */
  lemma {:induction false} IndexRankGroups(rows: seq<Response>, n: nat)
    requires WellShaped(rows) && 1 <= n <= Ranks
    ensures Projects(IndexRank(rows, n)) == FirstSeen(Column(rows, n))
    ensures forall k :: 0 <= k < |IndexRank(rows, n)| ==>
      IndexRank(rows, n)[k].people == Voters(rows, n, IndexRank(rows, n)[k].project)
    decreases |rows|
  {
    if |rows| > 0 {
      var init := rows[..|rows| - 1];
      var last := rows[|rows| - 1];
      var before := IndexRank(init, n);
      var idx := IndexRank(rows, n);
      IndexRankGroups(init, n);
      var col := Column(rows, n);
      assert col[..|col| - 1] == Column(init, n);
      assert col[|col| - 1] == last.choices[n - 1];
      assert FirstSeen(col) == if last.choices[n - 1] in FirstSeen(Column(init, n)) then FirstSeen(Column(init, n))
        else FirstSeen(Column(init, n)) + [last.choices[n - 1]];
      assert Projects(idx) == FirstSeen(col);
      forall k | 0 <= k < |idx| ensures idx[k].people == Voters(rows, n, idx[k].project) {
        var q := idx[k].project;
        if k >= |before| {
          assert q == last.choices[n - 1] && q !in Projects(before);
          NoVotersOutsideColumn(init, n, q);
        }
      }
    }
  }

  /** A project absent from the rank-n column has no rank-n voters. */
  lemma NoVotersOutsideColumn(rows: seq<Response>, n: nat, q: Project)
    requires WellShaped(rows) && 1 <= n <= Ranks
    requires q !in Column(rows, n)
    ensures Voters(rows, n, q) == []
  {
  }

  /** The inner loop of the index build for one rank: every row, in row
      order, appends its email under its rank-n project. */
  method BuildRank(rows: seq<Response>, n: nat) returns (d: RankIndex)
    requires WellShaped(rows) && 1 <= n <= Ranks
    ensures d == IndexRank(rows, n)
  {
    d := [];
    var i := 0;
    while i < |rows|
      invariant 0 <= i <= |rows|
      invariant d == IndexRank(rows[..i], n)
    {
      assert rows[..i + 1][..i] == rows[..i];
      d := Add(d, rows[i].choices[n - 1], rows[i].email);
      i := i + 1;
    }
    assert rows[..|rows|] == rows;
  }

  /** The index build as the source writes it: ranks 1..Ranks outermost, the
      rank's dict created when its first row arrives. With no rows no rank
      key is ever created, so a later `master_map[1]` fails. */
  method BuildMasterMap(rows: seq<Response>) returns (mm: map<nat, RankIndex>)
    requires WellShaped(rows)
    ensures forall n :: n in mm <==> |rows| > 0 && 1 <= n <= Ranks
    ensures forall n :: n in mm ==> 1 <= n <= Ranks && mm[n] == IndexRank(rows, n)
  {
    mm := map[];
    var n := 1;
    while n <= Ranks
      invariant 1 <= n <= Ranks + 1
      invariant forall m :: m in mm <==> |rows| > 0 && 1 <= m < n
      invariant forall m :: m in mm ==> 1 <= m <= Ranks && mm[m] == IndexRank(rows, m)
    {
      var d := BuildRank(rows, n);
      RankStored(rows, mm, n, d);
      if |rows| > 0 {
        mm := mm[n := d];
      }
      n := n + 1;
    }
  }

  /** Storing rank n's dict extends the ranks held from 1..n-1 to 1..n. */
  lemma RankStored(rows: seq<Response>, mm: map<nat, RankIndex>, n: nat, d: RankIndex)
    requires WellShaped(rows) && 1 <= n <= Ranks && d == IndexRank(rows, n)
    requires forall m :: m in mm <==> |rows| > 0 && 1 <= m < n
    requires forall m :: m in mm ==> 1 <= m <= Ranks && mm[m] == IndexRank(rows, m)
    ensures var next := if |rows| > 0 then mm[n := d] else mm;
      && (forall m :: m in next <==> |rows| > 0 && 1 <= m < n + 1)
      && (forall m :: m in next ==> 1 <= m <= Ranks && next[m] == IndexRank(rows, m))
  {
  }

  /** One examination of a person for a project by an allocation pass. */
  datatype Visit = Visit(project: Project, person: Email)

  /** The inner two loops over one entry: `for person in people`. */
  function EntryVisits(en: Entry): (vs: seq<Visit>)
    ensures |vs| == |en.people|
    ensures forall i :: 0 <= i < |vs| ==> vs[i] == Visit(en.project, en.people[i])
    ensures forall v :: v in vs <==> v.project == en.project && v.person in en.people
  {
    var vs := seq(|en.people|, i requires 0 <= i < |en.people| => Visit(en.project, en.people[i]));
    assert forall i :: 0 <= i < |en.people| ==> vs[i] == Visit(en.project, en.people[i]);
    vs
  }

  /** `for proj, people in master_map[n].items(): for person in people`. */
  function Visits(idx: RankIndex): seq<Visit> {
    if |idx| == 0 then [] else EntryVisits(idx[0]) + Visits(idx[1..])
  }

  /** A round visits exactly the (project, person) pairs its dict lists. */
  lemma {:induction false} VisitsMembers(idx: RankIndex, v: Visit)
    ensures v in Visits(idx) <==> exists k :: 0 <= k < |idx| && idx[k].project == v.project && v.person in idx[k].people
    decreases |idx|
  {
    if |idx| > 0 {
      VisitsCons(idx);
      VisitsMembers(idx[1..], v);
      if k :| 0 <= k < |idx[1..]| && idx[1..][k].project == v.project && v.person in idx[1..][k].people {
        assert idx[k + 1] == idx[1..][k];
      }
      if k :| 0 < k < |idx| && idx[k].project == v.project && v.person in idx[k].people {
        assert idx[1..][k - 1] == idx[k];
      }
    }
  }

  /** Where the visits of entry `k` start in `Visits(idx)`: the total length
      of the lists before it. */
  function Offset(idx: RankIndex, k: nat): nat
    requires k <= |idx|
    decreases k
  {
    if k == 0 then 0 else |idx[0].people| + Offset(idx[1..], k - 1)
  }

  /** `Visits` of a non-empty dict: its first entry's visits, then the rest. */
  lemma VisitsCons(idx: RankIndex)
    requires |idx| > 0
    ensures Visits(idx) == EntryVisits(idx[0]) + Visits(idx[1..])
  {
  }

  /** The `a`-th person of entry `k` is visited at position `Offset(idx, k) + a`. */
  lemma {:induction false} VisitAt(idx: RankIndex, k: nat, a: nat)
    requires k < |idx| && a < |idx[k].people|
    ensures Offset(idx, k) + a < |Visits(idx)|
    ensures Visits(idx)[Offset(idx, k) + a] == Visit(idx[k].project, idx[k].people[a])
    decreases k, 1
  {
    if k == 0 {
      VisitAtFirst(idx, a);
    } else {
      VisitAtLater(idx, k, a);
    }
  }

  /** `VisitAt` for the first entry. */
  lemma VisitAtFirst(idx: RankIndex, a: nat)
    requires 0 < |idx| && a < |idx[0].people|
    ensures a < |Visits(idx)| && Visits(idx)[a] == Visit(idx[0].project, idx[0].people[a])
  {
    VisitsCons(idx);
  }

  /** `VisitAt` for a later entry, from `VisitAt` on the rest of the dict. */
  lemma {:induction false} VisitAtLater(idx: RankIndex, k: nat, a: nat)
    requires 0 < k < |idx| && a < |idx[k].people|
    ensures Offset(idx, k) + a < |Visits(idx)|
    ensures Visits(idx)[Offset(idx, k) + a] == Visit(idx[k].project, idx[k].people[a])
    decreases k, 0
  {
    var t := Offset(idx[1..], k - 1) + a;
    assert idx[1..][k - 1] == idx[k];
    VisitAt(idx[1..], k - 1, a);
    VisitsCons(idx);
    ConcatAt(Visits(idx), EntryVisits(idx[0]), Visits(idx[1..]), t, Visit(idx[k].project, idx[k].people[a]));
  }

  /** Element `t` of `y` sits at position `|x| + t` of `whole == x + y`. */
  lemma ConcatAt<T>(whole: seq<T>, x: seq<T>, y: seq<T>, t: nat, v: T)
    requires whole == x + y && t < |y| && y[t] == v
    ensures |x| + t < |whole| && whole[|x| + t] == v
  {
  }

  /** The visits of an entry all come before those of any later entry. */
  lemma {:induction false} OffsetAfter(idx: RankIndex, j: nat, k: nat)
    requires j < k <= |idx|
    ensures Offset(idx, j) + |idx[j].people| <= Offset(idx, k)
    decreases j
  {
    if j > 0 {
      assert idx[1..][j - 1] == idx[j];
      OffsetAfter(idx[1..], j - 1, k - 1);
    }
  }

  /** A round walks the dict's entries in key order and each list in list
      order: an earlier entry's people, or an earlier person of the same
      entry, are visited first. */
  lemma VisitsInIndexOrder(idx: RankIndex, j: nat, a: nat, k: nat, b: nat)
    requires j < |idx| && a < |idx[j].people| && k < |idx| && b < |idx[k].people|
    requires j < k || (j == k && a < b)
    ensures Precedes(Visits(idx), Visit(idx[j].project, idx[j].people[a]), Visit(idx[k].project, idx[k].people[b]))
  {
    VisitAt(idx, j, a);
    VisitAt(idx, k, b);
    if j < k {
      OffsetAfter(idx, j, k);
    }
  }

  /** Within the rank-n round, two students who ranked the same project n-th
      are visited for it in row order. */
  lemma RoundVisitsInRowOrder(rows: seq<Response>, n: nat, p: Project, i: nat, j: nat)
    requires WellShaped(rows) && 1 <= n <= Ranks
    requires i < j && RankedAt(rows, i, n, p) && RankedAt(rows, j, n, p)
    ensures Precedes(Visits(IndexRank(rows, n)), Visit(p, rows[i].email), Visit(p, rows[j].email))
  {
    var idx := IndexRank(rows, n);
    IndexRankGroups(rows, n);
    assert Column(rows, n)[i] == p;
    assert p in Projects(idx);
    var k :| 0 <= k < |idx| && Projects(idx)[k] == p;
    VotersInRowOrder(rows, n, p, i, j);
    var v := Voters(rows, n, p);
    var a, b :| 0 <= a < b < |v| && v[a] == rows[i].email && v[b] == rows[j].email;
    VisitsInIndexOrder(idx, k, a, k, b);
  }

  /** Within the rank-n round, projects are taken in the order in which their
      first rank-n voter appears in the survey: a student whose project
      appeared first is visited before one whose project appeared later. */
  lemma RoundVisitsInKeyOrder(rows: seq<Response>, n: nat, i: nat, j: nat)
    requires WellShaped(rows) && 1 <= n <= Ranks && i < |rows| && j < |rows|
    requires FirstIndex(Column(rows, n), rows[i].choices[n - 1]) < FirstIndex(Column(rows, n), rows[j].choices[n - 1])
    ensures Precedes(Visits(IndexRank(rows, n)), Visit(rows[i].choices[n - 1], rows[i].email),
                     Visit(rows[j].choices[n - 1], rows[j].email))
  {
    var idx := IndexRank(rows, n);
    var p, q := rows[i].choices[n - 1], rows[j].choices[n - 1];
    var k1 := IndexedAt(rows, n, i);
    var k2 := IndexedAt(rows, n, j);
    FirstSeenOrder(Column(rows, n), k1, k2);
    var a :| 0 <= a < |idx[k1].people| && idx[k1].people[a] == rows[i].email;
    var b :| 0 <= b < |idx[k2].people| && idx[k2].people[b] == rows[j].email;
    VisitsInIndexOrder(idx, k1, a, k2, b);
  }

  /** The entry of the rank-n dict that row `i` is filed under. */
  lemma IndexedAt(rows: seq<Response>, n: nat, i: nat) returns (k: nat)
    requires WellShaped(rows) && 1 <= n <= Ranks && i < |rows|
    ensures k < |IndexRank(rows, n)| && IndexRank(rows, n)[k].project == rows[i].choices[n - 1]
    ensures rows[i].email in IndexRank(rows, n)[k].people
    ensures Projects(IndexRank(rows, n)) == FirstSeen(Column(rows, n))
  {
    var idx := IndexRank(rows, n);
    var p := rows[i].choices[n - 1];
    IndexRankGroups(rows, n);
    assert Column(rows, n)[i] == p;
    assert p in Projects(idx);
    k :| 0 <= k < |idx| && Projects(idx)[k] == p;
    assert RankedAt(rows, i, n, p);
  }

  /** Positions in `FirstSeen(s)` follow first appearance in `s`. */
  lemma FirstSeenOrder(s: seq<Project>, k1: nat, k2: nat)
    requires k1 < |FirstSeen(s)| && k2 < |FirstSeen(s)|
    requires FirstIndex(s, FirstSeen(s)[k1]) < FirstIndex(s, FirstSeen(s)[k2])
    ensures k1 < k2
  {
  }

  /** The rank-n round of a pass visits exactly the (project, email) pairs
      of the rows that ranked that project n-th. */
  lemma RoundVisitsChoices(rows: seq<Response>, n: nat, v: Visit)
    requires WellShaped(rows) && 1 <= n <= Ranks
    ensures v in Visits(IndexRank(rows, n)) <==> Chose(rows, n, v.project, v.person)
  {
    if Chose(rows, n, v.project, v.person) {
      RoundHasChoice(rows, n, v);
    }
    if v in Visits(IndexRank(rows, n)) {
      RoundVisitIsChoice(rows, n, v);
    }
  }

  /** A rank-n choice is visited in round n. */
  lemma RoundHasChoice(rows: seq<Response>, n: nat, v: Visit)
    requires WellShaped(rows) && 1 <= n <= Ranks && Chose(rows, n, v.project, v.person)
    ensures v in Visits(IndexRank(rows, n))
  {
    var idx := IndexRank(rows, n);
    IndexRankGroups(rows, n);
    var i :| RankedAt(rows, i, n, v.project) && rows[i].email == v.person;
    assert Column(rows, n)[i] == v.project;
    var k := FirstIndex(Projects(idx), v.project);
    assert v.person in idx[k].people;
    VisitsMembers(idx, v);
  }

  /** Every visit of round n is a rank-n choice. */
  lemma RoundVisitIsChoice(rows: seq<Response>, n: nat, v: Visit)
    requires WellShaped(rows) && 1 <= n <= Ranks && v in Visits(IndexRank(rows, n))
    ensures Chose(rows, n, v.project, v.person)
  {
    var idx := IndexRank(rows, n);
    VisitsMembers(idx, v);
    IndexRankGroups(rows, n);
    var k :| 0 <= k < |idx| && idx[k].project == v.project && v.person in idx[k].people;
    assert v.person in Voters(rows, n, idx[k].project);
  }

  /** The walk of the rounds n..Ranks, in round order: `for n in range(n, 6)`.
      Each round visits every row once, so the walk is one visit per row per
      round. */
  function Schedule(rows: seq<Response>, n: nat): (vs: seq<Visit>)
    requires WellShaped(rows) && 1 <= n <= Ranks + 1
    ensures |vs| == Times(Ranks + 1 - n, |rows|)
    decreases Ranks + 1 - n
  {
    if n > Ranks then []
    else
      IndexRankSize(rows, n);
      Visits(IndexRank(rows, n)) + Schedule(rows, n + 1)
  }

  /** `k * size`, written as repeated addition. */
  function Times(k: nat, size: nat): nat {
    if k == 0 then 0 else size + Times(k - 1, size)
  }

  /** One round visits as many (project, person) pairs as there are rows. */
  lemma {:induction false} IndexRankSize(rows: seq<Response>, n: nat)
    requires WellShaped(rows) && 1 <= n <= Ranks
    ensures |Visits(IndexRank(rows, n))| == |rows|
    decreases |rows|
  {
    if |rows| > 0 {
      var init := rows[..|rows| - 1];
      var last := rows[|rows| - 1];
      var before := IndexRank(init, n);
      var p := last.choices[n - 1];
      IndexRankSize(init, n);
      if p in Projects(before) {
        var k := FirstIndex(Projects(before), p);
        VisitsGrow(before, k, Entry(p, before[k].people + [last.email]));
      } else {
        VisitsAppend(before, Entry(p, [last.email]));
      }
    }
  }

  /** Appending an entry adds its list's length to the visits. */
  lemma {:induction false} VisitsAppend(idx: RankIndex, en: Entry)
    ensures |Visits(idx + [en])| == |Visits(idx)| + |en.people|
    decreases |idx|
  {
    VisitsCons(idx + [en]);
    if |idx| == 0 {
      assert (idx + [en])[1..] == [];
    } else {
      VisitsCons(idx);
      assert (idx + [en])[1..] == idx[1..] + [en];
      VisitsAppend(idx[1..], en);
    }
  }

  /** Growing one entry's list by one adds one visit. */
  lemma {:induction false} VisitsGrow(idx: RankIndex, k: nat, en: Entry)
    requires k < |idx| && |en.people| == |idx[k].people| + 1
    ensures |Visits(idx[k := en])| == |Visits(idx)| + 1
    decreases k
  {
    VisitsCons(idx);
    VisitsCons(idx[k := en]);
    if k == 0 {
      assert idx[k := en][1..] == idx[1..];
    } else {
      assert idx[k := en][1..] == idx[1..][k - 1 := en];
      VisitsGrow(idx[1..], k - 1, en);
    }
  }

  /** The rounds n..Ranks visit exactly the pairs (p, e) such that the row of
      `e` ranked `p` at one of those ranks. */
  lemma {:induction false} ScheduleVisitsChoices(rows: seq<Response>, n: nat, v: Visit)
    requires WellShaped(rows) && 1 <= n <= Ranks + 1
    ensures v in Schedule(rows, n) <==> exists m :: n <= m <= Ranks && Chose(rows, m, v.project, v.person)
    decreases Ranks + 1 - n
  {
    if n <= Ranks {
      RoundVisitsChoices(rows, n, v);
      ScheduleVisitsChoices(rows, n + 1, v);
      assert (exists m :: n <= m <= Ranks && Chose(rows, m, v.project, v.person))
        <==> Chose(rows, n, v.project, v.person) || exists m :: n + 1 <= m <= Ranks && Chose(rows, m, v.project, v.person);
    }
  }

  /** `Schedule` from round n: round n's visits, then the later rounds. */
  lemma ScheduleCons(rows: seq<Response>, n: nat)
    requires WellShaped(rows) && 1 <= n <= Ranks
    ensures Schedule(rows, n) == Visits(IndexRank(rows, n)) + Schedule(rows, n + 1)
  {
  }

  /** A visit of round m is part of the walk of the rounds n..m. */
  lemma RoundInSchedule(rows: seq<Response>, n: nat, m: nat, w: Visit)
    requires WellShaped(rows) && 1 <= n <= m <= Ranks
    requires w in Visits(IndexRank(rows, m))
    ensures w in Schedule(rows, n)
  {
    RoundVisitsChoices(rows, m, w);
    ScheduleVisitsChoices(rows, n, w);
  }

  /** The rounds are walked in rank order: every visit of round n comes
      before every visit of a later round m. */
  lemma RoundsInRankOrder(rows: seq<Response>, n: nat, m: nat, v: Visit, w: Visit)
    requires WellShaped(rows) && 1 <= n < m <= Ranks
    requires v in Visits(IndexRank(rows, n)) && w in Visits(IndexRank(rows, m))
    ensures Precedes(Schedule(rows, n), v, w)
  {
    RoundInSchedule(rows, n + 1, m, w);
    ScheduleHeadFirst(rows, n, v, w);
  }

  /** A visit of round n precedes every visit of the later rounds. */
  lemma ScheduleHeadFirst(rows: seq<Response>, n: nat, v: Visit, w: Visit)
    requires WellShaped(rows) && 1 <= n <= Ranks
    requires v in Visits(IndexRank(rows, n)) && w in Schedule(rows, n + 1)
    ensures Precedes(Schedule(rows, n), v, w)
  {
    ScheduleCons(rows, n);
    ConcatPrecedes(Visits(IndexRank(rows, n)), Schedule(rows, n + 1), v, w);
  }

  /** A member of `x` precedes a member of `y` in `x + y`. */
  lemma ConcatPrecedes<T>(x: seq<T>, y: seq<T>, v: T, w: T)
    requires v in x && w in y
    ensures Precedes(x + y, v, w)
  {
    var a :| 0 <= a < |x| && x[a] == v;
    var b :| 0 <= b < |y| && y[b] == w;
    assert (x + y)[a] == v && (x + y)[|x| + b] == w;
  }

  /** Each row's email is indexed exactly once per rank: under its own rank-n
      project, and in no other project's list. */
  lemma {:induction false} EachRowIndexedOnce(rows: seq<Response>, n: nat, i: nat)
    requires WellShaped(rows) && DistinctEmails(rows) && 1 <= n <= Ranks && i < |rows|
    ensures var idx := IndexRank(rows, n);
      exists k :: 0 <= k < |idx| && idx[k].project == rows[i].choices[n - 1] && rows[i].email in idx[k].people
    ensures var idx := IndexRank(rows, n);
      forall k :: 0 <= k < |idx| && rows[i].email in idx[k].people ==> idx[k].project == rows[i].choices[n - 1]
    ensures var idx := IndexRank(rows, n);
      forall k :: 0 <= k < |idx| ==> NoDup(idx[k].people)
  {
    var idx := IndexRank(rows, n);
    var p := rows[i].choices[n - 1];
    IndexRankGroups(rows, n);
    assert Column(rows, n)[i] == p;
    var own := FirstIndex(Projects(idx), p);
    assert RankedAt(rows, i, n, p);
    assert rows[i].email in idx[own].people;
    forall k | 0 <= k < |idx| && rows[i].email in idx[k].people
      ensures idx[k].project == p
    {
      assert Chose(rows, n, idx[k].project, rows[i].email);
      var j :| RankedAt(rows, j, n, idx[k].project) && rows[j].email == rows[i].email;
      assert i == j;
    }
  }
}
