/**
 The final export of allocator1.py and allocator2.py: every canonical
 project gets a column, even an empty one; each column lists the group's
 names in ascending order; shorter columns are padded with "" so that all
 columns have the length of the longest one. The spreadsheet write itself
 is outside the model; `Export` yields the columns it would be given.
 */
module Export {
  import opened Lists
  import opened Strings
  import opened Preferences
  import opened Allocation
  import opened Allocators

  /** `all_projects`, the column order of the exported sheet. */
  const AllProjects: seq<Project> := [
    "Fama French Regressions",
    "Passive Investing",
    "Pension Fund (LDI Crisis)",
    "International Finance",
    "PCA (ML in Finance)",
    "Employee Stock Options",
    "Ashanti (Gold Hedging)",
    "LTCM"
  ]

  /** The filler written below a short column. */
  const Blank: string := ""

  /** One exported column: its header and its cells from the top. */
  datatype SheetColumn = SheetColumn(project: Project, cells: seq<string>)

  lemma AllProjectsDistinct()
    ensures NoDup(AllProjects) && |AllProjects| == 8
  {
  }

  /** `for proj in all_projects: groups.setdefault(proj, set())`. */
  function WithCanonical(groups: map<Project, set<Name>>, ps: seq<Project>): (r: map<Project, set<Name>>)
    ensures forall p :: p in r <==> p in groups || p in ps
    ensures forall p :: p in groups ==> r[p] == groups[p]
    ensures forall p :: p in r && p !in groups ==> r[p] == {}
    decreases |ps|
  {
    if |ps| == 0 then groups
    else
      var g := if ps[0] in groups then groups else groups[ps[0] := {}];
      var r := WithCanonical(g, ps[1..]);
      assert forall p :: p in ps <==> p == ps[0] || p in ps[1..];
      r
  }

  /** The group a canonical project exports: its set, or the empty set that
      `setdefault` put in place. */
  function GroupOf(groups: map<Project, set<Name>>, p: Project): set<Name> {
    if p in groups then groups[p] else {}
  }

  /** After `setdefault`, every canonical project's entry is its `GroupOf`. */
  lemma CanonicalGroups(groups: map<Project, set<Name>>, ps: seq<Project>)
    ensures forall p :: p in ps ==> p in WithCanonical(groups, ps) && WithCanonical(groups, ps)[p] == GroupOf(groups, p)
  {
  }

  /** `max(len(v) for v in project_to_lists.values())`, 0 for no columns. */
  function Longest(groups: map<Project, set<Name>>, ps: seq<Project>): (m: nat)
    ensures forall j :: 0 <= j < |ps| ==> |GroupOf(groups, ps[j])| <= m
    ensures |ps| == 0 ==> m == 0
    ensures |ps| > 0 ==> exists j :: 0 <= j < |ps| && |GroupOf(groups, ps[j])| == m
    decreases |ps|
  {
    if |ps| == 0 then 0
    else
      var rest := Longest(groups, ps[1..]);
      var here := |GroupOf(groups, ps[0])|;
      assert forall j :: 1 <= j < |ps| ==> ps[j] == ps[1..][j - 1];
      if here >= rest then here
      else
        assert |ps[1..]| > 0;
        var j :| 0 <= j < |ps[1..]| && |GroupOf(groups, ps[1..][j])| == rest;
        assert ps[j + 1] == ps[1..][j];
        rest
  }

  /** `lst += [""] * (max_len - len(lst))`. */
  function Pad(xs: seq<string>, width: nat): (r: seq<string>)
    requires |xs| <= width
    ensures |r| == width
    ensures r[..|xs|] == xs
    ensures forall j :: |xs| <= j < width ==> r[j] == Blank
  {
    xs + seq(width - |xs|, _ => Blank)
  }

  /** The padded sorted column of each project of `ps`, in order. */
  function Columns(groups: map<Project, set<Name>>, ps: seq<Project>, width: nat): (cols: seq<SheetColumn>)
    requires forall j :: 0 <= j < |ps| ==> |GroupOf(groups, ps[j])| <= width
    ensures |cols| == |ps|
    ensures forall j :: 0 <= j < |ps| ==> cols[j].project == ps[j]
  {
    seq(|ps|, j requires 0 <= j < |ps| => SheetColumn(ps[j], Pad(Sorted(GroupOf(groups, ps[j])), width)))
  }

  /** `project_to_lists` after padding, for the column order `ps`. */
  function Sheet(groups: map<Project, set<Name>>, ps: seq<Project>): (cols: seq<SheetColumn>)
    ensures |cols| == |ps|
    ensures forall j :: 0 <= j < |cols| ==> cols[j].project == ps[j]
  {
    Columns(groups, ps, Longest(groups, ps))
  }

  /** The eight exported columns of a final group map: one per canonical
      project, in the canonical order. Each column is read through `GroupOf`,
      which is the map's entry after the `setdefault` step (`CanonicalGroups`).
      Groups of projects outside `AllProjects` are not written. */
  function Export(groups: map<Project, set<Name>>): (cols: seq<SheetColumn>)
    ensures |cols| == |AllProjects|
    ensures forall j :: 0 <= j < |cols| ==> cols[j].project == AllProjects[j]
  {
    Sheet(groups, AllProjects)
  }

  /** Every column has the same length, the size of the largest group among
      the columns: the sheet is rectangular and no taller than needed. */
  lemma SheetIsRectangular(groups: map<Project, set<Name>>, ps: seq<Project>)
    ensures var cols := Sheet(groups, ps);
      && (forall j :: 0 <= j < |cols| ==> |cols[j].cells| == Longest(groups, ps))
      && (forall j :: 0 <= j < |cols| ==> |GroupOf(groups, ps[j])| <= |cols[j].cells|)
      && (|ps| > 0 ==> exists j :: 0 <= j < |cols| && |cols[j].cells| == |GroupOf(groups, ps[j])|)
  {
    var cols := Sheet(groups, ps);
    if |ps| > 0 {
      var w := Longest(groups, ps);
      var j :| 0 <= j < |ps| && |GroupOf(groups, ps[j])| == w;
      assert |cols[j].cells| == |GroupOf(groups, ps[j])|;
    }
  }

  /** Each column starts with its group's names in ascending order, and the
      rest of it is blank; a project absent from the map (one `setdefault`
      added) gives an all-blank column. */
  lemma SheetColumnContents(groups: map<Project, set<Name>>, ps: seq<Project>, j: nat)
    requires j < |ps|
    ensures var c := Sheet(groups, ps)[j];
      var g := GroupOf(groups, ps[j]);
      && |g| <= |c.cells|
      && c.cells[..|g|] == Sorted(g)
      && Ascending(c.cells[..|g|])
      && (forall t :: |g| <= t < |c.cells| ==> c.cells[t] == Blank)
      && (ps[j] !in groups ==> forall t :: 0 <= t < |c.cells| ==> c.cells[t] == Blank)
  {
  }

  /** Reading a column back recovers its group: every member appears in it,
      and every non-blank cell is a member. */
  lemma SheetRecoversGroups(groups: map<Project, set<Name>>, ps: seq<Project>, j: nat)
    requires j < |ps|
    ensures var c := Sheet(groups, ps)[j];
      var g := GroupOf(groups, ps[j]);
      && (forall x :: x in g ==> x in c.cells)
      && (forall x :: x in c.cells && x != Blank ==> x in g)
  {
    var c := Sheet(groups, ps)[j];
    var g := GroupOf(groups, ps[j]);
    SheetColumnContents(groups, ps, j);
    PaddedMembers(c.cells, Sorted(g));
  }

  /** A column made of `s` followed by blanks holds exactly the members of
      `s`, apart from the blanks. */
  lemma PaddedMembers(cells: seq<string>, s: seq<string>)
    requires |s| <= |cells| && cells[..|s|] == s
    requires forall t :: |s| <= t < |cells| ==> cells[t] == Blank
    ensures forall x :: x in s ==> x in cells
    ensures forall x :: x in cells && x != Blank ==> x in s
  {
    forall x | x in s ensures x in cells {
      var t :| 0 <= t < |s| && s[t] == x;
      assert cells[t] == cells[..|s|][t];
    }
    forall x | x in cells && x != Blank ensures x in s {
      var t :| 0 <= t < |cells| && cells[t] == x;
      assert cells[t] == cells[..|s|][t];
    }
  }

  /** The sheet has the eight canonical columns in order, and each column
      lists exactly its project's group, blanks aside. */
  lemma ExportHasEveryProject(groups: map<Project, set<Name>>, j: nat)
    requires j < |AllProjects|
    ensures |Export(groups)| == 8 && Export(groups)[j].project == AllProjects[j]
    ensures forall x :: x in GroupOf(groups, AllProjects[j]) ==> x in Export(groups)[j].cells
    ensures forall x :: x in Export(groups)[j].cells && x != Blank ==> x in GroupOf(groups, AllProjects[j])
  {
    assert |Export(groups)| == 8 by { AllProjectsDistinct(); }
    var c := Export(groups)[j];
    var g := GroupOf(groups, AllProjects[j]);
    assert c.project == AllProjects[j];
    assert (forall x :: x in g ==> x in c.cells) && (forall x :: x in c.cells && x != Blank ==> x in g) by {
      SheetRecoversGroups(groups, AllProjects, j);
    }
  }

  /** A name held only by groups of projects outside `AllProjects` appears in
      no exported column: such placements are made but not written. */
  lemma NonCanonicalNotExported(groups: map<Project, set<Name>>, x: Name)
    requires x != Blank
    requires forall p :: p in groups && x in groups[p] ==> p !in AllProjects
    ensures forall j :: 0 <= j < |AllProjects| ==> x !in Export(groups)[j].cells
  {
    forall j | 0 <= j < |AllProjects|
      ensures x !in Export(groups)[j].cells
    {
      ExportHasEveryProject(groups, j);
    }
  }

  /** After allocator2.py's two passes, every student placed in one of the
      eight canonical projects has their display name in that project's
      exported column. */
  lemma ExportListsPlacements(pol: Policy, sv: Survey, e: Email, j: nat)
    requires ValidRows(sv.rows) && AnswersCover(sv)
    requires e in AfterGreedy(pol, sv).placed
    requires j < |AllProjects| && AllProjects[j] == AfterGreedy(pol, sv).placed[e]
    ensures DisplayName(sv.roster, e) in Export(AfterGreedy(pol, sv).groups)[j].cells
  {
    var st := AfterGreedy(pol, sv);
    GroupsAccountForPlacements(pol, sv);
    ExportHasEveryProject(st.groups, j);
  }

  /** The export step of allocator1.py and allocator2.py as a method: eight
      columns in canonical order, all of one length, each listing exactly its
      project's group apart from the blank padding. */
  method ExportSheet(groups: map<Project, set<Name>>) returns (cols: seq<SheetColumn>)
    ensures |cols| == |AllProjects|
    ensures forall j :: 0 <= j < |cols| ==> cols[j].project == AllProjects[j]
    ensures forall j :: 0 <= j < |cols| ==> |cols[j].cells| == |cols[0].cells|
    ensures forall j, x :: 0 <= j < |cols| && x in GroupOf(groups, AllProjects[j]) ==> x in cols[j].cells
    ensures forall j, x :: 0 <= j < |cols| && x in cols[j].cells && x != Blank ==> x in GroupOf(groups, AllProjects[j])
  {
    cols := Export(groups);
    SheetIsRectangular(groups, AllProjects);
    forall j | 0 <= j < |cols|
      ensures forall x :: x in GroupOf(groups, AllProjects[j]) ==> x in cols[j].cells
      ensures forall x :: x in cols[j].cells && x != Blank ==> x in GroupOf(groups, AllProjects[j])
    {
      ExportHasEveryProject(groups, j);
    }
  }

  /** A quant-aware script followed by the export: each student placed in a
      canonical project has their display name in that project's column. */
  method QuantExport(pol: Policy, sv: Survey) returns (st: State, cols: seq<SheetColumn>)
    requires ValidRows(sv.rows) && AnswersCover(sv)
    ensures |cols| == |AllProjects|
    ensures forall j :: 0 <= j < |cols| ==> cols[j].project == AllProjects[j]
    ensures forall e, j :: e in st.placed && 0 <= j < |AllProjects| && AllProjects[j] == st.placed[e] ==>
      DisplayName(sv.roster, e) in cols[j].cells
  {
    st := QuantAllocate(pol, sv);
    cols := ExportSheet(st.groups);
  }
}
