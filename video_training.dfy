/** The training video library of pages/video-training/index.tsx: a search
    box and a row of role buttons narrow the videos shown, and each card
    shows at most three tags. */
module VideoTraining {
  import opened Seqs
  import opened Text
  import opened Interfaces

  /** Some tag of the video contains the query, ignoring case. */
  predicate TagMatches(v: Video, query: string)
  {
    Any(v.tags, (tag: string) => Contains(Lower(tag), Lower(query)))
  }

  /** The search box matches on the title, the description or any tag,
      ignoring case. */
  predicate MatchesSearch(v: Video, query: string)
  {
    Contains(Lower(v.title), Lower(query)) ||
    Contains(Lower(v.description), Lower(query)) ||
    TagMatches(v, query)
  }

  /** The role selection: `"all"`, or the value of a role the video is
      assigned to. */
  predicate MatchesRole(v: Video, selectedRole: string)
  {
    selectedRole == "all" || Any(v.assignedRoles, (r: UserRole) => RoleValue(r) == selectedRole)
  }

  predicate Keep(v: Video, query: string, selectedRole: string)
  {
    MatchesSearch(v, query) && MatchesRole(v, selectedRole)
  }

  /** `filteredVideos`: the videos that pass both tests, in list order. */
  function FilteredVideos(videos: seq<Video>, query: string, selectedRole: string): (r: seq<Video>)
    ensures Subseq(r, videos)
    ensures forall v :: v in r <==> v in videos && Keep(v, query, selectedRole)
  {
    Filter(videos, (v: Video) => Keep(v, query, selectedRole))
  }

  /** A video that passes is shown as often as it is listed; one that fails
      is not shown at all. */
  lemma FilteredVideosCounts(videos: seq<Video>, query: string, selectedRole: string)
    ensures forall v :: multiset(FilteredVideos(videos, query, selectedRole))[v] ==
                        (if Keep(v, query, selectedRole) then multiset(videos)[v] else 0)
  {
    FilterCounts(videos, (v: Video) => Keep(v, query, selectedRole));
  }

  /** The empty search box matches every video. */
  lemma EmptyQueryMatches(v: Video)
    ensures MatchesSearch(v, "")
  {
    assert Lower("") == "";
    ContainsEmpty(Lower(v.title));
  }

  /** The initial filters (empty query, all roles) show the whole library. */
  lemma InitialFiltersShowAll(videos: seq<Video>)
    ensures FilteredVideos(videos, "", "all") == videos
  {
    forall v | v in videos
      ensures Keep(v, "", "all")
    {
      EmptyQueryMatches(v);
    }
    FilterKeepsAll(videos, (v: Video) => Keep(v, "", "all"));
  }

  /** Selecting a role keeps a video exactly when that role is among the
      roles it is assigned to. */
  lemma SelectedRoleMeansAssigned(v: Video, role: UserRole)
    ensures MatchesRole(v, RoleValue(role)) <==> role in v.assignedRoles
  {
    if role in v.assignedRoles {
      var i :| 0 <= i < |v.assignedRoles| && v.assignedRoles[i] == role;
      assert RoleValue(v.assignedRoles[i]) == RoleValue(role);
    }
    if MatchesRole(v, RoleValue(role)) {
      assert RoleValue(role) != "all";
      var i :| 0 <= i < |v.assignedRoles| && RoleValue(v.assignedRoles[i]) == RoleValue(role);
      RoleValueInjective(v.assignedRoles[i], role);
    }
  }

  /** A selection that is neither `"all"` nor the value of a role shows
      nothing. */
  lemma UnknownRoleShowsNone(videos: seq<Video>, query: string, selectedRole: string)
    requires selectedRole != "all" && forall r: UserRole :: RoleValue(r) != selectedRole
    ensures FilteredVideos(videos, query, selectedRole) == []
  {
    FilterDropsAll(videos, (v: Video) => Keep(v, query, selectedRole));
  }

  /** A query that occurs verbatim in one of the tags matches. */
  lemma VerbatimTagMatches(v: Video, query: string, i: nat)
    requires i < |v.tags| && Contains(v.tags[i], query)
    ensures MatchesSearch(v, query)
  {
    ContainsLower(v.tags[i], query);
  }

  /** Searching is insensitive to the case of the query. */
  lemma SearchIgnoresQueryCase(v: Video, query: string)
    ensures MatchesSearch(v, query) <==> MatchesSearch(v, Lower(query))
  {
    LowerIdempotent(query);
  }

  /** Choosing a role can only narrow what the search alone shows. */
  lemma RoleNarrows(videos: seq<Video>, query: string, selectedRole: string)
    ensures Subseq(FilteredVideos(videos, query, selectedRole), FilteredVideos(videos, query, "all"))
  {
    FilterMonotone(videos, (v: Video) => Keep(v, query, selectedRole), (v: Video) => Keep(v, query, "all"));
  }

  /** The "No videos found" card shows exactly when no video passes. */
  function ShowsEmptyState(videos: seq<Video>, query: string, selectedRole: string): (b: bool)
    ensures b <==> forall v :: v in videos ==> !Keep(v, query, selectedRole)
  {
    var shown := FilteredVideos(videos, query, selectedRole);
    if |shown| == 0 then true else assert shown[0] in shown; false
  }

  datatype RoleOption = RoleOption(value: string, caption: string)

  /** The role buttons, in order. Admins and viewers have no button. */
  const RoleOptions: seq<RoleOption> := [
    RoleOption("all", "All Roles"),
    RoleOption(RoleValue(Mechanic), "Mechanics"),
    RoleOption(RoleValue(Trainee), "Trainees"),
    RoleOption(RoleValue(Manager), "Managers")
  ]

  /** Clicking button `i` makes its value the selection. */
  function ClickRole(i: nat): (selected: string)
    requires i < |RoleOptions|
    ensures selected in ["all", "mechanic", "trainee", "manager"]
  {
    RoleOptions[i].value
  }

  /** Which buttons are drawn highlighted: those whose value is the
      selection. */
  function Highlighted(selectedRole: string): (h: seq<bool>)
    ensures |h| == |RoleOptions|
    ensures forall i :: 0 <= i < |h| ==> h[i] == (RoleOptions[i].value == selectedRole)
  {
    seq(|RoleOptions|, i requires 0 <= i < |RoleOptions| => RoleOptions[i].value == selectedRole)
  }

  /** After a click exactly the clicked button is highlighted. */
  lemma ClickHighlightsOnlyClicked(i: nat)
    requires i < |RoleOptions|
    ensures forall j :: 0 <= j < |RoleOptions| ==> (Highlighted(ClickRole(i))[j] <==> j == i)
  {
    assert RoleOptions[0].value == "all";
    assert RoleOptions[1].value == "mechanic";
    assert RoleOptions[2].value == "trainee";
    assert RoleOptions[3].value == "manager";
  }

  const DerailleurVideo := Video("1", "Shimano Derailleur Adjustment",
    "Complete guide to adjusting Shimano derailleurs for optimal shifting performance.",
    1250, ["derailleur", "shimano", "adjustment"],
    ["Hex wrench set", "Cable cutter", "Derailleur alignment tool"],
    ["Cable housing", "Derailleur cable", "Lubricant"],
    [Mechanic, Trainee], "1", 67, true)
  const BrakeVideo := Video("2", "Hydraulic Brake Bleeding",
    "Step-by-step procedure for bleeding hydraulic disc brakes.",
    1800, ["brakes", "bleeding", "hydraulic"],
    ["Bleed kit", "Syringe", "Torx wrench"],
    ["Brake fluid", "Bleed block", "Paper towels"],
    [Mechanic, Trainee], "2", 45, true)
  const WheelVideo := Video("3", "Wheel Truing Basics",
    "Learn the fundamentals of wheel truing and spoke adjustment.",
    2100, ["wheels", "truing", "spokes"],
    ["Truing stand", "Spoke wrench", "Tension meter"],
    ["Spokes", "Nipples", "Rim tape"],
    [Mechanic], "1", 23, false)

  /** The page's mock videos. */
  const MockVideos := [DerailleurVideo, BrakeVideo, WheelVideo]

  /** On the mock videos, the trainee button leaves out the wheel video and
      the manager button leaves nothing. */
  lemma FixtureRoleButtons()
    ensures FilteredVideos(MockVideos, "", "trainee") == [DerailleurVideo, BrakeVideo]
    ensures FilteredVideos(MockVideos, "", "manager") == []
  {
    var vs := MockVideos;
    EmptyQueryMatches(DerailleurVideo);
    EmptyQueryMatches(BrakeVideo);
    SelectedRoleMeansAssigned(DerailleurVideo, Trainee);
    SelectedRoleMeansAssigned(BrakeVideo, Trainee);
    SelectedRoleMeansAssigned(WheelVideo, Trainee);
    SelectedRoleMeansAssigned(DerailleurVideo, Manager);
    SelectedRoleMeansAssigned(BrakeVideo, Manager);
    SelectedRoleMeansAssigned(WheelVideo, Manager);
    assert vs[1..] == [BrakeVideo, WheelVideo];
    assert vs[1..][1..] == [WheelVideo];
    var trainee := (v: Video) => Keep(v, "", "trainee");
    assert Filter([WheelVideo], trainee) == [];
    assert Filter([BrakeVideo, WheelVideo], trainee) == [BrakeVideo];
    var manager := (v: Video) => Keep(v, "", "manager");
    assert Filter([WheelVideo], manager) == [];
    assert Filter([BrakeVideo, WheelVideo], manager) == [];
  }
}
