/** The user list of pages/user-management/index.tsx: a search box, a role
    selector and a status selector narrow the users shown; role and status
    get a badge colour; the activity card shows the first five log entries. */
module UserManagement {
  import opened Seqs
  import opened Text
  import opened Interfaces

  /** The search box matches a user whose name or email contains the query,
      ignoring case. */
  predicate MatchesSearch(u: User, query: string)
  {
    Contains(Lower(u.name), Lower(query)) || Contains(Lower(u.email), Lower(query))
  }

  /** The role selector: `"all"` or the value of one role. */
  predicate MatchesRole(u: User, selectedRole: string)
  {
    selectedRole == "all" || RoleValue(u.role) == selectedRole
  }

  /** The status selector: `"all"`, `"active"` or `"inactive"`. */
  predicate MatchesStatus(u: User, selectedStatus: string)
  {
    selectedStatus == "all" ||
    (selectedStatus == "active" && u.isActive) ||
    (selectedStatus == "inactive" && !u.isActive)
  }

  predicate Keep(u: User, query: string, selectedRole: string, selectedStatus: string)
  {
    MatchesSearch(u, query) && MatchesRole(u, selectedRole) && MatchesStatus(u, selectedStatus)
  }

  /** `filteredUsers`: the users that pass all three tests, in list order. */
  function FilteredUsers(users: seq<User>, query: string, selectedRole: string, selectedStatus: string): (r: seq<User>)
    ensures Subseq(r, users)
    ensures forall u :: u in r <==> u in users && Keep(u, query, selectedRole, selectedStatus)
  {
    Filter(users, (u: User) => Keep(u, query, selectedRole, selectedStatus))
  }

  /** A user that passes is shown as often as it is listed; one that fails
      is not shown at all. */
  lemma FilteredUsersCounts(users: seq<User>, query: string, selectedRole: string, selectedStatus: string)
    ensures forall u :: multiset(FilteredUsers(users, query, selectedRole, selectedStatus))[u] ==
                        (if Keep(u, query, selectedRole, selectedStatus) then multiset(users)[u] else 0)
  {
    FilterCounts(users, (u: User) => Keep(u, query, selectedRole, selectedStatus));
  }

  /** The empty search box matches every user. */
  lemma EmptyQueryMatches(u: User)
    ensures MatchesSearch(u, "")
  {
    assert Lower("") == "";
    ContainsEmpty(Lower(u.name));
  }

  /** The page's initial filters (empty query, all roles, all statuses)
      show the whole list. */
  lemma InitialFiltersShowAll(users: seq<User>)
    ensures FilteredUsers(users, "", "all", "all") == users
  {
    forall u | u in users
      ensures Keep(u, "", "all", "all")
    {
      EmptyQueryMatches(u);
    }
    FilterKeepsAll(users, (u: User) => Keep(u, "", "all", "all"));
  }

  /** A status value other than the three offered ones matches nobody. */
  lemma UnknownStatusShowsNone(users: seq<User>, query: string, selectedRole: string, selectedStatus: string)
    requires selectedStatus != "all" && selectedStatus != "active" && selectedStatus != "inactive"
    ensures FilteredUsers(users, query, selectedRole, selectedStatus) == []
  {
    FilterDropsAll(users, (u: User) => Keep(u, query, selectedRole, selectedStatus));
  }

  /** Selecting a role shows only users of exactly that role. */
  lemma SelectedRoleIsExact(users: seq<User>, query: string, role: UserRole, selectedStatus: string)
    ensures forall u :: u in FilteredUsers(users, query, RoleValue(role), selectedStatus) ==> u.role == role
  {
    forall u | u in FilteredUsers(users, query, RoleValue(role), selectedStatus)
      ensures u.role == role
    {
      RoleValueInjective(u.role, role);
    }
  }

  /** With no other filter, the "active" and the "inactive" lists together
      hold every user exactly as often as the full list does. */
  lemma StatusesPartition(users: seq<User>)
    ensures multiset(FilteredUsers(users, "", "all", "active")) +
            multiset(FilteredUsers(users, "", "all", "inactive")) == multiset(users)
  {
    FilteredUsersCounts(users, "", "all", "active");
    FilteredUsersCounts(users, "", "all", "inactive");
    forall u
      ensures (multiset(FilteredUsers(users, "", "all", "active")) +
               multiset(FilteredUsers(users, "", "all", "inactive")))[u] == multiset(users)[u]
    {
      EmptyQueryMatches(u);
    }
  }

  /** Searching is insensitive to the case of the query. */
  lemma SearchIgnoresQueryCase(u: User, query: string)
    ensures MatchesSearch(u, query) <==> MatchesSearch(u, Lower(query))
  {
    LowerIdempotent(query);
  }

  /** A query that occurs verbatim in the name or the email matches. */
  lemma VerbatimOccurrenceMatches(u: User, query: string)
    requires Contains(u.name, query) || Contains(u.email, query)
    ensures MatchesSearch(u, query)
  {
    if Contains(u.name, query) {
      ContainsLower(u.name, query);
    } else {
      ContainsLower(u.email, query);
    }
  }

  /** Choosing a role or a status can only narrow what the search alone
      shows, and the order of the users is kept. */
  lemma SelectorsNarrow(users: seq<User>, query: string, selectedRole: string, selectedStatus: string)
    ensures Subseq(FilteredUsers(users, query, selectedRole, selectedStatus), FilteredUsers(users, query, "all", "all"))
  {
    FilterMonotone(users, (u: User) => Keep(u, query, selectedRole, selectedStatus),
                          (u: User) => Keep(u, query, "all", "all"));
  }

  /** The "No users found" card shows exactly when no listed user passes. */
  function ShowsEmptyState(users: seq<User>, query: string, selectedRole: string, selectedStatus: string): (b: bool)
    ensures b <==> forall u :: u in users ==> !Keep(u, query, selectedRole, selectedStatus)
  {
    var shown := FilteredUsers(users, query, selectedRole, selectedStatus);
    if |shown| == 0 then true else assert shown[0] in shown; false
  }

  /** `getRoleColor`: the badge classes of a role; the viewer role falls
      through to the default grey. */
  function RoleColor(role: UserRole): string
  {
    match role
    case Admin => "bg-red-100 text-red-800"
    case Manager => "bg-blue-100 text-blue-800"
    case Mechanic => "bg-green-100 text-green-800"
    case Trainee => "bg-yellow-100 text-yellow-800"
    case _ => "bg-gray-100 text-gray-800"
  }

  /** Every role has its own badge colour. */
  lemma RoleColorsDistinct(a: UserRole, b: UserRole)
    ensures RoleColor(a) == RoleColor(b) <==> a == b
  {
  }

  /** `getStatusColor`: green for active, red for inactive. */
  function StatusColor(isActive: bool): string
  {
    if isActive then "bg-green-100 text-green-800" else "bg-red-100 text-red-800"
  }

  /** The status badge tells active and inactive users apart, and uses the
      colours of the mechanic and admin role badges. */
  lemma StatusColorsDistinct(a: bool, b: bool)
    ensures StatusColor(a) == StatusColor(b) <==> a == b
    ensures StatusColor(true) == RoleColor(Mechanic) && StatusColor(false) == RoleColor(Admin)
  {
  }

  /** The values of the role selector's options, in order. */
  const RoleOptionValues: seq<string> :=
    ["all", RoleValue(Admin), RoleValue(Manager), RoleValue(Mechanic), RoleValue(Trainee), RoleValue(Viewer)]

  /** The values of the status selector's options, in order. */
  const StatusOptionValues: seq<string> := ["all", "active", "inactive"]

  /** Every role has an option, and each option other than "all" selects
      the users of exactly one role. */
  lemma RoleOptionsCoverRoles(role: UserRole)
    ensures RoleValue(role) in RoleOptionValues
    ensures forall i :: 1 <= i < |RoleOptionValues| ==> exists r :: RoleOptionValues[i] == RoleValue(r)
  {
    assert RoleOptionValues[1] == RoleValue(Admin);
    assert RoleOptionValues[2] == RoleValue(Manager);
    assert RoleOptionValues[3] == RoleValue(Mechanic);
    assert RoleOptionValues[4] == RoleValue(Trainee);
    assert RoleOptionValues[5] == RoleValue(Viewer);
  }

  /** An offered status option never hides everybody: it keeps either all
      users, or exactly the active ones, or exactly the inactive ones. */
  lemma StatusOptionsRecognised(u: User, s: string)
    requires s in StatusOptionValues
    ensures MatchesStatus(u, s) <==> s == "all" || (s == "active") == u.isActive
  {
  }

  /** The activity card: `activityLogs.slice(0, 5)`, the first five entries
      in order, or all of them when there are fewer. */
  function RecentActivity(logs: seq<ActivityLog>): (r: seq<ActivityLog>)
    ensures |r| <= 5 && (|logs| <= 5 ==> r == logs)
    ensures r == logs[..|r|]
  {
    Take(logs, 5)
  }

  const JohnDoe := User("1", "john@example.com", "John Doe", Mechanic, true)
  const JaneSmith := User("2", "jane@example.com", "Jane Smith", Manager, true)
  const MikeJohnson := User("3", "mike@example.com", "Mike Johnson", Trainee, true)
  const SarahWilson := User("4", "sarah@example.com", "Sarah Wilson", Mechanic, false)

  /** The page's mock users. */
  const MockUsers := [JohnDoe, JaneSmith, MikeJohnson, SarahWilson]

  /** On the mock users, the inactive mechanics are Sarah Wilson alone. */
  lemma FixtureInactiveMechanics()
    ensures FilteredUsers(MockUsers, "", "mechanic", "inactive") == [SarahWilson]
  {
    var keep := (u: User) => Keep(u, "", "mechanic", "inactive");
    EmptyQueryMatches(SarahWilson);
    var ps := MockUsers;
    assert ps[1..] == [JaneSmith, MikeJohnson, SarahWilson];
    assert ps[1..][1..] == [MikeJohnson, SarahWilson];
    assert ps[1..][1..][1..] == [SarahWilson];
    assert Filter([SarahWilson], keep) == [SarahWilson];
    assert Filter([MikeJohnson, SarahWilson], keep) == [SarahWilson];
    assert Filter([JaneSmith, MikeJohnson, SarahWilson], keep) == [SarahWilson];
  }
}
