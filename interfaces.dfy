/** The records the pages work on (interfaces/index.ts), restricted to the
    fields some modelled rule reads or the views display. Dates, avatars,
    URLs and nested author records are not part of this model. */
module Interfaces {
  import opened Seqs

  /** The `UserRole` enumeration. */
  datatype UserRole = Admin | Manager | Mechanic | Trainee | Viewer

  /** The string each enumeration member stands for at run time; selectors
      compare these strings with the chosen option's value. */
  function RoleValue(role: UserRole): (v: string)
    ensures |v| > 0 && v != "all"
  {
    match role
    case Admin => "admin"
    case Manager => "manager"
    case Mechanic => "mechanic"
    case Trainee => "trainee"
    case Viewer => "viewer"
  }

  /** Distinct roles have distinct string values, so comparing strings is
      comparing roles. */
  lemma RoleValueInjective(a: UserRole, b: UserRole)
    ensures RoleValue(a) == RoleValue(b) <==> a == b
  {
  }

  datatype User = User(id: string, email: string, name: string, role: UserRole, isActive: bool)

  datatype Video = Video(
    id: string,
    title: string,
    description: string,
    duration: int,
    tags: seq<string>,
    tools: seq<string>,
    materials: seq<string>,
    assignedRoles: seq<UserRole>,
    createdBy: string,
    viewCount: int,
    isPublic: bool)

  datatype Article = Article(
    id: string,
    title: string,
    content: string,
    excerpt: Option<string>,
    category: string,
    tags: seq<string>,
    isPublic: bool,
    authorId: string,
    viewCount: int,
    slug: string)

  datatype Category = Category(id: string, name: string, description: Option<string>, color: string, articleCount: int)

  /** A position in the org chart. `managerId` is optional; the
      `directReports` and `manager` fields of the interface are never read
      by the chart (it recomputes reports from `managerId`) and are left out. */
  datatype Position = Position(
    id: string,
    title: string,
    description: string,
    responsibilities: string,
    level: int,
    department: string,
    managerId: Option<string>,
    assignedUsers: seq<User>,
    linkedArticles: seq<string>,
    linkedVideos: seq<string>,
    requirements: seq<string>)

  datatype ResourceType = ArticleResource | VideoResource | PageResource

  datatype ActivityLog = ActivityLog(
    id: string,
    userId: string,
    user: User,
    action: string,
    resourceType: ResourceType,
    resourceId: string,
    resourceTitle: string)
}
