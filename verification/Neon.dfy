/**
 * Find-or-create provisioning of the database: one Neon project, one branch in it, a role, a
 * database, and the connection secret on GitHub.
 *
 * A run makes one remote call after another and keeps nothing between calls but where it is (`Pc`),
 * so being interrupted means losing that.  `Exec` is a run cut off after a number of calls.
 * Identifiers are positions in the server's lists, which only ever grow.
 */
module NeonProvisioning {
  import opened Basics

  datatype Config = Config(projectName: string, databaseName: string, roleName: string, branchName: string)

  datatype Database = Database(name: string, owner: string)
  datatype Branch = Branch(name: string, isDefault: bool, roles: seq<string>, databases: seq<Database>)
  datatype Project = Project(name: string, branches: seq<Branch>)
  datatype Uri = Uri(project: nat, branch: nat)

  /** Everything remote.  `firstBranchName` is the server's own choice for a new project's branch. */
  datatype World = World(projects: seq<Project>, secret: Option<Uri>, firstBranchName: string)

  /** The position of the first entry of a name. */
  function FindName(names: seq<string>, name: string): (r: Option<nat>)
    ensures r.Some? ==> r.value < |names| && names[r.value] == name
    ensures r.Some? ==> forall i :: 0 <= i < r.value ==> names[i] != name
    ensures r.None? ==> forall i :: 0 <= i < |names| ==> names[i] != name
  {
    if names == [] then None
    else if names[0] == name then Some(0)
    else
      match FindName(names[1..], name)
      case None => assert forall i :: 1 <= i < |names| ==> names[i] == names[1..][i - 1]; None
      case Some(i) => assert forall j :: 1 <= j < i + 1 ==> names[j] == names[1..][j - 1]; Some(i + 1)
  }

  function ProjectNames(projects: seq<Project>): (names: seq<string>)
    ensures |names| == |projects|
    ensures forall i {:trigger projects[i]} :: 0 <= i < |projects| ==> names[i] == projects[i].name
  {
    seq(|projects|, i requires 0 <= i < |projects| => projects[i].name)
  }

  function BranchNames(branches: seq<Branch>): (names: seq<string>)
    ensures |names| == |branches|
    ensures forall i {:trigger branches[i]} :: 0 <= i < |branches| ==> names[i] == branches[i].name
  {
    seq(|branches|, i requires 0 <= i < |branches| => branches[i].name)
  }

  /** Branch `d` is the first one marked default or, when none is, the first one. */
  predicate IsDefaultIn(branches: seq<Branch>, d: nat) {
    && d < |branches|
    && (branches[d].isDefault || d == 0)
    && (forall i :: 0 <= i < |branches| && branches[i].isDefault ==> branches[d].isDefault && d <= i)
  }

  function DefaultBranch(branches: seq<Branch>): (i: nat)
    requires branches != []
    ensures IsDefaultIn(branches, i)
  {
    FirstDefault(branches, 0)
  }

  function FirstDefault(branches: seq<Branch>, from: nat): (i: nat)
    requires branches != [] && from <= |branches|
    requires forall j :: 0 <= j < from ==> !branches[j].isDefault
    ensures IsDefaultIn(branches, i)
    decreases |branches| - from
  {
    if from == |branches| then 0 else if branches[from].isDefault then from else FirstDefault(branches, from + 1)
  }

  predicate HasDatabase(b: Branch, name: string) {
    exists i :: 0 <= i < |b.databases| && b.databases[i].name == name
  }

  // ----- What the remote side does when asked to write

  function WithNewProject(w: World, cfg: Config): World {
    w.(projects := w.projects + [Project(cfg.projectName,
      [Branch(w.firstBranchName, true, [cfg.roleName], [Database(cfg.databaseName, cfg.roleName)])])])
  }

  function WithBranches(w: World, p: nat, branches: seq<Branch>): World
    requires p < |w.projects|
  {
    w.(projects := w.projects[p := w.projects[p].(branches := branches)])
  }

  /** A new branch starts as a copy of its parent. */
  function WithNewBranch(w: World, p: nat, parent: nat, name: string): World
    requires p < |w.projects| && parent < |w.projects[p].branches|
  {
    var branches := w.projects[p].branches;
    WithBranches(w, p, branches + [branches[parent].(name := name, isDefault := false)])
  }

  function WithBranch(w: World, p: nat, b: nat, branch: Branch): World
    requires p < |w.projects| && b < |w.projects[p].branches|
  {
    WithBranches(w, p, w.projects[p].branches[b := branch])
  }

  function WithNewRole(w: World, p: nat, b: nat, role: string): World
    requires p < |w.projects| && b < |w.projects[p].branches|
  {
    var branch := w.projects[p].branches[b];
    WithBranch(w, p, b, branch.(roles := branch.roles + [role]))
  }

  /** The server refuses a database whose owner does not exist. */
  function WithNewDatabase(w: World, p: nat, b: nat, name: string, owner: string): Option<World>
    requires p < |w.projects| && b < |w.projects[p].branches|
  {
    var branch := w.projects[p].branches[b];
    if owner !in branch.roles then None
    else Some(WithBranch(w, p, b, branch.(databases := branch.databases + [Database(name, owner)])))
  }

  // ----- A run, one call at a time

  datatype Pc =
    | CheckSecret
    | ListProjects
    | CreateProject
    | ListBranches(p: nat)
    | LookForBranch(p: nat, default: nat)
    | CreateBranch(p: nat, default: nat)
    | ListRoles(p: nat, b: nat)
    | CreateRole(p: nat, b: nat)
    | ListDatabases(p: nat, b: nat)
    | CreateDatabase(p: nat, b: nat)
    | FetchUri(p: nat, b: nat)
    | FetchPublicKey(uri: Uri)
    | PutSecret(uri: Uri)
    | ReadBackSecret(uri: Uri)
    | Finished(created: bool)
    | Failed

  predicate Stopped(pc: Pc) { pc.Finished? || pc.Failed? }

  /** A position makes sense when the things it names exist. */
  predicate Exists(w: World, pc: Pc) {
    match pc
    case ListBranches(p) => p < |w.projects|
    case LookForBranch(p, d) => p < |w.projects| && d < |w.projects[p].branches|
    case CreateBranch(p, d) => p < |w.projects| && d < |w.projects[p].branches|
    case ListRoles(p, b) => p < |w.projects| && b < |w.projects[p].branches|
    case CreateRole(p, b) => p < |w.projects| && b < |w.projects[p].branches|
    case ListDatabases(p, b) => p < |w.projects| && b < |w.projects[p].branches|
    case CreateDatabase(p, b) => p < |w.projects| && b < |w.projects[p].branches|
    case FetchUri(p, b) => p < |w.projects| && b < |w.projects[p].branches|
    case _ => true
  }

  function Step(cfg: Config, w: World, pc: Pc): (r: (World, Pc))
    requires Exists(w, pc)
    ensures Exists(r.0, r.1)
  {
    match pc
    case CheckSecret => (w, if w.secret.Some? then Finished(false) else ListProjects)
    case ListProjects =>
      (match FindName(ProjectNames(w.projects), cfg.projectName)
       case Some(p) => (w, ListBranches(p))
       case None => (w, CreateProject))
    case CreateProject => (WithNewProject(w, cfg), ListBranches(|w.projects|))
    case ListBranches(p) =>
      if w.projects[p].branches == [] then (w, Failed)
      else
        var d := DefaultBranch(w.projects[p].branches);
        (w, if cfg.branchName != "" then LookForBranch(p, d) else ListRoles(p, d))
    case LookForBranch(p, d) =>
      (match FindName(BranchNames(w.projects[p].branches), cfg.branchName)
       case Some(b) => (w, ListRoles(p, b))
       case None => (w, CreateBranch(p, d)))
    case CreateBranch(p, d) =>
      (WithNewBranch(w, p, d, cfg.branchName), ListRoles(p, |w.projects[p].branches|))
    case ListRoles(p, b) =>
      (w, if cfg.roleName in w.projects[p].branches[b].roles then ListDatabases(p, b) else CreateRole(p, b))
    case CreateRole(p, b) => (WithNewRole(w, p, b, cfg.roleName), ListDatabases(p, b))
    case ListDatabases(p, b) =>
      (w, if HasDatabase(w.projects[p].branches[b], cfg.databaseName) then FetchUri(p, b) else CreateDatabase(p, b))
    case CreateDatabase(p, b) =>
      (match WithNewDatabase(w, p, b, cfg.databaseName, cfg.roleName)
       case Some(next) => (next, FetchUri(p, b))
       case None => (w, Failed))
    case FetchUri(p, b) => (w, FetchPublicKey(Uri(p, b)))
    case FetchPublicKey(uri) => (w, PutSecret(uri))
    case PutSecret(uri) => (w.(secret := Some(uri)), ReadBackSecret(uri))
    case ReadBackSecret(uri) => (w, if w.secret.Some? then Finished(true) else Failed)
    case Finished(_) => (w, pc)
    case Failed => (w, pc)
  }

  /** The run after `calls` more calls. */
  function Exec(cfg: Config, w: World, pc: Pc, calls: nat): (World, Pc)
    requires Exists(w, pc)
    decreases calls
  {
    if calls == 0 || Stopped(pc) then (w, pc)
    else
      var (next, pc') := Step(cfg, w, pc);
      Exec(cfg, next, pc', calls - 1)
  }

  datatype Result = Done(created: bool) | Threw

  function ResultOf(pc: Pc): Result { if pc.Finished? then Done(pc.created) else Threw }

  class Cloud {
    var world: World
    /** How many more calls will get through before one is lost. */
    var budget: nat

    constructor (world: World, budget: nat)
      ensures this.world == world && this.budget == budget
    {
      this.world, this.budget := world, budget;
    }

    method Call() returns (ok: bool)
      modifies this`budget
      ensures ok == (old(budget) > 0)
      ensures budget == if ok then old(budget) - 1 else 0
    {
      ok := budget > 0;
      if ok {
        budget := budget - 1;
      }
    }

    method EnsureBranch(cfg: Config, p: nat, defaultBranchId: nat, ghost goal: (World, Pc))
      returns (branch: Option<nat>)
      requires cfg.branchName != "" && Exists(world, LookForBranch(p, defaultBranchId))
      requires Exec(cfg, world, LookForBranch(p, defaultBranchId), budget) == goal
      modifies this
      ensures branch.Some? ==>
        Exists(world, ListRoles(p, branch.value)) && Exec(cfg, world, ListRoles(p, branch.value), budget) == goal
      ensures branch.None? ==> goal.0 == world && !Stopped(goal.1)
    {
      var ok := Call();
      if !ok {
        return None;
      }
      var found := FindName(BranchNames(world.projects[p].branches), cfg.branchName);
      if found.Some? {
        return found;
      }
      assert Exec(cfg, world, CreateBranch(p, defaultBranchId), budget) == goal;
      ok := Call();
      if !ok {
        return None;
      }
      var b := |world.projects[p].branches|;
      world := WithNewBranch(world, p, defaultBranchId, cfg.branchName);
      return Some(b);
    }

    method EnsureRole(cfg: Config, p: nat, b: nat, ghost goal: (World, Pc)) returns (ok: bool)
      requires Exists(world, ListRoles(p, b)) && Exec(cfg, world, ListRoles(p, b), budget) == goal
      modifies this
      ensures ok ==> Exists(world, ListDatabases(p, b)) && Exec(cfg, world, ListDatabases(p, b), budget) == goal
      ensures !ok ==> goal.0 == world && !Stopped(goal.1)
    {
      ok := Call();
      if !ok || cfg.roleName in world.projects[p].branches[b].roles {
        return;
      }
      assert Exec(cfg, world, CreateRole(p, b), budget) == goal;
      ok := Call();
      if ok {
        world := WithNewRole(world, p, b, cfg.roleName);
      }
    }

    method EnsureDatabase(cfg: Config, p: nat, b: nat, ghost goal: (World, Pc)) returns (ok: bool)
      requires Exists(world, ListDatabases(p, b)) && Exec(cfg, world, ListDatabases(p, b), budget) == goal
      modifies this
      ensures ok ==> Exists(world, FetchUri(p, b)) && Exec(cfg, world, FetchUri(p, b), budget) == goal
      ensures !ok ==> goal.0 == world && !goal.1.Finished?
    {
      ok := Call();
      if !ok || HasDatabase(world.projects[p].branches[b], cfg.databaseName) {
        return;
      }
      assert Exec(cfg, world, CreateDatabase(p, b), budget) == goal;
      ok := Call();
      if ok {
        var created := WithNewDatabase(world, p, b, cfg.databaseName, cfg.roleName);
        if created.None? {
          assert Exec(cfg, world, Failed, budget) == goal;
          return false;
        }
        world := created.value;
      }
    }

    method SetAndVerifySecret(cfg: Config, uri: Uri, ghost goal: (World, Pc)) returns (ok: bool)
      requires Exec(cfg, world, FetchPublicKey(uri), budget) == goal
      modifies this
      ensures goal.0 == world && (if ok then goal.1 == Finished(true) else !goal.1.Finished?)
    {
      ok := Call();
      if !ok {
        return;
      }
      assert Exec(cfg, world, PutSecret(uri), budget) == goal;
      ok := Call();
      if !ok {
        return;
      }
      world := world.(secret := Some(uri));
      assert Exec(cfg, world, ReadBackSecret(uri), budget) == goal;
      ok := Call();
      assert ok ==> Exec(cfg, world, Finished(true), budget) == goal;
    }

    method EnsureProject(cfg: Config, ghost goal: (World, Pc)) returns (project: Option<nat>)
      requires Exec(cfg, world, ListProjects, budget) == goal
      modifies this
      ensures project.Some? ==>
        Exists(world, ListBranches(project.value)) && Exec(cfg, world, ListBranches(project.value), budget) == goal
      ensures project.None? ==> goal.0 == world && !goal.1.Finished?
    {
      var ok := Call();
      if !ok {
        return None;
      }
      project := FindName(ProjectNames(world.projects), cfg.projectName);
      if project.None? {
        assert Exec(cfg, world, CreateProject, budget) == goal;
        ok := Call();
        if ok {
          project := Some(|world.projects|);
          world := WithNewProject(world, cfg);
        }
      }
    }

    method EnsureTargetBranch(cfg: Config, p: nat, ghost goal: (World, Pc)) returns (branch: Option<nat>)
      requires Exists(world, ListBranches(p)) && Exec(cfg, world, ListBranches(p), budget) == goal
      modifies this
      ensures branch.Some? ==>
        Exists(world, ListRoles(p, branch.value)) && Exec(cfg, world, ListRoles(p, branch.value), budget) == goal
      ensures branch.None? ==> goal.0 == world && !goal.1.Finished?
    {
      var ok := Call();
      if !ok {
        return None;
      }
      if world.projects[p].branches == [] {
        assert Exec(cfg, world, Failed, budget) == goal;
        return None;
      }
      var defaultBranchId := DefaultBranch(world.projects[p].branches);
      if cfg.branchName == "" {
        return Some(defaultBranchId);
      }
      branch := EnsureBranch(cfg, p, defaultBranchId, goal);
    }

    /** The whole run, cut off when the budget is spent: exactly the calls that `Exec` describes. */
    method EnsureNeonDatabase(cfg: Config) returns (r: Result)
      modifies this
      ensures var (w, pc) := Exec(cfg, old(world), CheckSecret, old(budget)); world == w && r == ResultOf(pc)
    {
      ghost var goal := Exec(cfg, world, CheckSecret, budget);
      var ok := Call();
      if !ok {
        return Threw;
      }
      if world.secret.Some? {
        assert Exec(cfg, world, Finished(false), budget) == goal;
        return Done(false);
      }
      var project := EnsureProject(cfg, goal);
      if project.None? {
        return Threw;
      }
      var branch := EnsureTargetBranch(cfg, project.value, goal);
      if branch.None? {
        return Threw;
      }
      ok := EnsureRole(cfg, project.value, branch.value, goal);
      if !ok {
        return Threw;
      }
      ok := EnsureDatabase(cfg, project.value, branch.value, goal);
      if !ok {
        return Threw;
      }
      ok := Call();
      if !ok {
        return Threw;
      }
      ok := SetAndVerifySecret(cfg, Uri(project.value, branch.value), goal);
      return if ok then Done(true) else Threw;
    }
  }

  // ----- What runs keep

  /** Everything the run looks for exists at most once. */
  ghost predicate AtMostOneProject(w: World, cfg: Config) {
    forall i, j :: 0 <= i < j < |w.projects| ==>
      !(w.projects[i].name == cfg.projectName && w.projects[j].name == cfg.projectName)
  }

  ghost predicate TidyBranch(b: Branch, cfg: Config) {
    && (forall i, j :: 0 <= i < j < |b.roles| ==> !(b.roles[i] == cfg.roleName && b.roles[j] == cfg.roleName))
    && (forall i, j :: 0 <= i < j < |b.databases| ==>
          !(b.databases[i].name == cfg.databaseName && b.databases[j].name == cfg.databaseName))
  }

  ghost predicate TidyBranches(branches: seq<Branch>, cfg: Config) {
    && branches != []
    && (forall i :: 0 <= i < |branches| ==> TidyBranch(branches[i], cfg))
    && (cfg.branchName != "" ==>
          forall i, j :: 0 <= i < j < |branches| ==>
            !(branches[i].name == cfg.branchName && branches[j].name == cfg.branchName))
  }

  /** Branch `b` is the one the configuration means: the named one or, without a name, the default. */
  predicate IsMeant(branches: seq<Branch>, cfg: Config, b: nat) {
    b < |branches| && if cfg.branchName != "" then branches[b].name == cfg.branchName else IsDefaultIn(branches, b)
  }

  /** Branch `b` of project `p` is the one the configuration means. */
  predicate IsTarget(w: World, cfg: Config, p: nat, b: nat) {
    p < |w.projects| && w.projects[p].name == cfg.projectName && IsMeant(w.projects[p].branches, cfg, b)
  }

  predicate HasRole(w: World, cfg: Config, p: nat, b: nat) {
    IsTarget(w, cfg, p, b) && cfg.roleName in w.projects[p].branches[b].roles
  }

  predicate IsReady(w: World, cfg: Config, p: nat, b: nat) {
    HasRole(w, cfg, p, b) && HasDatabase(w.projects[p].branches[b], cfg.databaseName)
  }

  ghost predicate Tidy(w: World, cfg: Config) {
    && AtMostOneProject(w, cfg)
    && (forall i :: 0 <= i < |w.projects| && w.projects[i].name == cfg.projectName ==>
          TidyBranches(w.projects[i].branches, cfg))
    && (w.secret.Some? ==> IsReady(w, cfg, w.secret.value.project, w.secret.value.branch))
  }

  /** What a run knows at each position. */
  ghost predicate Knows(w: World, cfg: Config, pc: Pc) {
    && Exists(w, pc)
    && match pc
       case CheckSecret => true
       case ListProjects => true
       case CreateProject => forall i :: 0 <= i < |w.projects| ==> w.projects[i].name != cfg.projectName
       case ListBranches(p) => w.projects[p].name == cfg.projectName
       case LookForBranch(p, d) =>
         cfg.branchName != "" && w.projects[p].name == cfg.projectName && IsDefaultIn(w.projects[p].branches, d)
       case CreateBranch(p, d) =>
         cfg.branchName != "" && w.projects[p].name == cfg.projectName && IsDefaultIn(w.projects[p].branches, d)
         && forall i :: 0 <= i < |w.projects[p].branches| ==> w.projects[p].branches[i].name != cfg.branchName
       case ListRoles(p, b) => IsTarget(w, cfg, p, b)
       case CreateRole(p, b) => IsTarget(w, cfg, p, b) && cfg.roleName !in w.projects[p].branches[b].roles
       case ListDatabases(p, b) => HasRole(w, cfg, p, b)
       case CreateDatabase(p, b) => HasRole(w, cfg, p, b) && !HasDatabase(w.projects[p].branches[b], cfg.databaseName)
       case FetchUri(p, b) => IsReady(w, cfg, p, b)
       case FetchPublicKey(uri) => IsReady(w, cfg, uri.project, uri.branch)
       case PutSecret(uri) => IsReady(w, cfg, uri.project, uri.branch)
       case ReadBackSecret(uri) => w.secret == Some(uri)
       case Finished(_) => w.secret.Some?
       case Failed => false
  }

  /** Nothing a run does not own changes, and nothing that was there goes away. */
  ghost predicate Grows(w: World, next: World, cfg: Config) {
    && |w.projects| <= |next.projects|
    && forall i :: 0 <= i < |w.projects| ==>
         if w.projects[i].name == cfg.projectName then ProjectGrows(w.projects[i], next.projects[i])
         else w.projects[i] == next.projects[i]
  }

  ghost predicate ProjectGrows(p: Project, q: Project) {
    && p.name == q.name && |p.branches| <= |q.branches|
    && forall b :: 0 <= b < |p.branches| ==> BranchGrows(p.branches[b], q.branches[b])
  }

  ghost predicate BranchGrows(a: Branch, b: Branch) {
    a.name == b.name && a.isDefault == b.isDefault && a.roles <= b.roles && a.databases <= b.databases
  }

  /** A branch that gains a role or a database keeps being the one it was. */
  lemma UpdatedBranch(w: World, cfg: Config, p: nat, b: nat, branch: Branch)
    requires Tidy(w, cfg) && IsTarget(w, cfg, p, b)
    requires BranchGrows(w.projects[p].branches[b], branch) && TidyBranch(branch, cfg)
    ensures var next := WithBranch(w, p, b, branch);
      Tidy(next, cfg) && IsTarget(next, cfg, p, b) && Grows(w, next, cfg) && next.projects[p].branches[b] == branch
  {
    var next := WithBranch(w, p, b, branch);
    if w.secret.Some? {
      ReadySurvives(w, cfg, p, b, branch);
    }
  }

  lemma ReadySurvives(w: World, cfg: Config, p: nat, b: nat, branch: Branch)
    requires IsTarget(w, cfg, p, b) && BranchGrows(w.projects[p].branches[b], branch)
    requires AtMostOneProject(w, cfg) && w.secret.Some?
    requires IsReady(w, cfg, w.secret.value.project, w.secret.value.branch)
    ensures IsReady(WithBranch(w, p, b, branch), cfg, w.secret.value.project, w.secret.value.branch)
  {
    var next := WithBranch(w, p, b, branch);
    var (q, c) := (w.secret.value.project, w.secret.value.branch);
    assert q == p;
    var was, grown := w.projects[p].branches[c], next.projects[p].branches[c];
    assert BranchGrows(was, grown);
    var i :| 0 <= i < |was.databases| && was.databases[i].name == cfg.databaseName;
    assert grown.databases[i] == was.databases[i];
  }

  lemma NewRoleStep(cfg: Config, w: World, p: nat, b: nat)
    requires Tidy(w, cfg) && Knows(w, cfg, CreateRole(p, b))
    ensures var next := WithNewRole(w, p, b, cfg.roleName);
      Tidy(next, cfg) && Knows(next, cfg, ListDatabases(p, b)) && Grows(w, next, cfg)
  {
    var branch := w.projects[p].branches[b];
    var gained := branch.(roles := branch.roles + [cfg.roleName]);
    assert TidyBranch(branch, cfg) && TidyBranch(gained, cfg);
    UpdatedBranch(w, cfg, p, b, gained);
    assert gained.roles[|branch.roles|] == cfg.roleName;
  }

  lemma NewDatabaseStep(cfg: Config, w: World, p: nat, b: nat)
    requires Tidy(w, cfg) && Knows(w, cfg, CreateDatabase(p, b))
    ensures var next := WithNewDatabase(w, p, b, cfg.databaseName, cfg.roleName);
      next.Some? && Tidy(next.value, cfg) && Knows(next.value, cfg, FetchUri(p, b)) && Grows(w, next.value, cfg)
  {
    var branch := w.projects[p].branches[b];
    var gained := branch.(databases := branch.databases + [Database(cfg.databaseName, cfg.roleName)]);
    assert TidyBranch(branch, cfg) && TidyBranch(gained, cfg);
    UpdatedBranch(w, cfg, p, b, gained);
    assert gained.databases[|branch.databases|].name == cfg.databaseName;
  }

  lemma NewBranchStep(cfg: Config, w: World, p: nat, d: nat)
    requires Tidy(w, cfg) && Knows(w, cfg, CreateBranch(p, d))
    ensures var next := WithNewBranch(w, p, d, cfg.branchName);
      Tidy(next, cfg) && Knows(next, cfg, ListRoles(p, |w.projects[p].branches|)) && Grows(w, next, cfg)
  {
    var branches := w.projects[p].branches;
    var next := WithNewBranch(w, p, d, cfg.branchName);
    assert TidyBranch(branches[d], cfg) && TidyBranch(next.projects[p].branches[|branches|], cfg);
    assert TidyBranches(next.projects[p].branches, cfg);
  }

  lemma NewProjectStep(cfg: Config, w: World)
    requires Tidy(w, cfg) && Knows(w, cfg, CreateProject)
    ensures var next := WithNewProject(w, cfg);
      Tidy(next, cfg) && Knows(next, cfg, ListBranches(|w.projects|)) && Grows(w, next, cfg)
  {
    var next := WithNewProject(w, cfg);
    assert TidyBranches(next.projects[|w.projects|].branches, cfg);
  }

  predicate Writes(pc: Pc) {
    pc.CreateProject? || pc.CreateBranch? || pc.CreateRole? || pc.CreateDatabase? || pc.PutSecret?
  }

  /** A call that only asks changes nothing and learns what is so. */
  lemma AskingStep(cfg: Config, w: World, pc: Pc)
    requires Tidy(w, cfg) && Knows(w, cfg, pc) && !Writes(pc)
    ensures Step(cfg, w, pc).0 == w && Knows(w, cfg, Step(cfg, w, pc).1)
  {
    if pc.ListBranches? {
      assert TidyBranches(w.projects[pc.p].branches, cfg);
    }
  }

  lemma SecretStep(cfg: Config, w: World, uri: Uri)
    requires Tidy(w, cfg) && Knows(w, cfg, PutSecret(uri))
    ensures var next := w.(secret := Some(uri));
      Tidy(next, cfg) && Knows(next, cfg, ReadBackSecret(uri)) && Grows(w, next, cfg)
  {
  }

  lemma GrowsFromItself(w: World, cfg: Config)
    ensures Grows(w, w, cfg)
  {
  }

  lemma WritingStep(cfg: Config, w: World, pc: Pc)
    requires Tidy(w, cfg) && Knows(w, cfg, pc) && Writes(pc)
    ensures var (next, pc') := Step(cfg, w, pc); Tidy(next, cfg) && Knows(next, cfg, pc') && Grows(w, next, cfg)
  {
    match pc
    case CreateProject => NewProjectStep(cfg, w);
    case CreateBranch(p, d) => NewBranchStep(cfg, w, p, d);
    case CreateRole(p, b) => NewRoleStep(cfg, w, p, b);
    case CreateDatabase(p, b) => NewDatabaseStep(cfg, w, p, b);
    case PutSecret(uri) => SecretStep(cfg, w, uri);
  }

  /** Every call keeps the remote state tidy and the run's knowledge true, and none is ever refused:
      in particular a database is only asked for when its owner exists. */
  lemma StepKeeps(cfg: Config, w: World, pc: Pc)
    requires Tidy(w, cfg) && Knows(w, cfg, pc)
    ensures var (next, pc') := Step(cfg, w, pc); Tidy(next, cfg) && Knows(next, cfg, pc') && Grows(w, next, cfg)
  {
    if Writes(pc) {
      WritingStep(cfg, w, pc);
    } else {
      AskingStep(cfg, w, pc);
      GrowsFromItself(w, cfg);
    }
  }

  lemma GrowsTransitively(a: World, b: World, c: World, cfg: Config)
    requires Grows(a, b, cfg) && Grows(b, c, cfg)
    ensures Grows(a, c, cfg)
  {
    forall i | 0 <= i < |a.projects| && a.projects[i].name == cfg.projectName
      ensures ProjectGrows(a.projects[i], c.projects[i])
    {
      var p, q, r := a.projects[i], b.projects[i], c.projects[i];
      assert ProjectGrows(p, q) && ProjectGrows(q, r);
      forall k | 0 <= k < |p.branches|
        ensures BranchGrows(p.branches[k], r.branches[k])
      {
        assert BranchGrows(p.branches[k], q.branches[k]) && BranchGrows(q.branches[k], r.branches[k]);
      }
    }
  }

  lemma {:induction false} ExecKeeps(cfg: Config, w: World, pc: Pc, calls: nat)
    requires Tidy(w, cfg) && Knows(w, cfg, pc)
    ensures var (next, pc') := Exec(cfg, w, pc, calls); Tidy(next, cfg) && Knows(next, cfg, pc') && Grows(w, next, cfg)
    decreases calls
  {
    if calls > 0 && !Stopped(pc) {
      var (next, pc') := Step(cfg, w, pc);
      StepKeeps(cfg, w, pc);
      ExecKeeps(cfg, next, pc', calls - 1);
      GrowsTransitively(w, next, Exec(cfg, next, pc', calls - 1).0, cfg);
    }
  }

  // ----- What runs add

  /** `b` is `a`, with the configured role, and the database owned by it, if it lacked them. */
  predicate BranchGains(a: Branch, b: Branch, cfg: Config) {
    && b.name == a.name && b.isDefault == a.isDefault
    && (b.roles == a.roles || (cfg.roleName !in a.roles && b.roles == a.roles + [cfg.roleName]))
    && (b.databases == a.databases
        || (!HasDatabase(a, cfg.databaseName)
            && b.databases == a.databases + [Database(cfg.databaseName, cfg.roleName)]))
  }

  function CopyOf(b: Branch, cfg: Config): Branch { b.(name := cfg.branchName, isDefault := false) }

  /** `b` is a copy of the default branch of `p` under the configured name, and what it gained since. */
  predicate IsCopyOfDefault(p: seq<Branch>, b: Branch, cfg: Config) {
    exists d | 0 <= d < |p| :: IsDefaultIn(p, d) && BranchGains(CopyOf(p[d], cfg), b, cfg)
  }

  /** `q` is `p` but for what the branch meant has gained, and for that branch itself if it was missing. */
  ghost predicate BranchesGain(p: seq<Branch>, q: seq<Branch>, cfg: Config) {
    && |p| <= |q| <= |p| + 1
    && (forall b :: 0 <= b < |p| ==> if IsMeant(p, cfg, b) then BranchGains(p[b], q[b], cfg) else q[b] == p[b])
    && (|q| > |p| ==>
          cfg.branchName != "" && IsCopyOfDefault(p, q[|p|], cfg)
          && forall b :: 0 <= b < |p| ==> p[b].name != cfg.branchName)
  }

  function FirstBranches(w: World, cfg: Config): seq<Branch> {
    [Branch(w.firstBranchName, true, [cfg.roleName], [Database(cfg.databaseName, cfg.roleName)])]
  }

  /** `next` is `w` but for what the project of the configured name has gained, and for that project if
      it was missing. */
  ghost predicate Gains(w: World, next: World, cfg: Config) {
    && next.firstBranchName == w.firstBranchName
    && |w.projects| <= |next.projects| <= |w.projects| + 1
    && (forall i :: 0 <= i < |w.projects| ==>
          if w.projects[i].name == cfg.projectName
          then next.projects[i].name == cfg.projectName
            && BranchesGain(w.projects[i].branches, next.projects[i].branches, cfg)
          else next.projects[i] == w.projects[i])
    && (|next.projects| > |w.projects| ==>
          next.projects[|w.projects|].name == cfg.projectName
          && BranchesGain(FirstBranches(w, cfg), next.projects[|w.projects|].branches, cfg)
          && forall i :: 0 <= i < |w.projects| ==> w.projects[i].name != cfg.projectName)
  }

  lemma UpdatedBranchGains(w: World, cfg: Config, p: nat, b: nat, branch: Branch)
    requires IsTarget(w, cfg, p, b) && BranchGains(w.projects[p].branches[b], branch, cfg)
    ensures Gains(w, WithBranch(w, p, b, branch), cfg)
  {
  }

  lemma NewBranchGains(w: World, cfg: Config, p: nat, d: nat)
    requires Knows(w, cfg, CreateBranch(p, d))
    ensures Gains(w, WithNewBranch(w, p, d, cfg.branchName), cfg)
  {
    var branches := w.projects[p].branches;
    assert BranchGains(CopyOf(branches[d], cfg), CopyOf(branches[d], cfg), cfg);
    assert IsCopyOfDefault(branches, CopyOf(branches[d], cfg), cfg);
  }

  /** A call adds nothing but what the configuration names, and only where it is missing. */
  lemma StepGains(cfg: Config, w: World, pc: Pc)
    requires Knows(w, cfg, pc)
    ensures Gains(w, Step(cfg, w, pc).0, cfg)
  {
    match pc
    case CreateBranch(p, d) => NewBranchGains(w, cfg, p, d);
    case CreateRole(p, b) =>
      var branch := w.projects[p].branches[b];
      UpdatedBranchGains(w, cfg, p, b, branch.(roles := branch.roles + [cfg.roleName]));
    case CreateDatabase(p, b) =>
      var branch := w.projects[p].branches[b];
      UpdatedBranchGains(w, cfg, p, b,
        branch.(databases := branch.databases + [Database(cfg.databaseName, cfg.roleName)]));
    case _ =>
  }

  lemma BranchGainsTransitively(a: Branch, b: Branch, c: Branch, cfg: Config)
    requires BranchGains(a, b, cfg) && BranchGains(b, c, cfg)
    ensures BranchGains(a, c, cfg)
  {
    if b.roles != a.roles {
      assert b.roles[|a.roles|] == cfg.roleName;
    }
    if b.databases != a.databases {
      assert b.databases[|a.databases|].name == cfg.databaseName;
    }
  }

  /** Gaining changes neither which branch is the default nor which one is meant. */
  lemma SameBranchIsMeant(p: seq<Branch>, q: seq<Branch>, cfg: Config, b: nat)
    requires BranchesGain(p, q, cfg) && b < |p|
    ensures IsDefaultIn(p, b) <==> IsDefaultIn(q, b)
    ensures IsMeant(p, cfg, b) <==> IsMeant(q, cfg, b)
  {
    assert forall i :: 0 <= i < |p| ==> q[i].isDefault == p[i].isDefault && q[i].name == p[i].name;
    if |q| > |p| {
      assert !q[|p|].isDefault;
    }
  }

  lemma BranchesGainTransitively(p: seq<Branch>, q: seq<Branch>, r: seq<Branch>, cfg: Config)
    requires BranchesGain(p, q, cfg) && BranchesGain(q, r, cfg)
    ensures BranchesGain(p, r, cfg)
  {
    forall b | 0 <= b < |p|
      ensures if IsMeant(p, cfg, b) then BranchGains(p[b], r[b], cfg) else r[b] == p[b]
    {
      SameBranchIsMeant(p, q, cfg, b);
      if IsMeant(p, cfg, b) {
        BranchGainsTransitively(p[b], q[b], r[b], cfg);
      }
    }
    if |q| > |p| {
      CopyKeepsGaining(p, q, r, cfg);
    } else if |r| > |q| {
      assert q == p;
    }
  }

  lemma CopyKeepsGaining(p: seq<Branch>, q: seq<Branch>, r: seq<Branch>, cfg: Config)
    requires BranchesGain(p, q, cfg) && BranchesGain(q, r, cfg) && |q| > |p|
    ensures |r| == |q| && IsCopyOfDefault(p, r[|p|], cfg)
  {
    assert q[|p|].name == cfg.branchName;
    var d :| 0 <= d < |p| && IsDefaultIn(p, d) && BranchGains(CopyOf(p[d], cfg), q[|p|], cfg);
    BranchGainsTransitively(CopyOf(p[d], cfg), q[|p|], r[|p|], cfg);
  }

  lemma GainsTransitively(a: World, b: World, c: World, cfg: Config)
    requires Gains(a, b, cfg) && Gains(b, c, cfg)
    ensures Gains(a, c, cfg)
  {
    forall i | 0 <= i < |a.projects| && a.projects[i].name == cfg.projectName
      ensures BranchesGain(a.projects[i].branches, c.projects[i].branches, cfg)
    {
      BranchesGainTransitively(a.projects[i].branches, b.projects[i].branches, c.projects[i].branches, cfg);
    }
    if |b.projects| > |a.projects| {
      var n := |a.projects|;
      BranchesGainTransitively(FirstBranches(a, cfg), b.projects[n].branches, c.projects[n].branches, cfg);
    }
  }

  lemma {:induction false} ExecGains(cfg: Config, w: World, pc: Pc, calls: nat)
    requires Tidy(w, cfg) && Knows(w, cfg, pc)
    ensures Gains(w, Exec(cfg, w, pc, calls).0, cfg)
    decreases calls
  {
    if calls > 0 && !Stopped(pc) {
      var (next, pc') := Step(cfg, w, pc);
      StepKeeps(cfg, w, pc);
      StepGains(cfg, w, pc);
      ExecGains(cfg, next, pc', calls - 1);
      GainsTransitively(w, next, Exec(cfg, next, pc', calls - 1).0, cfg);
    }
  }

  /** How many calls a run can still make. */
  function Remaining(pc: Pc): nat {
    match pc
    case CheckSecret => 14
    case ListProjects => 13
    case CreateProject => 12
    case ListBranches(_) => 11
    case LookForBranch(_, _) => 10
    case CreateBranch(_, _) => 9
    case ListRoles(_, _) => 8
    case CreateRole(_, _) => 7
    case ListDatabases(_, _) => 6
    case CreateDatabase(_, _) => 5
    case FetchUri(_, _) => 4
    case FetchPublicKey(_) => 3
    case PutSecret(_) => 2
    case ReadBackSecret(_) => 1
    case Finished(_) => 0
    case Failed => 0
  }

  lemma {:induction false} EnoughCallsStop(cfg: Config, w: World, pc: Pc, calls: nat)
    requires Exists(w, pc) && calls >= Remaining(pc)
    ensures Stopped(Exec(cfg, w, pc, calls).1)
    decreases calls
  {
    if calls > 0 && !Stopped(pc) {
      var (next, pc') := Step(cfg, w, pc);
      EnoughCallsStop(cfg, next, pc', calls - 1);
    }
  }

  // ----- Any number of interrupted runs

  /** The remote state after runs cut off after so many calls each. */
  function AfterRuns(cfg: Config, w: World, budgets: seq<nat>): World {
    if budgets == [] then w
    else Exec(cfg, AfterRuns(cfg, w, budgets[..|budgets| - 1]), CheckSecret, budgets[|budgets| - 1]).0
  }

  /** One project of the name, one target branch in it, one role, one database, and the secret naming them. */
  ghost predicate Converged(w: World, cfg: Config) {
    && w.secret.Some?
    && var (p, b) := (w.secret.value.project, w.secret.value.branch);
       IsReady(w, cfg, p, b)
       && (forall q :: 0 <= q < |w.projects| && w.projects[q].name == cfg.projectName ==> q == p)
       && (forall c :: 0 <= c < |w.projects[p].branches| && IsTarget(w, cfg, p, c) ==> c == b)
       && TidyBranch(w.projects[p].branches[b], cfg)
  }

  lemma TidyWithSecretIsConverged(w: World, cfg: Config)
    requires Tidy(w, cfg) && w.secret.Some?
    ensures Converged(w, cfg)
  {
    var (p, b) := (w.secret.value.project, w.secret.value.branch);
    assert TidyBranches(w.projects[p].branches, cfg);
  }

  lemma {:induction false} InterruptedRunsKeep(cfg: Config, w: World, budgets: seq<nat>)
    requires Tidy(w, cfg)
    ensures Tidy(AfterRuns(cfg, w, budgets), cfg) && Grows(w, AfterRuns(cfg, w, budgets), cfg)
  {
    if budgets != [] {
      var n := |budgets| - 1;
      var before := AfterRuns(cfg, w, budgets[..n]);
      InterruptedRunsKeep(cfg, w, budgets[..n]);
      ExecKeeps(cfg, before, CheckSecret, budgets[n]);
      GrowsTransitively(w, before, AfterRuns(cfg, w, budgets), cfg);
    }
  }

  lemma {:induction false} InterruptedRunsGain(cfg: Config, w: World, budgets: seq<nat>)
    requires Tidy(w, cfg)
    ensures Gains(w, AfterRuns(cfg, w, budgets), cfg)
  {
    if budgets != [] {
      var n := |budgets| - 1;
      var before := AfterRuns(cfg, w, budgets[..n]);
      InterruptedRunsKeep(cfg, w, budgets[..n]);
      InterruptedRunsGain(cfg, w, budgets[..n]);
      ExecGains(cfg, before, CheckSecret, budgets[n]);
      GainsTransitively(w, before, AfterRuns(cfg, w, budgets), cfg);
    }
  }

  lemma {:induction false} CreatesUnlessSecretIsThere(cfg: Config, w: World, pc: Pc, calls: nat)
    requires Exists(w, pc) && !pc.CheckSecret? && pc != Finished(false)
    ensures Exec(cfg, w, pc, calls).1 != Finished(false)
    decreases calls
  {
    if calls > 0 && !Stopped(pc) {
      var (next, pc') := Step(cfg, w, pc);
      CreatesUnlessSecretIsThere(cfg, next, pc', calls - 1);
    }
  }

  /** From any tidy remote state, however many runs were cut off and wherever, one run that gets its
      fourteen calls through ends well: everything exists exactly once, whatever was there before, in
      this project or another, is still there, and nothing was added but what was missing.  It reports
      a secret created exactly if there was none when it began. */
  lemma RunsConverge(cfg: Config, w: World, budgets: seq<nat>, calls: nat)
    requires Tidy(w, cfg) && calls >= 14
    ensures var (end, pc) := Exec(cfg, AfterRuns(cfg, w, budgets), CheckSecret, calls);
      pc.Finished? && Converged(end, cfg) && Grows(w, end, cfg)
    ensures var middle := AfterRuns(cfg, w, budgets);
      var (end, pc) := Exec(cfg, middle, CheckSecret, calls);
      Gains(w, end, cfg) && ResultOf(pc) == Done(middle.secret.None?)
  {
    var middle := AfterRuns(cfg, w, budgets);
    var (end, pc) := Exec(cfg, middle, CheckSecret, calls);
    InterruptedRunsKeep(cfg, w, budgets);
    ExecKeeps(cfg, middle, CheckSecret, calls);
    EnoughCallsStop(cfg, middle, CheckSecret, calls);
    TidyWithSecretIsConverged(end, cfg);
    GrowsTransitively(w, middle, end, cfg);
    InterruptedRunsGain(cfg, w, budgets);
    ExecGains(cfg, middle, CheckSecret, calls);
    GainsTransitively(w, middle, end, cfg);
    SaysWhetherItCreated(cfg, middle, calls);
  }

  lemma SaysWhetherItCreated(cfg: Config, w: World, calls: nat)
    requires calls >= 14 && Exec(cfg, w, CheckSecret, calls).1.Finished?
    ensures Exec(cfg, w, CheckSecret, calls).1 == Finished(true) <==> w.secret.None?
  {
    if w.secret.None? {
      CreatesUnlessSecretIsThere(cfg, w, ListProjects, calls - 1);
    } else {
      assert Exec(cfg, w, CheckSecret, calls) == Exec(cfg, w, Finished(false), calls - 1);
    }
  }

  /** Without a branch name, the stored connection is that of the first branch marked default, or of the
      first branch if none is. */
  lemma SecretNamesDefaultBranch(cfg: Config, w: World, budgets: seq<nat>, calls: nat)
    requires Tidy(w, cfg) && calls >= 14 && cfg.branchName == ""
    ensures var end := Exec(cfg, AfterRuns(cfg, w, budgets), CheckSecret, calls).0;
      end.secret.Some? && end.secret.value.project < |end.projects|
      && var (branches, b) := (end.projects[end.secret.value.project].branches, end.secret.value.branch);
         b < |branches|
         && (if exists i :: 0 <= i < |branches| && branches[i].isDefault
             then branches[b].isDefault && forall i :: 0 <= i < b ==> !branches[i].isDefault
             else b == 0)
  {
    RunsConverge(cfg, w, budgets, calls);
  }

  /** Where a named branch is missing, runs add it as a copy of the default branch, with its roles and
      databases, store its connection, and leave every other branch alone. */
  lemma MissingBranchIsCopied(cfg: Config, w: World, budgets: seq<nat>, calls: nat, p: nat, d: nat)
    requires Tidy(w, cfg) && calls >= 14 && w.secret.None? && cfg.branchName != ""
    requires p < |w.projects| && w.projects[p].name == cfg.projectName && IsDefaultIn(w.projects[p].branches, d)
    requires forall b :: 0 <= b < |w.projects[p].branches| ==> w.projects[p].branches[b].name != cfg.branchName
    ensures var end := Exec(cfg, AfterRuns(cfg, w, budgets), CheckSecret, calls).0;
      var branches := w.projects[p].branches;
      |end.projects| == |w.projects| && |end.projects[p].branches| == |branches| + 1
      && end.secret == Some(Uri(p, |branches|)) && end.projects[p].branches[..|branches|] == branches
      && var (source, copy) := (branches[d], end.projects[p].branches[|branches|]);
         copy.name == cfg.branchName && !copy.isDefault
         && source.roles <= copy.roles <= source.roles + [cfg.roleName] && cfg.roleName in copy.roles
         && source.databases <= copy.databases <= source.databases + [Database(cfg.databaseName, cfg.roleName)]
         && HasDatabase(copy, cfg.databaseName)
  {
    RunsConverge(cfg, w, budgets, calls);
  }

  /** Once the secret is there, no run writes anything. */
  lemma {:induction false} LaterRunsWriteNothing(cfg: Config, w: World, budgets: seq<nat>)
    requires w.secret.Some?
    ensures AfterRuns(cfg, w, budgets) == w
  {
    if budgets != [] {
      var n := |budgets| - 1;
      LaterRunsWriteNothing(cfg, w, budgets[..n]);
      if budgets[n] > 0 {
        assert Exec(cfg, w, Finished(false), budgets[n] - 1) == (w, Finished(false));
      }
    }
  }

  lemma ReachesTarget(cfg: Config, w: World, p: nat, b: nat, calls: nat) returns (left: nat)
    requires Tidy(w, cfg) && w.secret.None? && IsTarget(w, cfg, p, b) && calls >= 14
    ensures left >= 8 && Exec(cfg, w, CheckSecret, calls) == Exec(cfg, w, ListRoles(p, b), left)
  {
    assert TidyBranches(w.projects[p].branches, cfg);
    assert Exec(cfg, w, CheckSecret, calls) == Exec(cfg, w, ListProjects, calls - 1);
    assert FindName(ProjectNames(w.projects), cfg.projectName) == Some(p);
    assert Exec(cfg, w, ListProjects, calls - 1) == Exec(cfg, w, ListBranches(p), calls - 2);
    left := calls - 3;
    if cfg.branchName != "" {
      var d := DefaultBranch(w.projects[p].branches);
      assert Exec(cfg, w, ListBranches(p), calls - 2) == Exec(cfg, w, LookForBranch(p, d), calls - 3);
      assert FindName(BranchNames(w.projects[p].branches), cfg.branchName) == Some(b);
      left := calls - 4;
    }
  }

  lemma ReadyTargetOnlyGetsItsSecret(cfg: Config, w: World, p: nat, b: nat, calls: nat)
    requires IsReady(w, cfg, p, b) && calls >= 8
    ensures Exec(cfg, w, ListRoles(p, b), calls) == (w.(secret := Some(Uri(p, b))), Finished(true))
  {
    var uri := Uri(p, b);
    var next := w.(secret := Some(uri));
    assert Exec(cfg, w, ListRoles(p, b), calls) == Exec(cfg, w, ListDatabases(p, b), calls - 1);
    assert Exec(cfg, w, ListDatabases(p, b), calls - 1) == Exec(cfg, w, FetchUri(p, b), calls - 2);
    assert Exec(cfg, w, FetchUri(p, b), calls - 2) == Exec(cfg, w, FetchPublicKey(uri), calls - 3);
    assert Exec(cfg, w, FetchPublicKey(uri), calls - 3) == Exec(cfg, w, PutSecret(uri), calls - 4);
    assert Exec(cfg, w, PutSecret(uri), calls - 4) == Exec(cfg, next, ReadBackSecret(uri), calls - 5);
    assert Exec(cfg, next, ReadBackSecret(uri), calls - 5) == Exec(cfg, next, Finished(true), calls - 6);
  }

  /** Losing only the secret costs only the secret: the next complete run creates nothing else. */
  lemma LostSecretIsRestored(cfg: Config, w: World, calls: nat)
    requires Tidy(w, cfg) && w.secret.Some? && calls >= 14
    ensures Exec(cfg, w.(secret := None), CheckSecret, calls).0 == w
  {
    var bare := w.(secret := None);
    var (p, b) := (w.secret.value.project, w.secret.value.branch);
    var left := ReachesTarget(cfg, bare, p, b, calls);
    ReadyTargetOnlyGetsItsSecret(cfg, bare, p, b, left);
  }
}
