/** The two caches between a user and its permissions, and the cached menu tree, with every commit,
    every later cache deletion, every cache fill and every expiry as a step of its own. */
module PermissionCache {
  import opened Counting
  import opened Options
  import opened Hierarchy
  import opened Menus
  import opened MenuTree
  import opened Rbac
  import opened RbacInv

  // ----- The joins the caches stand for -----

  /** The rows with these ids, in that order. */
  function Rows(menus: Table, ids: seq<Id>): seq<Menu> {
    if ids == [] then []
    else if ids[0] in menus then [menus[ids[0]]] + Rows(menus, ids[1..])
    else Rows(menus, ids[1..])
  }

  function MenuList(db: Db, role: Id): seq<Menu> {
    Rows(db.menus, LinkedTo(db.roleMenus, role))
  }

  /** The rows of the role's menus, one per junction row and in that order. */
  ghost predicate HasRows(rows: seq<Menu>, db: Db, role: Id) {
    var ids := LinkedTo(db.roleMenus, role);
    |rows| == |ids| && forall i :: 0 <= i < |ids| ==> ids[i] in db.menus && rows[i] == db.menus[ids[i]]
  }

  lemma {:induction false} RowsAre(menus: Table, ids: seq<Id>)
    requires AllIn(ids, menus.Keys)
    ensures |Rows(menus, ids)| == |ids| && forall i :: 0 <= i < |ids| ==> Rows(menus, ids)[i] == menus[ids[i]]
  {
    if ids == [] {
    } else {
      RowsAre(menus, ids[1..]);
    }
  }

  lemma MenuListHasRows(db: Db, role: Id)
    requires Inv(db)
    ensures HasRows(MenuList(db, role), db, role)
  {
    RowsAre(db.menus, LinkedTo(db.roleMenus, role));
  }

  /** The permission marks of the buttons. */
  function BtnPerms(menus: seq<Menu>): seq<string> {
    if menus == [] then []
    else if menus[0].menuType == BTN && menus[0].perms != "" then [menus[0].perms] + BtnPerms(menus[1..])
    else BtnPerms(menus[1..])
  }

  /** `perm` is the mark of a button that one of the user's roles has: user_role, role_menu and menu
      joined. */
  ghost predicate Permitted(db: Db, user: Id, perm: string) {
    exists role, menu :: PermittedBy(db, user, role, menu, perm)
  }

  ghost predicate PermittedBy(db: Db, user: Id, role: Id, menu: Id, perm: string) {
    && role in LinkedTo(db.userRoles, user) && menu in LinkedTo(db.roleMenus, role) && menu in db.menus
    && db.menus[menu].menuType == BTN && db.menus[menu].perms == perm != ""
  }

  // ----- State -----

  type Writer = nat

  /** What a writer still has to do after its commit. `UpdateMenu` drops the tree, looks up the roles
      that have the menu, and drops their entries one by one. */
  datatype Duty =
    | DropUser(user: Id)
    | DropRole(role: Id)
    | DropTree
    | DropTreeThenLookup(menu: Id)
    | Lookup(menu: Id)
    | DropRoles(roles: set<Id>)

  /** A menu tree as cached: the rows it shows, and how they are arranged. */
  datatype Tree = Tree(menus: Table, shape: Forest)

  datatype World = World(
    db: Db,
    userCache: map<Id, seq<Id>>,
    roleCache: map<Id, seq<Menu>>,
    tree: Option<Tree>,
    duties: map<Writer, Duty>)

  function DutyOf(op: Op, id: Id): Option<Duty> {
    match op
    case OpCreateUser(_) => None
    case OpUpdateUser(_) => Some(DropUser(id))
    case OpDeleteUser(_, _) => Some(DropUser(id))
    case OpCreateRole(_, _) => None
    case OpUpdateRole(_, _) => Some(DropRole(id))
    case OpDeleteRole(_) => Some(DropRole(id))
    case OpCreateMenu(_) => Some(DropTree)
    case OpUpdateMenu(_) => Some(DropTreeThenLookup(id))
    case OpDeleteMenu(_) => Some(DropTree)
  }

  function BoundRoles(links: Links, menu: Id): set<Id> {
    set r | r in links && menu in links[r]
  }

  /** `next` picks the role whose entry `DropRoles` deletes now; `shape` is the arrangement some build made. */
  datatype Event =
    | Commit(w: Writer, op: Op)
    | Work(w: Writer, next: Id)
    | FillUser(user: Id)
    | FillRole(role: Id)
    | FillTree(shape: Forest)
    | ExpireUser(user: Id)
    | ExpireRole(role: Id)
    | ExpireTree

  /** Only ids handed out by the tables are ever looked up. */
  ghost predicate Enabled(s: World, e: Event) {
    match e
    case Commit(w, _) => w !in s.duties
    case Work(w, next) =>
      w in s.duties && (s.duties[w].DropRoles? && s.duties[w].roles != {} ==> next in s.duties[w].roles)
    case FillUser(user) => 1 <= user < s.db.nextUser
    case FillRole(role) => 1 <= role < s.db.nextRole
    case FillTree(shape) => WellBuilt(shape, s.db.menus)
    case _ => true
  }

  function CommitStep(s: World, w: Writer, op: Op): World {
    match Answer(s.db, op)
    case Err(_) => s
    case Ok(done) =>
      match DutyOf(op, done.id)
      case None => s.(db := done.db)
      case Some(duty) => s.(db := done.db, duties := s.duties[w := duty])
  }

  function WorkStep(s: World, w: Writer, next: Id): World
    requires w in s.duties
  {
    match s.duties[w]
    case DropUser(user) => s.(userCache := s.userCache - {user}, duties := s.duties - {w})
    case DropRole(role) => s.(roleCache := s.roleCache - {role}, duties := s.duties - {w})
    case DropTree => s.(tree := None, duties := s.duties - {w})
    case DropTreeThenLookup(menu) => s.(tree := None, duties := s.duties[w := Lookup(menu)])
    case Lookup(menu) => s.(duties := s.duties[w := DropRoles(BoundRoles(s.db.roleMenus, menu))])
    case DropRoles(roles) =>
      if roles == {} then s.(duties := s.duties - {w})
      else s.(roleCache := s.roleCache - {next}, duties := s.duties[w := DropRoles(roles - {next})])
  }

  function Apply(s: World, e: Event): World
    requires Enabled(s, e)
  {
    match e
    case Commit(w, op) => CommitStep(s, w, op)
    case Work(w, next) => WorkStep(s, w, next)
    case FillUser(user) => s.(userCache := s.userCache[user := LinkedTo(s.db.userRoles, user)])
    case FillRole(role) => s.(roleCache := s.roleCache[role := MenuList(s.db, role)])
    case FillTree(shape) => s.(tree := Some(Tree(s.db.menus, shape)))
    case ExpireUser(user) => s.(userCache := s.userCache - {user})
    case ExpireRole(role) => s.(roleCache := s.roleCache - {role})
    case ExpireTree => s.(tree := None)
  }

  ghost function Run(s: World, es: seq<Event>): World {
    if es == [] then s
    else
      var t := Run(s, es[..|es|-1]);
      if Enabled(t, es[|es|-1]) then Apply(t, es[|es|-1]) else t
  }

  ghost predicate ValidRun(s: World, es: seq<Event>) {
    es == [] || (ValidRun(s, es[..|es|-1]) && Enabled(Run(s, es[..|es|-1]), es[|es|-1]))
  }

  // ----- A call that nobody interrupts -----

  /** The commit, and then all the deletions it owes. */
  function Settled(s: World, op: Op): World {
    match Answer(s.db, op)
    case Err(_) => s
    case Ok(Done(db, id)) =>
      var t := s.(db := db);
      match DutyOf(op, id)
      case None => t
      case Some(DropUser(_)) => t.(userCache := t.userCache - {id})
      case Some(DropRole(_)) => t.(roleCache := t.roleCache - {id})
      case Some(DropTree) => t.(tree := None)
      case _ => t.(tree := None, roleCache := t.roleCache - BoundRoles(db.roleMenus, id))
  }

  /** What a call that commits drops from the caches, and nothing else. */
  lemma SettledDrops(s: World, op: Op)
    requires Inv(s.db) && Answer(s.db, op).Ok?
    ensures var (t, after) := (Settled(s, op), Answer(s.db, op).value.db);
            && t.db == after && t.duties == s.duties
            && t.userCache == (if op.OpUpdateUser? then s.userCache - {op.p.id}
                               else if op.OpDeleteUser? then s.userCache - {op.id} else s.userCache)
            && t.roleCache == (if op.OpUpdateRole? then s.roleCache - {op.rp.id}
                               else if op.OpDeleteRole? then s.roleCache - {op.id}
                               else if op.OpUpdateMenu? then
                                 map r | r in s.roleCache && op.m.id !in LinkedTo(after.roleMenus, r) :: s.roleCache[r]
                               else s.roleCache)
            && t.tree == (if op.OpCreateMenu? || op.OpUpdateMenu? || op.OpDeleteMenu? then None else s.tree)
  {
  }

  lemma RunNext(s: World, es: seq<Event>, e: Event)
    requires ValidRun(s, es) && Enabled(Run(s, es), e)
    ensures ValidRun(s, es + [e]) && Run(s, es + [e]) == Apply(Run(s, es), e)
  {
    assert (es + [e])[..|es|] == es;
  }

  lemma {:induction false} FinishDropping(s: World, es: seq<Event>, w: Writer, roles: set<Id>) returns (all: seq<Event>)
    requires ValidRun(s, es) && w in Run(s, es).duties && Run(s, es).duties[w] == DropRoles(roles)
    ensures var t := Run(s, es);
            ValidRun(s, all) && Run(s, all) == t.(roleCache := t.roleCache - roles, duties := t.duties - {w})
    decreases |roles|
  {
    var t := Run(s, es);
    if roles == {} {
      RunNext(s, es, Work(w, 0));
      all := es + [Work(w, 0)];
    } else {
      assert (forall r :: r !in roles) ==> roles == {};
      var r :| r in roles;
      RunNext(s, es, Work(w, r));
      all := FinishDropping(s, es + [Work(w, r)], w, roles - {r});
      assert t.roleCache - {r} - (roles - {r}) == t.roleCache - roles;
    }
  }

  /** A writer's duty done to the end. */
  function Discharged(s: World, duty: Duty): World {
    match duty
    case DropUser(user) => s.(userCache := s.userCache - {user})
    case DropRole(role) => s.(roleCache := s.roleCache - {role})
    case DropTree => s.(tree := None)
    case DropTreeThenLookup(menu) => s.(tree := None, roleCache := s.roleCache - BoundRoles(s.db.roleMenus, menu))
    case Lookup(menu) => s.(roleCache := s.roleCache - BoundRoles(s.db.roleMenus, menu))
    case DropRoles(roles) => s.(roleCache := s.roleCache - roles)
  }

  lemma {:induction false} FinishDuty(s: World, es: seq<Event>, w: Writer) returns (all: seq<Event>)
    requires ValidRun(s, es) && w in Run(s, es).duties
    ensures var t := Run(s, es);
            ValidRun(s, all) && Run(s, all) == Discharged(t, t.duties[w]).(duties := t.duties - {w})
    decreases if Run(s, es).duties[w].DropTreeThenLookup? then 2 else if Run(s, es).duties[w].Lookup? then 1 else 0
  {
    var t := Run(s, es);
    if t.duties[w].DropRoles? {
      all := FinishDropping(s, es, w, t.duties[w].roles);
    } else {
      RunNext(s, es, Work(w, 0));
      all := es + [Work(w, 0)];
      if t.duties[w].DropTreeThenLookup? || t.duties[w].Lookup? {
        var u := Run(s, all);
        all := FinishDuty(s, all, w);
        assert u.duties - {w} == t.duties - {w};
      }
    }
  }

  lemma SettledIsDischarged(s: World, op: Op, w: Writer)
    requires w !in s.duties
    ensures var t := CommitStep(s, w, op);
            Settled(s, op) == if w in t.duties then Discharged(t, t.duties[w]).(duties := t.duties - {w}) else t
  {
    var t := CommitStep(s, w, op);
    if w in t.duties {
      assert t.duties - {w} == s.duties;
    }
  }

  /** So it is one of the runs, and in the end it owes nothing. */
  lemma SettledIsARun(s: World, op: Op, w: Writer) returns (es: seq<Event>)
    requires w !in s.duties
    ensures ValidRun(s, es) && Run(s, es) == Settled(s, op)
  {
    RunNext(s, [], Commit(w, op));
    es := [] + [Commit(w, op)];
    SettledIsDischarged(s, op, w);
    if w in Run(s, es).duties {
      es := FinishDuty(s, es, w);
    }
  }

  // ----- Every entry is right, or its deletion is owed -----

  ghost predicate OwesUser(duties: map<Writer, Duty>, user: Id) {
    exists w :: w in duties && duties[w] == DropUser(user)
  }

  /** The writer will still delete the role's entry, maybe after looking up that the role has the menu. */
  ghost predicate WillDropRole(duty: Duty, links: Links, role: Id) {
    match duty
    case DropRole(r) => r == role
    case DropRoles(rs) => role in rs
    case DropTreeThenLookup(m) => m in LinkedTo(links, role)
    case Lookup(m) => m in LinkedTo(links, role)
    case _ => false
  }

  ghost predicate OwesRole(duties: map<Writer, Duty>, links: Links, role: Id) {
    exists w :: w in duties && WillDropRole(duties[w], links, role)
  }

  ghost predicate OwesTree(duties: map<Writer, Duty>) {
    exists w :: w in duties && (duties[w].DropTree? || duties[w].DropTreeThenLookup?)
  }

  ghost predicate UserEntryRight(s: World, user: Id)
    requires user in s.userCache
  {
    && 1 <= user < s.db.nextUser
    && (s.userCache[user] == LinkedTo(s.db.userRoles, user) || OwesUser(s.duties, user))
  }

  ghost predicate RoleEntryRight(s: World, role: Id)
    requires role in s.roleCache
  {
    && 1 <= role < s.db.nextRole
    && (s.roleCache[role] == MenuList(s.db, role) || OwesRole(s.duties, s.db.roleMenus, role))
  }

  ghost predicate TreeOf(tree: Tree, menus: Table) {
    tree.menus == menus && WellBuilt(tree.shape, menus)
  }

  ghost predicate TreeRight(s: World) {
    s.tree == None || TreeOf(s.tree.value, s.db.menus) || OwesTree(s.duties)
  }

  ghost predicate CacheInv(s: World) {
    && Inv(s.db)
    && (forall u :: u in s.userCache ==> UserEntryRight(s, u))
    && (forall r :: r in s.roleCache ==> RoleEntryRight(s, r))
    && TreeRight(s)
  }

  // ----- Duties come and go -----

  lemma MoreDuties(duties: map<Writer, Duty>, w: Writer, duty: Duty, links: Links, id: Id)
    requires w !in duties
    ensures OwesUser(duties, id) ==> OwesUser(duties[w := duty], id)
    ensures OwesRole(duties, links, id) ==> OwesRole(duties[w := duty], links, id)
    ensures OwesTree(duties) ==> OwesTree(duties[w := duty])
    ensures duty == DropUser(id) ==> OwesUser(duties[w := duty], id)
    ensures WillDropRole(duty, links, id) ==> OwesRole(duties[w := duty], links, id)
    ensures duty.DropTree? || duty.DropTreeThenLookup? ==> OwesTree(duties[w := duty])
  {
    var d := duties[w := duty];
    assert w in d && d[w] == duty;
    if OwesUser(duties, id) {
      var v :| v in duties && duties[v] == DropUser(id);
      assert d[v] == DropUser(id);
    }
    if OwesRole(duties, links, id) {
      var v :| v in duties && WillDropRole(duties[v], links, id);
      assert WillDropRole(d[v], links, id);
    }
    if OwesTree(duties) {
      var v :| v in duties && (duties[v].DropTree? || duties[v].DropTreeThenLookup?);
      assert v in d && d[v] == duties[v];
    }
  }

  /** What is owed depends on a role's menus only. */
  lemma SameMenusSameDebt(duties: map<Writer, Duty>, links: Links, after: Links, role: Id)
    requires LinkedTo(after, role) == LinkedTo(links, role)
    ensures OwesRole(duties, links, role) ==> OwesRole(duties, after, role)
  {
    if OwesRole(duties, links, role) {
      var w :| w in duties && WillDropRole(duties[w], links, role);
      assert WillDropRole(duties[w], after, role);
    }
  }

  // ----- Commits -----

  lemma {:induction false} RowsUnchanged(menus: Table, after: Table, id: Id, ids: seq<Id>)
    requires after - {id} == menus - {id} && id !in ids
    ensures Rows(after, ids) == Rows(menus, ids)
  {
    if ids == [] {
    } else {
      RowsUnchanged(menus, after, id, ids[1..]);
      assert ids[0] in after - {id} <==> ids[0] in menus - {id};
      assert ids[0] in menus ==> (after - {id})[ids[0]] == (menus - {id})[ids[0]];
    }
  }

  lemma UserCommitKeepsInv(s: World, w: Writer, op: Op)
    requires CacheInv(s) && w !in s.duties && (op.OpCreateUser? || op.OpUpdateUser? || op.OpDeleteUser?)
    requires Answer(s.db, op).Ok?
    ensures CacheInv(CommitStep(s, w, op))
  {
    hide Inv;
    hide Answer;
    var t := CommitStep(s, w, op);
    ApplyKeepsInv(s.db, op);
    UserWritesTouchOneUser(s.db, op);
    var id := Answer(s.db, op).value.id;
    forall u | u in t.userCache ensures UserEntryRight(t, u) {
      assert UserEntryRight(s, u);
      MoreDuties(s.duties, w, DropUser(id), s.db.roleMenus, u);
    }
    forall r | r in t.roleCache ensures RoleEntryRight(t, r) {
      assert RoleEntryRight(s, r);
      MoreDuties(s.duties, w, DropUser(id), s.db.roleMenus, r);
    }
    MoreDuties(s.duties, w, DropUser(id), s.db.roleMenus, id);
  }

  lemma RoleCommitKeepsInv(s: World, w: Writer, op: Op)
    requires CacheInv(s) && w !in s.duties && (op.OpCreateRole? || op.OpUpdateRole? || op.OpDeleteRole?)
    requires Answer(s.db, op).Ok?
    ensures CacheInv(CommitStep(s, w, op))
  {
    hide Inv;
    hide Answer;
    var t := CommitStep(s, w, op);
    ApplyKeepsInv(s.db, op);
    RoleWritesTouchOneRole(s.db, op);
    var id := Answer(s.db, op).value.id;
    forall u | u in t.userCache ensures UserEntryRight(t, u) {
      assert UserEntryRight(s, u);
      MoreDuties(s.duties, w, DropRole(id), s.db.roleMenus, u);
    }
    forall r | r in t.roleCache ensures RoleEntryRight(t, r) {
      assert RoleEntryRight(s, r);
      if r != id {
        SameMenusSameDebt(s.duties, s.db.roleMenus, t.db.roleMenus, r);
      }
      MoreDuties(s.duties, w, DropRole(id), t.db.roleMenus, r);
    }
    MoreDuties(s.duties, w, DropRole(id), s.db.roleMenus, id);
  }

  lemma MenuCommitKeepsInv(s: World, w: Writer, op: Op)
    requires CacheInv(s) && w !in s.duties && (op.OpCreateMenu? || op.OpUpdateMenu? || op.OpDeleteMenu?)
    requires Answer(s.db, op).Ok?
    ensures CacheInv(CommitStep(s, w, op))
  {
    hide Inv;
    hide Answer;
    var t := CommitStep(s, w, op);
    ApplyKeepsInv(s.db, op);
    MenuWritesTouchOneMenu(s.db, op);
    var id := Answer(s.db, op).value.id;
    var duty := DutyOf(op, id).value;
    forall u | u in t.userCache ensures UserEntryRight(t, u) {
      assert UserEntryRight(s, u);
      MoreDuties(s.duties, w, duty, s.db.roleMenus, u);
    }
    forall r | r in t.roleCache ensures RoleEntryRight(t, r) {
      assert RoleEntryRight(s, r);
      MoreDuties(s.duties, w, duty, s.db.roleMenus, r);
      if id !in LinkedTo(s.db.roleMenus, r) {
        RowsUnchanged(s.db.menus, t.db.menus, id, LinkedTo(s.db.roleMenus, r));
      }
    }
    MoreDuties(s.duties, w, duty, s.db.roleMenus, id);
  }

  // ----- Deletions, fills and expiries -----

  /** A duty done, or passed on to the next, as far as this entry is concerned. */
  lemma DutyLeaves(duties: map<Writer, Duty>, after: map<Writer, Duty>, w: Writer, links: Links, id: Id)
    requires w in duties && forall v :: v in duties && v != w ==> v in after && after[v] == duties[v]
    ensures OwesUser(duties, id) && duties[w] != DropUser(id) ==> OwesUser(after, id)
    ensures OwesRole(duties, links, id) ==> OwesRole(after, links, id) || WillDropRole(duties[w], links, id)
    ensures w in after && WillDropRole(after[w], links, id) ==> OwesRole(after, links, id)
    ensures OwesTree(duties) && !duties[w].DropTree? && !duties[w].DropTreeThenLookup? ==> OwesTree(after)
  {
    if OwesUser(duties, id) && duties[w] != DropUser(id) {
      var v :| v in duties && duties[v] == DropUser(id);
      assert after[v] == DropUser(id);
    }
    if OwesRole(duties, links, id) {
      var v :| v in duties && WillDropRole(duties[v], links, id);
      assert v != w ==> WillDropRole(after[v], links, id);
    }
    if OwesTree(duties) && !duties[w].DropTree? && !duties[w].DropTreeThenLookup? {
      var v :| v in duties && (duties[v].DropTree? || duties[v].DropTreeThenLookup?);
      assert v in after && after[v] == duties[v];
    }
  }

  /** What one deletion leaves of the role's entry: gone, or still to be deleted by this writer. */
  lemma RoleDutyPassesOn(s: World, w: Writer, next: Id, role: Id)
    requires Enabled(s, Work(w, next)) && WillDropRole(s.duties[w], s.db.roleMenus, role)
    requires role in WorkStep(s, w, next).roleCache
    ensures w in WorkStep(s, w, next).duties && WillDropRole(WorkStep(s, w, next).duties[w], s.db.roleMenus, role)
  {
  }

  lemma WorkKeepsInv(s: World, w: Writer, next: Id)
    requires CacheInv(s) && Enabled(s, Work(w, next))
    ensures CacheInv(WorkStep(s, w, next))
  {
    hide Inv;
    var t := WorkStep(s, w, next);
    forall u | u in t.userCache ensures UserEntryRight(t, u) {
      assert UserEntryRight(s, u);
      DutyLeaves(s.duties, t.duties, w, s.db.roleMenus, u);
    }
    forall r | r in t.roleCache ensures RoleEntryRight(t, r) {
      assert RoleEntryRight(s, r);
      DutyLeaves(s.duties, t.duties, w, s.db.roleMenus, r);
      if WillDropRole(s.duties[w], s.db.roleMenus, r) {
        RoleDutyPassesOn(s, w, next, r);
      }
    }
    DutyLeaves(s.duties, t.duties, w, s.db.roleMenus, 0);
  }

  lemma FillKeepsInv(s: World, e: Event)
    requires CacheInv(s) && Enabled(s, e) && !e.Commit? && !e.Work?
    ensures CacheInv(Apply(s, e))
  {
    hide Inv;
    var t := Apply(s, e);
    forall u | u in t.userCache ensures UserEntryRight(t, u) {
      assert u in s.userCache ==> UserEntryRight(s, u);
    }
    forall r | r in t.roleCache ensures RoleEntryRight(t, r) {
      assert r in s.roleCache ==> RoleEntryRight(s, r);
    }
  }

  lemma {:induction false} StepKeepsInv(s: World, e: Event)
    requires CacheInv(s) && Enabled(s, e)
    ensures CacheInv(Apply(s, e))
  {
    hide CacheInv;
    match e {
      case Commit(w, op) =>
        if Answer(s.db, op).Ok? {
          match op {
            case OpCreateUser(_) => UserCommitKeepsInv(s, w, op);
            case OpUpdateUser(_) => UserCommitKeepsInv(s, w, op);
            case OpDeleteUser(_, _) => UserCommitKeepsInv(s, w, op);
            case OpCreateRole(_, _) => RoleCommitKeepsInv(s, w, op);
            case OpUpdateRole(_, _) => RoleCommitKeepsInv(s, w, op);
            case OpDeleteRole(_) => RoleCommitKeepsInv(s, w, op);
            case _ => MenuCommitKeepsInv(s, w, op);
          }
        }
      case Work(w, next) => WorkKeepsInv(s, w, next);
      case _ => FillKeepsInv(s, e);
    }
  }

  function Start(db: Db): World {
    World(db, map[], map[], None, map[])
  }

  lemma {:induction false} RunFromKeepsInv(s: World, es: seq<Event>)
    requires CacheInv(s) && ValidRun(s, es)
    ensures CacheInv(Run(s, es))
  {
    hide CacheInv;
    if es == [] {
    } else {
      RunFromKeepsInv(s, es[..|es|-1]);
      StepKeepsInv(Run(s, es[..|es|-1]), es[|es|-1]);
    }
  }

  lemma RunKeepsInv(db: Db, es: seq<Event>)
    requires Inv(db) && ValidRun(Start(db), es)
    ensures CacheInv(Run(Start(db), es))
  {
    RunFromKeepsInv(Start(db), es);
  }

  /** So a call that nobody interrupts keeps every entry right or owed. */
  lemma SettledKeepsInv(s: World, op: Op)
    requires s.duties == map[]
    ensures CacheInv(s) ==> CacheInv(Settled(s, op))
  {
    hide CacheInv;
    hide Settled;
    if CacheInv(s) {
      var es := SettledIsARun(s, op, 0);
      RunFromKeepsInv(s, es);
    }
  }

  /** Whatever the interleaving, every cached entry equals what the tables say now, or some committed
      writer still owes its deletion. */
  lemma {:induction false} EveryEntryIsRightOrOwed(db: Db, es: seq<Event>)
    requires Inv(db) && ValidRun(Start(db), es)
    ensures var s := Run(Start(db), es);
            && (forall u :: u in s.userCache ==>
                  s.userCache[u] == LinkedTo(s.db.userRoles, u) || OwesUser(s.duties, u))
            && (forall r :: r in s.roleCache ==>
                  s.roleCache[r] == MenuList(s.db, r) || OwesRole(s.duties, s.db.roleMenus, r))
            && (s.tree.Some? ==> TreeOf(s.tree.value, s.db.menus) || OwesTree(s.duties))
  {
    RunKeepsInv(db, es);
    var s := Run(Start(db), es);
    assert forall u :: u in s.userCache ==> UserEntryRight(s, u);
    assert forall r :: r in s.roleCache ==> RoleEntryRight(s, r);
  }

  // ----- Reading -----

  function RolesSeen(s: World, user: Id): seq<Id> {
    if user in s.userCache then s.userCache[user] else LinkedTo(s.db.userRoles, user)
  }

  function MenusSeen(s: World, role: Id): seq<Menu> {
    if role in s.roleCache then s.roleCache[role] else MenuList(s.db, role)
  }

  function PermsSeen(s: World, roles: seq<Id>): set<string> {
    if roles == [] then {}
    else (set p | p in BtnPerms(MenusSeen(s, roles[0]))) + PermsSeen(s, roles[1..])
  }

  lemma {:induction false} BtnPermsOfRows(menus: Table, ids: seq<Id>, perm: string)
    ensures perm in BtnPerms(Rows(menus, ids)) <==>
              exists i :: 0 <= i < |ids| && ids[i] in menus && menus[ids[i]].menuType == BTN &&
                          menus[ids[i]].perms == perm != ""
  {
    if ids == [] {
    } else {
      BtnPermsOfRows(menus, ids[1..], perm);
      assert forall i :: 0 <= i < |ids| - 1 ==> ids[1..][i] == ids[i+1];
      assert forall i :: 0 < i < |ids| ==> ids[1..][i-1] == ids[i];
      if ids[0] in menus {
        assert Rows(menus, ids)[1..] == Rows(menus, ids[1..]);
      }
    }
  }

  lemma {:induction false} SeenFromRoles(s: World, roles: seq<Id>, perm: string)
    requires forall i :: 0 <= i < |roles| ==> MenusSeen(s, roles[i]) == MenuList(s.db, roles[i])
    ensures perm in PermsSeen(s, roles) <==>
              exists i :: 0 <= i < |roles| && perm in BtnPerms(MenuList(s.db, roles[i]))
  {
    if roles == [] {
    } else {
      SeenFromRoles(s, roles[1..], perm);
      assert forall i :: 0 <= i < |roles| - 1 ==> roles[1..][i] == roles[i+1];
      assert forall i :: 0 < i < |roles| ==> roles[1..][i-1] == roles[i];
    }
  }

  lemma ListedIsPermitted(db: Db, user: Id, perm: string)
    ensures Permitted(db, user, perm) <==>
              exists i :: 0 <= i < |LinkedTo(db.userRoles, user)| &&
                          perm in BtnPerms(MenuList(db, LinkedTo(db.userRoles, user)[i]))
  {
    var roles := LinkedTo(db.userRoles, user);
    forall i | 0 <= i < |roles| && perm in BtnPerms(MenuList(db, roles[i])) ensures Permitted(db, user, perm) {
      var ids := LinkedTo(db.roleMenus, roles[i]);
      BtnPermsOfRows(db.menus, ids, perm);
      var j :| 0 <= j < |ids| && ids[j] in db.menus && db.menus[ids[j]].menuType == BTN &&
               db.menus[ids[j]].perms == perm != "";
      assert PermittedBy(db, user, roles[i], ids[j], perm);
    }
    if Permitted(db, user, perm) {
      var role, menu :| PermittedBy(db, user, role, menu, perm);
      BtnPermsOfRows(db.menus, LinkedTo(db.roleMenus, role), perm);
      var i :| 0 <= i < |roles| && roles[i] == role;
      assert perm in BtnPerms(MenuList(db, roles[i]));
    }
  }

  /** With nothing owed for the user or for its roles, in particular with no writer in flight, the
      permissions read through both caches are exactly the joined ones. */
  lemma {:induction false} PermsAreExactWhenNothingIsOwed(db: Db, es: seq<Event>, user: Id, perm: string)
    requires Inv(db) && ValidRun(Start(db), es)
    requires var s := Run(Start(db), es);
             !OwesUser(s.duties, user) &&
             forall r :: r in LinkedTo(s.db.userRoles, user) ==> !OwesRole(s.duties, s.db.roleMenus, r)
    ensures var s := Run(Start(db), es);
            RolesSeen(s, user) == LinkedTo(s.db.userRoles, user)
            && (perm in PermsSeen(s, RolesSeen(s, user)) <==> Permitted(s.db, user, perm))
  {
    RunKeepsInv(db, es);
    PermsAreExact(Run(Start(db), es), user, perm);
  }

  lemma PermsAreExact(s: World, user: Id, perm: string)
    requires CacheInv(s) && !OwesUser(s.duties, user)
    requires forall r :: r in LinkedTo(s.db.userRoles, user) ==> !OwesRole(s.duties, s.db.roleMenus, r)
    ensures RolesSeen(s, user) == LinkedTo(s.db.userRoles, user)
    ensures perm in PermsSeen(s, RolesSeen(s, user)) <==> Permitted(s.db, user, perm)
  {
    var roles := LinkedTo(s.db.userRoles, user);
    assert user in s.userCache ==> UserEntryRight(s, user);
    forall i | 0 <= i < |roles| ensures MenusSeen(s, roles[i]) == MenuList(s.db, roles[i]) {
      assert roles[i] in roles;
      assert roles[i] in s.roleCache ==> RoleEntryRight(s, roles[i]);
    }
    SeenFromRoles(s, roles, perm);
    ListedIsPermitted(s.db, user, perm);
  }

  /** An entry that expires is gone, and no other is. */
  lemma ExpiryDropsOneEntry(s: World, id: Id)
    ensures Apply(s, ExpireUser(id)) == s.(userCache := map u | u in s.userCache && u != id :: s.userCache[u])
    ensures Apply(s, ExpireRole(id)) == s.(roleCache := map r | r in s.roleCache && r != id :: s.roleCache[r])
    ensures Apply(s, ExpireTree) == s.(tree := None)
  {
  }

  // ----- Reading while nobody owes anything -----

  lemma MenusSeenHaveRows(s: World, role: Id)
    requires CacheInv(s) && s.duties == map[]
    ensures HasRows(MenusSeen(s, role), s.db, role)
  {
    assert role in s.roleCache ==> RoleEntryRight(s, role);
    MenuListHasRows(s.db, role);
  }

  /** The roles of a user exist, so they have ids that were handed out. */
  lemma RolesExist(s: World, user: Id)
    requires CacheInv(s) && s.duties == map[]
    ensures RolesSeen(s, user) == LinkedTo(s.db.userRoles, user)
    ensures forall i :: 0 <= i < |LinkedTo(s.db.userRoles, user)| ==>
              1 <= LinkedTo(s.db.userRoles, user)[i] < s.db.nextRole
  {
    assert user in s.userCache ==> UserEntryRight(s, user);
  }

  /** Looking up a user, or a role, leaves the cache right if the id was handed out. */
  lemma UserReadKeepsInv(s: World, user: Id)
    requires CacheInv(s) && s.duties == map[] && 1 <= user < s.db.nextUser
    ensures CacheInv(s.(userCache := s.userCache[user := RolesSeen(s, user)]))
  {
    RolesExist(s, user);
    StepKeepsInv(s, FillUser(user));
  }

  lemma RoleReadKeepsInv(s: World, role: Id)
    requires CacheInv(s) && s.duties == map[] && 1 <= role < s.db.nextRole
    ensures CacheInv(s.(roleCache := s.roleCache[role := MenusSeen(s, role)]))
  {
    assert role in s.roleCache ==> RoleEntryRight(s, role);
    StepKeepsInv(s, FillRole(role));
  }

  /** A cached tree is right, and a tree built from the table may be cached. */
  lemma TreeReadKeepsInv(s: World, t: Tree)
    requires CacheInv(s) && s.duties == map[] && (s.tree == Some(t) || TreeOf(t, s.db.menus))
    ensures TreeOf(t, s.db.menus) && CacheInv(s.(tree := Some(t)))
  {
    if s.tree == Some(t) {
      assert s.(tree := Some(t)) == s;
    } else {
      StepKeepsInv(s, FillTree(t.shape));
      assert t == Tree(s.db.menus, t.shape);
    }
  }

  /** Unless a menu writer has yet to drop it, the cached tree shows the menus of the table as they
      are, each exactly once if following parent ids from it reaches 0 or an absent id, and not at all
      otherwise. */
  lemma {:induction false} TreeIsExactWhenNothingIsOwed(db: Db, es: seq<Event>, x: Id)
    requires Inv(db) && ValidRun(Start(db), es) && !OwesTree(Run(Start(db), es).duties)
    ensures var s := Run(Start(db), es);
            s.tree.Some? ==>
              var Tree(menus, shape) := s.tree.value;
              menus == s.db.menus
              && Times(Preorder(shape, shape.roots, |menus|), x) == if Rooted(ParentsOf(menus), x) then 1 else 0
  {
    var s := Run(Start(db), es);
    EveryEntryIsRightOrOwed(db, es);
    if s.tree.Some? {
      ForestShowsExactlyTheRooted(s.tree.value.shape, s.db.menus, |s.db.menus|, x);
    }
  }

  /** Why only ids handed out may be looked up: creating a user deletes no entry, so an empty one
      filled for its id beforehand would be wrong with nothing owed. */
  lemma FillingBeforeCreationGoesStale(db: Db, w: Writer, p: UserParam)
    requires Inv(db) && Rbac.CreateUser(db, p).Ok? && p.roleIds != []
    ensures var s := Start(db).(userCache := map[db.nextUser := LinkedTo(db.userRoles, db.nextUser)]);
            var t := CommitStep(s, w, OpCreateUser(p));
            t.duties == map[] && t.userCache[db.nextUser] != LinkedTo(t.db.userRoles, db.nextUser)
  {
    UserWritesTouchOneUser(db, OpCreateUser(p));
  }
}
