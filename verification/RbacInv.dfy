/** What every run of user, role and menu operations keeps. */
module RbacInv {
  import opened Options
  import opened Hierarchy
  import opened Menus
  import opened Rbac

  // ----- The count check -----

  lemma CountStep(rows: set<Id>, ids: seq<Id>, id: Id)
    ensures CountByIds(rows, ids + [id]) == CountByIds(rows, ids) + (if id in rows && id !in ids then 1 else 0)
  {
    var found := set i | i in ids && i in rows;
    assert (set i | i in ids + [id] && i in rows) == found + (if id in rows then {id} else {});
  }

  lemma NoDupStep(ids: seq<Id>, id: Id)
    ensures NoDup(ids + [id]) <==> NoDup(ids) && id !in ids
  {
    var all := ids + [id];
    assert all[|ids|] == id && forall i :: 0 <= i < |ids| ==> all[i] == ids[i];
    if NoDup(all) {
      forall i, j | 0 <= i < j < |ids| ensures ids[i] != ids[j] {
        assert all[i] != all[j];
      }
      forall i | 0 <= i < |ids| ensures ids[i] != id {
        assert all[i] != all[|ids|];
      }
    }
  }

  /** The row count equals the length of the id list exactly when the ids are all different and all
      exist. */
  lemma {:induction false} CountIffDistinctAndPresent(rows: set<Id>, ids: seq<Id>)
    ensures CountByIds(rows, ids) <= |ids|
    ensures CountByIds(rows, ids) == |ids| <==> NoDup(ids) && forall i :: 0 <= i < |ids| ==> ids[i] in rows
  {
    if ids != [] {
      var (init, last) := (ids[..|ids|-1], ids[|ids|-1]);
      assert ids == init + [last];
      CountIffDistinctAndPresent(rows, init);
      CountStep(rows, init, last);
      NoDupStep(init, last);
    } else {
      assert (set id | id in ids && id in rows) == {};
    }
  }

  // ----- The invariant -----

  ghost predicate UsersInv(users: map<Id, User>, next: Id) {
    && 1 <= next
    && (forall u :: u in users ==> 1 <= u < next)
    && (forall u, v :: u in users && v in users && u != v ==>
          users[u].username != users[v].username && users[u].tel != users[v].tel)
  }

  ghost predicate RolesInv(roles: map<Id, Role>, next: Id) {
    && 1 <= next
    && (forall r :: r in roles ==> 1 <= r < next)
    && (forall r, s :: r in roles && s in roles && r != s ==> roles[r].code != roles[s].code)
  }

  /** Every parent id is at most 0 or names another row; permission marks and paths that are not
      empty are unique. */
  ghost predicate MenusInv(menus: Table, next: Id) {
    && 1 <= next
    && (forall m :: m in menus ==> 1 <= m < next && menus[m].id == m)
    && (forall m :: m in menus ==> menus[m].parentId <= 0 || (menus[m].parentId in menus && menus[m].parentId != m))
    && (forall m, n :: m in menus && n in menus && m != n ==>
          && (menus[m].perms == "" || menus[m].perms != menus[n].perms)
          && (menus[m].path == "" || menus[m].path != menus[n].path))
  }

  /** A junction table names only existing rows on both sides, and no pair twice. */
  ghost predicate LinksInv(links: Links, owners: set<Id>, targets: set<Id>) {
    forall o :: o in links ==> o in owners && NoDup(links[o]) && AllIn(links[o], targets)
  }

  predicate AllIn(ids: seq<Id>, targets: set<Id>) {
    forall i :: 0 <= i < |ids| ==> ids[i] in targets
  }

  ghost predicate Inv(db: Db) {
    && UsersInv(db.users, db.nextUser)
    && RolesInv(db.roles, db.nextRole)
    && MenusInv(db.menus, db.nextMenu)
    && LinksInv(db.userRoles, db.users.Keys, db.roles.Keys)
    && LinksInv(db.roleMenus, db.roles.Keys, db.menus.Keys)
  }

  // ----- Junction rows -----

  lemma InsertKeepsLinks(links: Links, owners: set<Id>, targets: set<Id>, owner: Id, ids: seq<Id>)
    requires LinksInv(links, owners, targets) && owner !in links
    requires ids != [] ==> CountByIds(targets, ids) == |ids|
    ensures InsertLinks(links, owner, ids).Some?
    ensures LinksInv(InsertLinks(links, owner, ids).value, owners + {owner}, targets)
    ensures LinkedTo(InsertLinks(links, owner, ids).value, owner) == ids
    ensures forall o :: o != owner ==> LinkedTo(InsertLinks(links, owner, ids).value, o) == LinkedTo(links, o)
  {
    CountIffDistinctAndPresent(targets, ids);
    assert LinkedTo(links, owner) + ids == ids;
  }

  lemma WithoutKeepsLinks(links: Links, owners: set<Id>, targets: set<Id>, owner: Id)
    requires LinksInv(links, owners, targets)
    ensures LinksInv(links - {owner}, owners - {owner}, targets) && LinksInv(links - {owner}, owners, targets)
  {
  }

  lemma WiderKeepsLinks(links: Links, owners: set<Id>, targets: set<Id>, moreOwners: set<Id>, moreTargets: set<Id>)
    requires LinksInv(links, owners, targets) && owners <= moreOwners && targets <= moreTargets
    ensures LinksInv(links, moreOwners, moreTargets)
  {
  }

  /** Removing a target that no row names. */
  lemma UnusedKeepsLinks(links: Links, owners: set<Id>, targets: set<Id>, target: Id)
    requires LinksInv(links, owners, targets) && !IsUsed(links, target)
    ensures LinksInv(links, owners, targets - {target})
  {
    forall o | o in links ensures AllIn(links[o], targets - {target}) {
      forall i | 0 <= i < |links[o]| ensures links[o][i] != target {
        assert links[o][i] in links[o];
      }
    }
  }

  // ----- Every operation keeps the invariant -----

  lemma CreateUserKeepsInv(db: Db, p: UserParam)
    requires Inv(db)
    ensures CreateUser(db, p) != Err(LinkInsertFailed)
    ensures CreateUser(db, p).Ok? ==> Inv(CreateUser(db, p).value.db)
  {
    if !NameTelTaken(db.users, p.username, p.tel, 0) && !RolesMissing(db, p.roleIds) {
      assert forall u :: u in db.users ==> u != db.nextUser;
      InsertKeepsLinks(db.userRoles, db.users.Keys, db.roles.Keys, db.nextUser, p.roleIds);
      assert db.users[db.nextUser := User(p.username, p.tel)].Keys == db.users.Keys + {db.nextUser};
    }
  }

  lemma UpdateUserKeepsInv(db: Db, p: UserParam)
    requires Inv(db)
    ensures UpdateUser(db, p) != Err(LinkInsertFailed)
    ensures UpdateUser(db, p).Ok? ==> Inv(UpdateUser(db, p).value.db)
  {
    if p.id in db.users && !NameTelTaken(db.users, p.username, p.tel, p.id) && !RolesMissing(db, p.roleIds) {
      WithoutKeepsLinks(db.userRoles, db.users.Keys, db.roles.Keys, p.id);
      InsertKeepsLinks(db.userRoles - {p.id}, db.users.Keys, db.roles.Keys, p.id, p.roleIds);
      assert db.users[p.id := User(p.username, p.tel)].Keys == db.users.Keys == db.users.Keys + {p.id};
    }
  }

  lemma DeleteUserKeepsInv(db: Db, operator: Id, id: Id)
    requires Inv(db)
    ensures DeleteUser(db, operator, id).Ok? ==> Inv(DeleteUser(db, operator, id).value.db)
  {
    WithoutKeepsLinks(db.userRoles, db.users.Keys, db.roles.Keys, id);
    assert (db.users - {id}).Keys == db.users.Keys - {id};
  }

  lemma CreateRoleKeepsInv(db: Db, operator: Id, p: RoleParam)
    requires Inv(db)
    ensures CreateRole(db, operator, p) != Err(LinkInsertFailed)
    ensures CreateRole(db, operator, p).Ok? ==> Inv(CreateRole(db, operator, p).value.db)
  {
    if !CodeTaken(db.roles, p.code, 0) && !MenusMissing(db, p.menuIds) {
      assert forall r :: r in db.roles ==> r != db.nextRole;
      InsertKeepsLinks(db.roleMenus, db.roles.Keys, db.menus.Keys, db.nextRole, p.menuIds);
      assert db.roles[db.nextRole := Role(p.code, p.name)].Keys == db.roles.Keys + {db.nextRole};
      WiderKeepsLinks(db.userRoles, db.users.Keys, db.roles.Keys, db.users.Keys, db.roles.Keys + {db.nextRole});
    }
  }

  lemma UpdateRoleKeepsInv(db: Db, operator: Id, p: RoleParam)
    requires Inv(db)
    ensures UpdateRole(db, operator, p) != Err(LinkInsertFailed)
    ensures UpdateRole(db, operator, p).Ok? ==> Inv(UpdateRole(db, operator, p).value.db)
  {
    if p.id in db.roles && !CodeTaken(db.roles, p.code, p.id) && !MenusMissing(db, p.menuIds) {
      WithoutKeepsLinks(db.roleMenus, db.roles.Keys, db.menus.Keys, p.id);
      InsertKeepsLinks(db.roleMenus - {p.id}, db.roles.Keys, db.menus.Keys, p.id, p.menuIds);
      assert db.roles[p.id := Role(p.code, p.name)].Keys == db.roles.Keys == db.roles.Keys + {p.id};
    }
  }

  lemma DeleteRoleKeepsInv(db: Db, id: Id)
    requires Inv(db)
    ensures DeleteRole(db, id).Ok? ==> Inv(DeleteRole(db, id).value.db)
  {
    if !IsUsed(db.userRoles, id) {
      WithoutKeepsLinks(db.roleMenus, db.roles.Keys, db.menus.Keys, id);
      UnusedKeepsLinks(db.userRoles, db.users.Keys, db.roles.Keys, id);
      assert (db.roles - {id}).Keys == db.roles.Keys - {id};
    }
  }

  /** No other row has this permission mark or path. */
  ghost predicate Fits(menus: Table, p: Menu, id: Id) {
    forall m :: m in menus && m != id ==>
      (p.perms == "" || menus[m].perms != p.perms) && (p.path == "" || menus[m].path != p.path)
  }

  lemma AcceptedFits(db: Db, p: Menu, except: Id, id: Id)
    requires MenuRefused(db, p, except).None? && (except == id || except == 0)
    ensures Fits(db.menus, p, id) && (p.parentId <= 0 || p.parentId in db.menus)
  {
    forall m | m in db.menus && m != id
      ensures (p.perms == "" || db.menus[m].perms != p.perms) && (p.path == "" || db.menus[m].path != p.path)
    {
      assert !PermsTaken(db.menus, p.perms, except) && !PathTaken(db.menus, p.path, except);
    }
  }

  lemma WriteKeepsMenus(menus: Table, next: Id, p: Menu, last: Id)
    requires MenusInv(menus, next) && Fits(menus, p, p.id) && next <= last && 1 <= p.id < last
    requires p.parentId <= 0 || (p.parentId in menus && p.parentId != p.id)
    ensures MenusInv(menus[p.id := p], last)
  {
  }

  lemma CreateMenuKeepsInv(db: Db, p: Menu)
    requires Inv(db)
    ensures CreateMenu(db, p).Ok? ==> Inv(CreateMenu(db, p).value.db)
  {
    if CreateMenu(db, p).Ok? {
      var row := p.(id := db.nextMenu);
      assert row.id !in db.menus;
      AcceptedFits(db, p, 0, row.id);
      WriteKeepsMenus(db.menus, db.nextMenu, row, db.nextMenu + 1);
      assert db.menus[row.id := row].Keys == db.menus.Keys + {row.id};
      WiderKeepsLinks(db.roleMenus, db.roles.Keys, db.menus.Keys, db.roles.Keys, db.menus.Keys + {row.id});
    }
  }

  lemma UpdateMenuKeepsInv(db: Db, p: Menu)
    requires Inv(db)
    ensures UpdateMenu(db, p).Ok? ==> Inv(UpdateMenu(db, p).value.db)
  {
    if UpdateMenu(db, p).Ok? {
      AcceptedFits(db, p, p.id, p.id);
      WriteKeepsMenus(db.menus, db.nextMenu, p, db.nextMenu);
      assert db.menus[p.id := p].Keys == db.menus.Keys;
    }
  }

  lemma DeleteMenuKeepsInv(db: Db, id: Id)
    requires Inv(db)
    ensures DeleteMenu(db, id).Ok? ==> Inv(DeleteMenu(db, id).value.db)
  {
    if !IsUsed(db.roleMenus, id) {
      UnusedKeepsLinks(db.roleMenus, db.roles.Keys, db.menus.Keys, id);
      assert (db.menus - {id}).Keys == db.menus.Keys - {id};
    }
  }

  lemma ApplyKeepsInv(db: Db, op: Op)
    requires Inv(db)
    ensures Inv(Apply(db, op)) && Answer(db, op) != Err(LinkInsertFailed)
  {
    hide Inv;
    match op {
      case OpCreateUser(p) => CreateUserKeepsInv(db, p);
      case OpUpdateUser(p) => UpdateUserKeepsInv(db, p);
      case OpDeleteUser(operator, id) => DeleteUserKeepsInv(db, operator, id);
      case OpCreateRole(operator, p) => CreateRoleKeepsInv(db, operator, p);
      case OpUpdateRole(operator, p) => UpdateRoleKeepsInv(db, operator, p);
      case OpDeleteRole(id) => DeleteRoleKeepsInv(db, id);
      case OpCreateMenu(m) => CreateMenuKeepsInv(db, m);
      case OpUpdateMenu(m) => UpdateMenuKeepsInv(db, m);
      case OpDeleteMenu(id) => DeleteMenuKeepsInv(db, id);
    }
  }

  /** Referential integrity over every run; and the count check makes sure that no insertion into a
      junction table is ever refused by its unique key. */
  lemma {:induction false} RunKeepsInv(db: Db, ops: seq<Op>)
    requires Inv(db)
    ensures Inv(Run(db, ops))
    ensures forall i :: 0 <= i < |ops| ==> Answer(Run(db, ops[..i]), ops[i]) != Err(LinkInsertFailed)
  {
    if ops == [] {
    } else {
      var init := ops[..|ops|-1];
      RunKeepsInv(db, init);
      ApplyKeepsInv(Run(db, init), ops[|ops|-1]);
      forall i | 0 <= i < |ops| ensures Answer(Run(db, ops[..i]), ops[i]) != Err(LinkInsertFailed) {
        assert i < |init| ==> init[..i] == ops[..i] && init[i] == ops[i];
      }
    }
  }

  // ----- What each write touches -----

  /** Creating, updating or deleting a user writes that user's row and role rows, and nothing else. */
  lemma UserWritesTouchOneUser(db: Db, op: Op)
    requires Inv(db) && (op.OpCreateUser? || op.OpUpdateUser? || op.OpDeleteUser?) && Answer(db, op).Ok?
    ensures var (after, id) := (Answer(db, op).value.db, Answer(db, op).value.id);
            && after == db.(users := after.users, userRoles := after.userRoles, nextUser := after.nextUser)
            && (forall u :: u != id ==> LinkedTo(after.userRoles, u) == LinkedTo(db.userRoles, u))
            && after.users - {id} == db.users - {id}
            && (if op.OpDeleteUser? then id == op.id && id !in after.users && LinkedTo(after.userRoles, id) == []
                else id in after.users && after.users[id] == User(op.p.username, op.p.tel)
                     && LinkedTo(after.userRoles, id) == op.p.roleIds)
            && (if op.OpCreateUser? then id == db.nextUser < after.nextUser
                else after.nextUser == db.nextUser && id in db.users)
            && (op.OpUpdateUser? ==> id == op.p.id)
  {
    hide NameTelTaken;
    hide CountByIds;
    hide RolesInv;
    hide MenusInv;
    if op.OpCreateUser? {
      assert db.nextUser !in db.users && db.nextUser !in db.userRoles;
      InsertKeepsLinks(db.userRoles, db.users.Keys, db.roles.Keys, db.nextUser, op.p.roleIds);
    } else if op.OpUpdateUser? {
      WithoutKeepsLinks(db.userRoles, db.users.Keys, db.roles.Keys, op.p.id);
      InsertKeepsLinks(db.userRoles - {op.p.id}, db.users.Keys, db.roles.Keys, op.p.id, op.p.roleIds);
    }
  }

  /** The same for roles. */
  lemma RoleWritesTouchOneRole(db: Db, op: Op)
    requires Inv(db) && (op.OpCreateRole? || op.OpUpdateRole? || op.OpDeleteRole?) && Answer(db, op).Ok?
    ensures var (after, id) := (Answer(db, op).value.db, Answer(db, op).value.id);
            && after == db.(roles := after.roles, roleMenus := after.roleMenus, nextRole := after.nextRole)
            && (forall r :: r != id ==> LinkedTo(after.roleMenus, r) == LinkedTo(db.roleMenus, r))
            && after.roles - {id} == db.roles - {id}
            && (if op.OpDeleteRole? then id == op.id && id !in after.roles && LinkedTo(after.roleMenus, id) == []
                else id in after.roles && after.roles[id] == Role(op.rp.code, op.rp.name)
                     && LinkedTo(after.roleMenus, id) == op.rp.menuIds)
            && (if op.OpCreateRole? then id == db.nextRole < after.nextRole
                else after.nextRole == db.nextRole && id in db.roles)
            && (op.OpUpdateRole? ==> id == op.rp.id)
  {
    hide NotAuthorized;
    hide IsSuperAdmin;
    hide CodeTaken;
    hide IsUsed;
    hide UsersInv;
    hide MenusInv;
    if op.OpCreateRole? {
      assert db.nextRole !in db.roles && db.nextRole !in db.roleMenus;
      InsertKeepsLinks(db.roleMenus, db.roles.Keys, db.menus.Keys, db.nextRole, op.rp.menuIds);
    } else if op.OpUpdateRole? {
      WithoutKeepsLinks(db.roleMenus, db.roles.Keys, db.menus.Keys, op.rp.id);
      InsertKeepsLinks(db.roleMenus - {op.rp.id}, db.roles.Keys, db.menus.Keys, op.rp.id, op.rp.menuIds);
    }
  }

  /** Menu writes change one menu row: a new one, one no role has when it is deleted. */
  lemma MenuWritesTouchOneMenu(db: Db, op: Op)
    requires Inv(db) && (op.OpCreateMenu? || op.OpUpdateMenu? || op.OpDeleteMenu?) && Answer(db, op).Ok?
    ensures var (after, id) := (Answer(db, op).value.db, Answer(db, op).value.id);
            && after == db.(menus := after.menus, nextMenu := after.nextMenu)
            && after.menus - {id} == db.menus - {id}
            && (if op.OpDeleteMenu? then id == op.id && id !in after.menus
                else id in after.menus && after.menus[id] == op.m.(id := id))
            && (if op.OpCreateMenu? then id == db.nextMenu < after.nextMenu
                else after.nextMenu == db.nextMenu && id in db.menus)
            && (op.OpUpdateMenu? ==> id == op.m.id)
            && (!op.OpUpdateMenu? ==> forall r :: id !in LinkedTo(db.roleMenus, r))
  {
    var id := Answer(db, op).value.id;
    forall r ensures !op.OpUpdateMenu? ==> id !in LinkedTo(db.roleMenus, r) {
      if r in db.roleMenus && op.OpDeleteMenu? {
        assert !IsUsed(db.roleMenus, id);
      }
    }
  }

  // ----- What is accepted -----

  lemma AllPresentIff(rows: set<Id>, ids: seq<Id>)
    ensures ids != [] && CountByIds(rows, ids) != |ids| <==> !(NoDup(ids) && AllIn(ids, rows))
  {
    CountIffDistinctAndPresent(rows, ids);
  }

  /** A user is written exactly when no other user has its name or number, and its roles exist and are
      listed once each; deleted exactly when it exists and is not the operator. */
  lemma UserAcceptedIff(db: Db, op: Op)
    requires Inv(db)
    ensures op.OpCreateUser? ==>
              (Answer(db, op).Ok? <==>
                 && (forall u :: u in db.users ==> db.users[u].username != op.p.username && db.users[u].tel != op.p.tel)
                 && NoDup(op.p.roleIds) && AllIn(op.p.roleIds, db.roles.Keys))
    ensures op.OpUpdateUser? ==>
              (Answer(db, op).Ok? <==>
                 && op.p.id in db.users
                 && (forall u :: u in db.users && u != op.p.id ==>
                       db.users[u].username != op.p.username && db.users[u].tel != op.p.tel)
                 && NoDup(op.p.roleIds) && AllIn(op.p.roleIds, db.roles.Keys))
    ensures op.OpDeleteUser? ==> (Answer(db, op).Ok? <==> op.id in db.users && op.id != op.operator)
  {
    if op.OpCreateUser? || op.OpUpdateUser? {
      AllPresentIff(db.roles.Keys, op.p.roleIds);
      if op.OpCreateUser? {
        CreateUserKeepsInv(db, op.p);
      } else {
        UpdateUserKeepsInv(db, op.p);
      }
    }
  }

  /** Some role of the user has the menu: user_role and role_menu joined. */
  ghost predicate HasMenu(db: Db, user: Id, menu: Id) {
    exists role :: role in LinkedTo(db.userRoles, user) && menu in LinkedTo(db.roleMenus, role)
  }

  lemma {:induction false} JoinedIsLinked(links: Links, roleIds: seq<Id>, menu: Id)
    ensures menu in JoinMenus(links, roleIds) <==> exists i :: 0 <= i < |roleIds| && menu in LinkedTo(links, roleIds[i])
  {
    if roleIds == [] {
    } else {
      JoinedIsLinked(links, roleIds[1..], menu);
      forall i | 0 <= i < |roleIds[1..]| ensures roleIds[1..][i] == roleIds[i+1] {
      }
    }
  }

  lemma UserMenusAre(db: Db, user: Id, menu: Id)
    ensures menu in UserMenuIds(db, user) <==> HasMenu(db, user, menu)
  {
    var roles := LinkedTo(db.userRoles, user);
    JoinedIsLinked(db.roleMenus, roles, menu);
    if HasMenu(db, user, menu) {
      var role :| role in roles && menu in LinkedTo(db.roleMenus, role);
      var i :| 0 <= i < |roles| && roles[i] == role;
    }
  }

  ghost predicate HasMenus(db: Db, user: Id, menuIds: seq<Id>) {
    forall m :: m in menuIds ==> HasMenu(db, user, m)
  }

  lemma AuthorizedIff(db: Db, user: Id, menuIds: seq<Id>)
    ensures NotAuthorized(db, user, menuIds) <==> !HasMenus(db, user, menuIds)
  {
    hide UserMenuIds;
    hide HasMenu;
    if NotAuthorized(db, user, menuIds) {
      var i :| 0 <= i < |menuIds| && menuIds[i] !in UserMenuIds(db, user);
      UserMenusAre(db, user, menuIds[i]);
      assert menuIds[i] in menuIds;
    } else {
      forall m | m in menuIds ensures HasMenu(db, user, m) {
        var i :| 0 <= i < |menuIds| && menuIds[i] == m;
        UserMenusAre(db, user, m);
      }
    }
  }

  lemma SuperAdminIff(db: Db, user: Id)
    requires Inv(db)
    ensures IsSuperAdmin(db, user) <==> SUPER_ADMIN in LinkedTo(db.userRoles, user)
  {
  }

  /** A role is written exactly when no other role has its code, its menus exist and are listed once
      each, and the operator has them all (or, for an update, is a super admin); deleted exactly when
      it exists, is not the super-admin role and no user has it. */
  lemma RoleAcceptedIff(db: Db, op: Op)
    requires Inv(db)
    ensures op.OpCreateRole? ==>
              (Answer(db, op).Ok? <==>
                 && (forall r :: r in db.roles ==> db.roles[r].code != op.rp.code)
                 && NoDup(op.rp.menuIds) && AllIn(op.rp.menuIds, db.menus.Keys)
                 && HasMenus(db, op.operator, op.rp.menuIds))
    ensures op.OpUpdateRole? ==>
              (Answer(db, op).Ok? <==>
                 && op.rp.id in db.roles
                 && (forall r :: r in db.roles && r != op.rp.id ==> db.roles[r].code != op.rp.code)
                 && NoDup(op.rp.menuIds) && AllIn(op.rp.menuIds, db.menus.Keys)
                 && (SUPER_ADMIN in LinkedTo(db.userRoles, op.operator) || HasMenus(db, op.operator, op.rp.menuIds)))
    ensures op.OpDeleteRole? ==>
              (Answer(db, op).Ok? <==>
                 op.id in db.roles && op.id != SUPER_ADMIN && forall u :: op.id !in LinkedTo(db.userRoles, u))
  {
    if op.OpCreateRole? || op.OpUpdateRole? {
      AllPresentIff(db.menus.Keys, op.rp.menuIds);
      AuthorizedIff(db, op.operator, op.rp.menuIds);
      SuperAdminIff(db, op.operator);
      hide HasMenus;
      hide NotAuthorized;
      hide IsSuperAdmin;
      if op.OpCreateRole? {
        CreateRoleKeepsInv(db, op.operator, op.rp);
      } else {
        UpdateRoleKeepsInv(db, op.operator, op.rp);
      }
    }
    if op.OpDeleteRole? && IsUsed(db.userRoles, op.id) {
      var u :| u in db.userRoles && op.id in db.userRoles[u];
      assert op.id in LinkedTo(db.userRoles, u);
    }
  }

  /** A menu is deleted exactly when it exists, has no children and no role has it. */
  lemma MenuDeletedIff(db: Db, id: Id)
    requires Inv(db)
    ensures DeleteMenu(db, id).Ok? <==>
              && id in db.menus && (forall m :: m in db.menus ==> db.menus[m].parentId != id)
              && forall r :: id !in LinkedTo(db.roleMenus, r)
  {
    if IsUsed(db.roleMenus, id) {
      var r :| r in db.roleMenus && id in db.roleMenus[r];
      assert id in LinkedTo(db.roleMenus, r);
    }
  }

  /** A menu is written exactly when its parent is at most 0 or another menu that exists, and no other
      menu has its permission mark or path, unless those are empty. */
  lemma MenuWrittenIff(db: Db, m: Menu)
    requires Inv(db)
    ensures UpdateMenu(db, m).Ok? <==>
              && m.id in db.menus && (m.parentId <= 0 || (m.parentId != m.id && m.parentId in db.menus))
              && Fits(db.menus, m, m.id)
    ensures CreateMenu(db, m).Ok? <==>
              && (m.parentId <= 0 || (m.parentId != m.id && m.parentId in db.menus)) && Fits(db.menus, m, db.nextMenu)
  {
    FitsIff(db.menus, m, m.id, m.id);
    assert db.nextMenu !in db.menus;
    FitsIff(db.menus, m, 0, db.nextMenu);
  }

  lemma FitsIff(menus: Table, m: Menu, except: Id, id: Id)
    requires (except == id && (except > 0 || id !in menus)) || (except == 0 && id !in menus)
    ensures Fits(menus, m, id) <==> !PermsTaken(menus, m.perms, except) && !PathTaken(menus, m.path, except)
  {
    if PermsTaken(menus, m.perms, except) {
      var k :| k in menus && (except > 0 ==> k != except) && menus[k].perms == m.perms;
      assert k != id;
    }
    if PathTaken(menus, m.path, except) {
      var k :| k in menus && (except > 0 ==> k != except) && menus[k].path == m.path;
      assert k != id;
    }
    if !PermsTaken(menus, m.perms, except) && !PathTaken(menus, m.path, except) {
      forall k | k in menus && k != id
        ensures (m.perms == "" || menus[k].perms != m.perms) && (m.path == "" || menus[k].path != m.path)
      {
      }
    }
  }

  // ----- Which error is answered -----

  ghost predicate NameOrTelHeld(users: map<Id, User>, p: UserParam, id: Id) {
    exists u :: u in users && u != id && (users[u].username == p.username || users[u].tel == p.tel)
  }

  /** A refused user write answers the first of its errors that applies. */
  lemma UserErrors(db: Db, op: Op)
    requires Inv(db) && Answer(db, op).Err?
    ensures op.OpCreateUser? ==>
              Answer(db, op).error == if NameOrTelHeld(db.users, op.p, 0) then UserNameTelExist else UserRoleNotExist
    ensures op.OpUpdateUser? ==>
              Answer(db, op).error ==
              if op.p.id <= 0 then UserNotFound
              else if op.p.id !in db.users then UserQueryFailed
              else if NameOrTelHeld(db.users, op.p, op.p.id) then UserNameTelExist
              else UserRoleNotExist
    ensures op.OpDeleteUser? ==>
              Answer(db, op).error == if 0 < op.id == op.operator then DeleteSelf else UserNotFound
  {
    ApplyKeepsInv(db, op);
  }

  ghost predicate CodeHeld(roles: map<Id, Role>, code: string, id: Id) {
    exists r :: r in roles && r != id && roles[r].code == code
  }

  /** The same for roles. */
  lemma RoleErrors(db: Db, op: Op)
    requires Inv(db) && Answer(db, op).Err?
    ensures op.OpCreateRole? ==>
              Answer(db, op).error ==
              if CodeHeld(db.roles, op.rp.code, 0) then RoleCodeUsed
              else if !NoDup(op.rp.menuIds) || !AllIn(op.rp.menuIds, db.menus.Keys) then RoleMenuNotExist
              else RoleMenuNotAuthorized
    ensures op.OpUpdateRole? ==>
              Answer(db, op).error ==
              if op.rp.id <= 0 then RoleIdInvalid
              else if CodeHeld(db.roles, op.rp.code, op.rp.id) then RoleCodeUsed
              else if op.rp.id !in db.roles then RoleNotFound
              else if !NoDup(op.rp.menuIds) || !AllIn(op.rp.menuIds, db.menus.Keys) then RoleMenuNotExist
              else RoleMenuNotAuthorized
    ensures op.OpDeleteRole? ==>
              Answer(db, op).error ==
              if op.id <= 0 then RoleIdInvalid
              else if op.id == SUPER_ADMIN then SuperAdminRoleCannotDelete
              else if op.id !in db.roles then RoleNotFound
              else RoleUsed
  {
    hide NotAuthorized;
    hide IsSuperAdmin;
    ApplyKeepsInv(db, op);
    if op.OpCreateRole? || op.OpUpdateRole? {
      AllPresentIff(db.menus.Keys, op.rp.menuIds);
    }
  }

  ghost predicate PermsHeld(menus: Table, perms: string, id: Id) {
    perms != "" && exists m :: m in menus && m != id && menus[m].perms == perms
  }

  /** The same for menus. */
  lemma MenuErrors(db: Db, op: Op)
    requires Inv(db) && Answer(db, op).Err?
    ensures op.OpCreateMenu? ==>
              Answer(db, op).error ==
              if 0 < op.m.id == op.m.parentId then MenuParentSelf
              else if op.m.parentId > 0 && op.m.parentId !in db.menus then MenuParentInvalid
              else if PermsHeld(db.menus, op.m.perms, 0) then MenuPermsExist
              else MenuPathExist
    ensures op.OpUpdateMenu? ==>
              Answer(db, op).error ==
              if op.m.id <= 0 then MenuIdInvalid
              else if op.m.id !in db.menus then MenuNotFound
              else if op.m.parentId == op.m.id then MenuParentSelf
              else if op.m.parentId > 0 && op.m.parentId !in db.menus then MenuParentInvalid
              else if PermsHeld(db.menus, op.m.perms, op.m.id) then MenuPermsExist
              else MenuPathExist
    ensures op.OpDeleteMenu? ==>
              Answer(db, op).error ==
              if op.id <= 0 then MenuIdInvalid
              else if op.id !in db.menus then MenuNotFound
              else if exists m :: m in db.menus && db.menus[m].parentId == op.id then MenuHasChildren
              else MenuUsedByRole
  {
  }

  // ----- Cycles -----

  ghost predicate MenusAcyclic(db: Db) {
    Acyclic(ParentsOf(db.menus))
  }

  lemma OthersKeepMenus(db: Db, op: Op)
    requires !op.OpCreateMenu? && !op.OpUpdateMenu? && !op.OpDeleteMenu?
    ensures Apply(db, op).menus == db.menus
  {
    hide NotAuthorized;
    hide CountByIds;
    hide IsUsed;
  }

  /** Creating and deleting menus makes no cycle; only `UpdateMenu` ever could. */
  lemma OnlyUpdateMenuMakesCycles(db: Db, op: Op)
    requires Inv(db) && MenusAcyclic(db) && !op.OpUpdateMenu?
    ensures MenusAcyclic(Apply(db, op))
  {
    hide Acyclic;
    hide Inv;
    var p := ParentsOf(db.menus);
    if !op.OpCreateMenu? && !op.OpDeleteMenu? {
      OthersKeepMenus(db, op);
    } else if Answer(db, op).Ok? && op.OpCreateMenu? {
      CreatedParents(db, op.m);
      InsertKeepsAcyclic(p, db.nextMenu, op.m.parentId);
    } else if Answer(db, op).Ok? {
      assert ParentsOf(db.menus - {op.id}) == p - {op.id};
      RemoveKeepsAcyclic(p, op.id);
    }
  }

  lemma CreatedParents(db: Db, m: Menu)
    requires Inv(db) && CreateMenu(db, m).Ok?
    ensures ParentsOf(CreateMenu(db, m).value.db.menus) == ParentsOf(db.menus)[db.nextMenu := m.parentId]
    ensures db.nextMenu !in db.menus && m.parentId != db.nextMenu
    ensures forall y :: y in db.menus ==> db.menus[y].parentId != db.nextMenu
  {
  }

  /** `UpdateMenu` checks only that the new parent exists and is not the menu itself. So it keeps the
      menus acyclic exactly when the new parent does not lie below the moved menu. */
  lemma UpdateMenuKeepsAcyclicIff(db: Db, m: Menu)
    requires Inv(db) && MenusAcyclic(db) && UpdateMenu(db, m).Ok?
    ensures MenusAcyclic(UpdateMenu(db, m).value.db) <==>
              m.parentId <= 0 || !Descends(ParentsOf(db.menus), m.parentId, m.id)
  {
    var p := ParentsOf(db.menus);
    assert ParentsOf(db.menus[m.id := m]) == p[m.id := m.parentId];
    MoveKeepsAcyclicIff(p, m.id, m.parentId);
    if m.parentId < 0 {
      forall k: nat ensures !Above(p, m.parentId, m.id, k) {
      }
    }
  }

  const TOP := Menu(1, 0, DIR, "top", "", "", "", 0)
  const BELOW := Menu(2, 1, DIR, "below", "", "", "", 0)

  /** A menu moved under its own child is accepted, and then neither leads to a root. */
  lemma UpdateMenuAcceptsACycle()
    ensures var db := Db(map[], map[], map[1 := TOP, 2 := BELOW], map[], map[], 1, 1, 3);
            var moved := UpdateMenu(db, TOP.(parentId := 2));
            && Inv(db) && MenusAcyclic(db) && moved.Ok?
            && !Rooted(ParentsOf(moved.value.db.menus), 1) && !Rooted(ParentsOf(moved.value.db.menus), 2)
  {
    var db := Db(map[], map[], map[1 := TOP, 2 := BELOW], map[], map[], 1, 1, 3);
    var p := ParentsOf(db.menus);
    assert RootedAt(p, 1, 0) && RootedAt(p, 2, 1);
    var r := ParentsOf(UpdateMenu(db, TOP.(parentId := 2)).value.db.menus);
    assert r == p[1 := 2];
    assert Above(p, 2, 1, 1) && Above(p, 1, 1, 0) && Above(p, 2, 2, 0);
    forall d: nat ensures !RootedAt(r, 1, d) && !RootedAt(r, 2, d) {
      MovedBelowItselfNeverEnds(p, 1, 2, 1, 0, 1, d);
      MovedBelowItselfNeverEnds(p, 1, 2, 2, 1, 1, d);
    }
  }

  // ----- Which menus are held -----

  /** Some role has the menu. */
  ghost predicate Held(links: Links, menu: Id) {
    exists r :: r in links && menu in links[r]
  }

  lemma OperatorsMenusAreHeld(db: Db, operator: Id, menu: Id)
    requires HasMenu(db, operator, menu)
    ensures Held(db.roleMenus, menu)
  {
    var role :| role in LinkedTo(db.userRoles, operator) && menu in LinkedTo(db.roleMenus, role);
  }

  /** A role made by `CreateRole`, or changed by an operator without the super-admin role, gets a
      subset of that operator's menus. */
  lemma GrantsComeFromTheOperator(db: Db, operator: Id, p: RoleParam)
    requires Inv(db)
    ensures CreateRole(db, operator, p).Ok? ==>
              var done := CreateRole(db, operator, p).value;
              && LinkedTo(done.db.roleMenus, done.id) == p.menuIds
              && HasMenus(db, operator, p.menuIds)
    ensures UpdateRole(db, operator, p).Ok? && SUPER_ADMIN !in LinkedTo(db.userRoles, operator) ==>
              var done := UpdateRole(db, operator, p).value;
              && LinkedTo(done.db.roleMenus, done.id) == p.menuIds
              && HasMenus(db, operator, p.menuIds)
  {
    AuthorizedIff(db, operator, p.menuIds);
    SuperAdminIff(db, operator);
    hide HasMenus;
    hide NotAuthorized;
    hide IsSuperAdmin;
    if CreateRole(db, operator, p).Ok? {
      assert db.nextRole !in db.roleMenus;
      InsertKeepsLinks(db.roleMenus, db.roles.Keys, db.menus.Keys, db.nextRole, p.menuIds);
    }
    if UpdateRole(db, operator, p).Ok? {
      WithoutKeepsLinks(db.roleMenus, db.roles.Keys, db.menus.Keys, p.id);
      InsertKeepsLinks(db.roleMenus - {p.id}, db.roles.Keys, db.menus.Keys, p.id, p.menuIds);
    }
  }

  /** Only this step may let a role hold a menu that no role held before. */
  predicate BySuperAdmin(db: Db, op: Op) {
    op.OpUpdateRole? && SUPER_ADMIN in LinkedTo(db.userRoles, op.operator)
  }

  lemma GrantedIsHeld(db: Db, op: Op, r: Id, menu: Id)
    requires Inv(db) && !BySuperAdmin(db, op) && (op.OpCreateRole? || op.OpUpdateRole?) && Answer(db, op).Ok?
    requires menu in LinkedTo(Answer(db, op).value.db.roleMenus, r)
    ensures Held(db.roleMenus, menu)
  {
    hide Inv;
    hide CreateRole;
    hide UpdateRole;
    hide HasMenu;
    RoleWritesTouchOneRole(db, op);
    GrantsComeFromTheOperator(db, op.operator, op.rp);
    if r == Answer(db, op).value.id {
      OperatorsMenusAreHeld(db, op.operator, menu);
    }
  }

  lemma HeldMenusDoNotGrow(db: Db, op: Op, menu: Id)
    requires Inv(db) && !BySuperAdmin(db, op) && Held(Apply(db, op).roleMenus, menu)
    ensures Held(db.roleMenus, menu)
  {
    hide Inv;
    hide CreateRole;
    hide UpdateRole;
    var after := Apply(db, op).roleMenus;
    var r :| r in after && menu in after[r];
    if (op.OpCreateRole? || op.OpUpdateRole?) && Answer(db, op).Ok? {
      GrantedIsHeld(db, op, r, menu);
    }
  }

  ghost predicate NoSuperAdminGrant(db: Db, ops: seq<Op>) {
    forall i :: 0 <= i < |ops| ==> !BySuperAdmin(Run(db, ops[..i]), ops[i])
  }

  /** Over a whole run, the menus held by some role never grow without a super-admin's `UpdateRole`. */
  lemma {:induction false} HeldMenusNeverGrow(db: Db, ops: seq<Op>, menu: Id)
    requires Inv(db) && NoSuperAdminGrant(db, ops) && Held(Run(db, ops).roleMenus, menu)
    ensures Held(db.roleMenus, menu)
  {
    if ops == [] {
    } else {
      var init := ops[..|ops|-1];
      assert forall i :: 0 <= i < |init| ==> init[..i] == ops[..i];
      RunKeepsInv(db, init);
      HeldMenusDoNotGrow(Run(db, init), ops[|ops|-1], menu);
      HeldMenusNeverGrow(db, init, menu);
    }
  }
}
