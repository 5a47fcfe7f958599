/** Users, roles and menus as tables, the two junction tables between them, and the transactions that
    change them. Each transaction, with the reads and checks before it, is one step. */
module Rbac {
  import opened Options
  import opened Menus

  const SUPER_ADMIN: Id := 1

  datatype User = User(username: string, tel: string)

  datatype Role = Role(code: string, name: string)

  /** A junction table, its rows grouped by owner and in insertion order. */
  type Links = map<Id, seq<Id>>

  /** `nextUser`, `nextRole` and `nextMenu` are the auto-increment counters. */
  datatype Db = Db(
    users: map<Id, User>,
    roles: map<Id, Role>,
    menus: Table,
    userRoles: Links,
    roleMenus: Links,
    nextUser: Id,
    nextRole: Id,
    nextMenu: Id)

  datatype UserParam = UserParam(id: Id, username: string, tel: string, roleIds: seq<Id>)

  datatype RoleParam = RoleParam(id: Id, code: string, name: string, menuIds: seq<Id>)

  datatype Error =
    | UserNameTelExist
    | UserNotFound
    | UserQueryFailed
    | UserRoleNotExist
    | DeleteSelf
    | RoleIdInvalid
    | RoleCodeUsed
    | RoleNotFound
    | RoleUsed
    | RoleMenuNotExist
    | RoleMenuNotAuthorized
    | SuperAdminRoleCannotDelete
    | MenuIdInvalid
    | MenuNotFound
    | MenuParentSelf
    | MenuParentInvalid
    | MenuPermsExist
    | MenuPathExist
    | MenuHasChildren
    | MenuUsedByRole
    | LinkInsertFailed

  /** The tables after a commit, and the id the call returns. */
  datatype Done = Done(db: Db, id: Id)

  type Reply = Result<Done, Error>

  // ----- Queries -----

  function LinkedTo(links: Links, owner: Id): seq<Id> {
    if owner in links then links[owner] else []
  }

  /** How many rows have one of these ids. */
  function CountByIds(rows: set<Id>, ids: seq<Id>): nat {
    |set id | id in ids && id in rows|
  }

  predicate NameTelTaken(users: map<Id, User>, username: string, tel: string, except: Id) {
    exists u :: u in users && (except > 0 ==> u != except) && (users[u].username == username || users[u].tel == tel)
  }

  predicate CodeTaken(roles: map<Id, Role>, code: string, except: Id) {
    exists r :: r in roles && (except > 0 ==> r != except) && roles[r].code == code
  }

  predicate PermsTaken(menus: Table, perms: string, except: Id) {
    perms != "" && exists m :: m in menus && (except > 0 ==> m != except) && menus[m].perms == perms
  }

  predicate PathTaken(menus: Table, path: string, except: Id) {
    path != "" && exists m :: m in menus && (except > 0 ==> m != except) && menus[m].path == path
  }

  /** The menus of the given roles, one role after the other. */
  function JoinMenus(links: Links, roleIds: seq<Id>): seq<Id> {
    if roleIds == [] then [] else LinkedTo(links, roleIds[0]) + JoinMenus(links, roleIds[1..])
  }

  function UserMenuIds(db: Db, user: Id): seq<Id> {
    JoinMenus(db.roleMenus, LinkedTo(db.userRoles, user))
  }

  predicate IsSuperAdmin(db: Db, user: Id) {
    user > 0 && SUPER_ADMIN in LinkedTo(db.userRoles, user)
  }

  predicate IsUsed(links: Links, target: Id) {
    exists o :: o in links && target in links[o]
  }

  predicate HasChildren(menus: Table, id: Id) {
    exists m :: m in menus && menus[m].parentId == id
  }

  predicate NoDup(ids: seq<Id>) {
    forall i, j :: 0 <= i < j < |ids| ==> ids[i] != ids[j]
  }

  /** Inserts one row per id; the unique key on the pair refuses a row that is already there. */
  function InsertLinks(links: Links, owner: Id, ids: seq<Id>): Option<Links> {
    if ids == [] then Some(links)
    else if NoDup(ids) && forall i :: 0 <= i < |ids| ==> ids[i] !in LinkedTo(links, owner) then
      Some(links[owner := LinkedTo(links, owner) + ids])
    else None
  }

  // ----- Users -----

  predicate RolesMissing(db: Db, roleIds: seq<Id>) {
    roleIds != [] && CountByIds(db.roles.Keys, roleIds) != |roleIds|
  }

  function CreateUser(db: Db, p: UserParam): Reply {
    if NameTelTaken(db.users, p.username, p.tel, 0) then Err(UserNameTelExist)
    else if RolesMissing(db, p.roleIds) then Err(UserRoleNotExist)
    else
      match InsertLinks(db.userRoles, db.nextUser, p.roleIds)
      case None => Err(LinkInsertFailed)
      case Some(links) =>
        Ok(Done(db.(users := db.users[db.nextUser := User(p.username, p.tel)], userRoles := links,
                    nextUser := db.nextUser + 1), db.nextUser))
  }

  function UpdateUser(db: Db, p: UserParam): Reply {
    if p.id <= 0 then Err(UserNotFound)
    else if p.id !in db.users then Err(UserQueryFailed)
    else if NameTelTaken(db.users, p.username, p.tel, p.id) then Err(UserNameTelExist)
    else if RolesMissing(db, p.roleIds) then Err(UserRoleNotExist)
    else
      match InsertLinks(db.userRoles - {p.id}, p.id, p.roleIds)
      case None => Err(LinkInsertFailed)
      case Some(links) =>
        Ok(Done(db.(users := db.users[p.id := User(p.username, p.tel)], userRoles := links), p.id))
  }

  function DeleteUser(db: Db, operator: Id, id: Id): Reply {
    if id <= 0 then Err(UserNotFound)
    else if id == operator then Err(DeleteSelf)
    else if id !in db.users then Err(UserNotFound)
    else Ok(Done(db.(users := db.users - {id}, userRoles := db.userRoles - {id}), id))
  }

  // ----- Roles -----

  predicate MenusMissing(db: Db, menuIds: seq<Id>) {
    menuIds != [] && CountByIds(db.menus.Keys, menuIds) != |menuIds|
  }

  /** Some menu is not among those of the operator's roles. */
  predicate NotAuthorized(db: Db, operator: Id, menuIds: seq<Id>) {
    exists i :: 0 <= i < |menuIds| && menuIds[i] !in UserMenuIds(db, operator)
  }

  function CreateRole(db: Db, operator: Id, p: RoleParam): Reply {
    if CodeTaken(db.roles, p.code, 0) then Err(RoleCodeUsed)
    else if MenusMissing(db, p.menuIds) then Err(RoleMenuNotExist)
    else if NotAuthorized(db, operator, p.menuIds) then Err(RoleMenuNotAuthorized)
    else
      match InsertLinks(db.roleMenus, db.nextRole, p.menuIds)
      case None => Err(LinkInsertFailed)
      case Some(links) =>
        Ok(Done(db.(roles := db.roles[db.nextRole := Role(p.code, p.name)], roleMenus := links,
                    nextRole := db.nextRole + 1), db.nextRole))
  }

  function UpdateRole(db: Db, operator: Id, p: RoleParam): Reply {
    if p.id <= 0 then Err(RoleIdInvalid)
    else if CodeTaken(db.roles, p.code, p.id) then Err(RoleCodeUsed)
    else if p.id !in db.roles then Err(RoleNotFound)
    else if MenusMissing(db, p.menuIds) then Err(RoleMenuNotExist)
    else if !IsSuperAdmin(db, operator) && NotAuthorized(db, operator, p.menuIds) then Err(RoleMenuNotAuthorized)
    else
      match InsertLinks(db.roleMenus - {p.id}, p.id, p.menuIds)
      case None => Err(LinkInsertFailed)
      case Some(links) =>
        Ok(Done(db.(roles := db.roles[p.id := Role(p.code, p.name)], roleMenus := links), p.id))
  }

  function DeleteRole(db: Db, id: Id): Reply {
    if id <= 0 then Err(RoleIdInvalid)
    else if id == SUPER_ADMIN then Err(SuperAdminRoleCannotDelete)
    else if id !in db.roles then Err(RoleNotFound)
    else if IsUsed(db.userRoles, id) then Err(RoleUsed)
    else Ok(Done(db.(roles := db.roles - {id}, roleMenus := db.roleMenus - {id}), id))
  }

  // ----- Menus -----

  /** The checks shared by creating and updating. */
  function MenuRefused(db: Db, p: Menu, except: Id): Option<Error> {
    if p.parentId > 0 && p.parentId !in db.menus then Some(MenuParentInvalid)
    else if PermsTaken(db.menus, p.perms, except) then Some(MenuPermsExist)
    else if PathTaken(db.menus, p.path, except) then Some(MenuPathExist)
    else None
  }

  function CreateMenu(db: Db, p: Menu): Reply {
    if p.id > 0 && p.parentId == p.id then Err(MenuParentSelf)
    else if MenuRefused(db, p, 0).Some? then Err(MenuRefused(db, p, 0).value)
    else Ok(Done(db.(menus := db.menus[db.nextMenu := p.(id := db.nextMenu)],
                     nextMenu := db.nextMenu + 1), db.nextMenu))
  }

  function UpdateMenu(db: Db, p: Menu): Reply {
    if p.id <= 0 then Err(MenuIdInvalid)
    else if p.id !in db.menus then Err(MenuNotFound)
    else if p.parentId > 0 && p.parentId == p.id then Err(MenuParentSelf)
    else if MenuRefused(db, p, p.id).Some? then Err(MenuRefused(db, p, p.id).value)
    else Ok(Done(db.(menus := db.menus[p.id := p]), p.id))
  }

  function DeleteMenu(db: Db, id: Id): Reply {
    if id <= 0 then Err(MenuIdInvalid)
    else if id !in db.menus then Err(MenuNotFound)
    else if HasChildren(db.menus, id) then Err(MenuHasChildren)
    else if IsUsed(db.roleMenus, id) then Err(MenuUsedByRole)
    else Ok(Done(db.(menus := db.menus - {id}), id))
  }

  // ----- Runs -----

  /** What the caller gets to see. */
  function IdOf(reply: Reply): Result<Id, Error> {
    match reply
    case Ok(done) => Ok(done.id)
    case Err(e) => Err(e)
  }

  datatype Op =
    | OpCreateUser(p: UserParam)
    | OpUpdateUser(p: UserParam)
    | OpDeleteUser(operator: Id, id: Id)
    | OpCreateRole(operator: Id, rp: RoleParam)
    | OpUpdateRole(operator: Id, rp: RoleParam)
    | OpDeleteRole(id: Id)
    | OpCreateMenu(m: Menu)
    | OpUpdateMenu(m: Menu)
    | OpDeleteMenu(id: Id)

  function Answer(db: Db, op: Op): Reply {
    match op
    case OpCreateUser(p) => CreateUser(db, p)
    case OpUpdateUser(p) => UpdateUser(db, p)
    case OpDeleteUser(operator, id) => DeleteUser(db, operator, id)
    case OpCreateRole(operator, p) => CreateRole(db, operator, p)
    case OpUpdateRole(operator, p) => UpdateRole(db, operator, p)
    case OpDeleteRole(id) => DeleteRole(db, id)
    case OpCreateMenu(m) => CreateMenu(db, m)
    case OpUpdateMenu(m) => UpdateMenu(db, m)
    case OpDeleteMenu(id) => DeleteMenu(db, id)
  }

  /** A refused operation leaves the tables as they are. */
  function Apply(db: Db, op: Op): Db {
    match Answer(db, op)
    case Ok(done) => done.db
    case Err(_) => db
  }

  function Run(db: Db, ops: seq<Op>): Db {
    if ops == [] then db else Apply(Run(db, ops[..|ops|-1]), ops[|ops|-1])
  }
}
