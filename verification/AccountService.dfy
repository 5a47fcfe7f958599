/** The account services as methods on the shared tables and caches: each transaction works on a copy
    of the tables and commits it at the end, and drops the cache entries it owes before returning. */
module AccountService {
  import opened Options
  import opened Menus
  import opened MenuTree
  import opened Rbac
  import opened RbacInv
  import Cache = PermissionCache

  datatype UserPermission = UserPermission(id: Id, name: string, perms: string)

  /** What a user's page shows: its menu rows, their arrangement, and its buttons. */
  datatype Page = Page(menus: seq<Menu>, shape: Forest, buttons: seq<UserPermission>)

  predicate IsButton(m: Menu) {
    m.menuType == BTN && m.perms != ""
  }

  predicate IsPage(m: Menu) {
    m.menuType == MENU || m.menuType == DIR
  }

  predicate HasId(rows: seq<Menu>, id: Id) {
    exists i :: 0 <= i < |rows| && rows[i].id == id
  }

  /** Adds a row unless it is not chosen or its id is there already. */
  function AddFirst(r: seq<Menu>, m: Menu, choose: Menu -> bool): seq<Menu> {
    if choose(m) && !HasId(r, m.id) then r + [m] else r
  }

  /** The chosen rows, each id at its first occurrence. */
  function FirstById(rows: seq<Menu>, choose: Menu -> bool): seq<Menu> {
    if rows == [] then [] else AddFirst(FirstById(rows[..|rows|-1], choose), rows[|rows|-1], choose)
  }

  /** Only chosen rows, no id twice, and no chosen row's id missing. */
  lemma {:induction false} FirstByIdKeepsEachIdOnce(rows: seq<Menu>, choose: Menu -> bool, id: Id)
    ensures var r := FirstById(rows, choose);
            && (forall i :: 0 <= i < |r| ==> r[i] in rows && choose(r[i]))
            && (forall i, j :: 0 <= i < j < |r| ==> r[i].id != r[j].id)
            && (HasId(r, id) <==> exists i :: 0 <= i < |rows| && rows[i].id == id && choose(rows[i]))
  {
    if rows == [] {
    } else {
      var (init, last) := (rows[..|rows|-1], rows[|rows|-1]);
      FirstByIdKeepsEachIdOnce(init, choose, id);
      AddFirstEffect(FirstById(init, choose), last, choose, id);
      assert forall i :: 0 <= i < |init| ==> rows[i] == init[i];
    }
  }

  lemma AddFirstEffect(r: seq<Menu>, m: Menu, choose: Menu -> bool, id: Id)
    ensures HasId(AddFirst(r, m, choose), id) <==> HasId(r, id) || (choose(m) && m.id == id)
  {
    if HasId(r, id) {
      var i :| 0 <= i < |r| && r[i].id == id;
      assert (r + [m])[i].id == id;
    }
    assert (r + [m])[|r|] == m;
  }

  function AsButtons(rows: seq<Menu>): (r: seq<UserPermission>)
    ensures |r| == |rows|
    ensures forall i :: 0 <= i < |r| ==> r[i] == UserPermission(rows[i].id, rows[i].name, rows[i].perms)
  {
    seq(|rows|, i requires 0 <= i < |rows| => UserPermission(rows[i].id, rows[i].name, rows[i].perms))
  }

  /** The menus of the roles as read through the cache, one role after the other. */
  function AllMenusSeen(s: Cache.World, roles: seq<Id>): seq<Menu> {
    if roles == [] then [] else AllMenusSeen(s, roles[..|roles|-1]) + Cache.MenusSeen(s, roles[|roles|-1])
  }

  /** Reading a role through the cache leaves what was read in the cache. */
  function Filled(s: Cache.World, roles: seq<Id>): Cache.World {
    if roles == [] then s
    else
      var t := Filled(s, roles[..|roles|-1]);
      t.(roleCache := t.roleCache[roles[|roles|-1] := Cache.MenusSeen(s, roles[|roles|-1])])
  }

  lemma {:induction false} FilledReadsTheSame(s: Cache.World, roles: seq<Id>)
    ensures Filled(s, roles) == s.(roleCache := Filled(s, roles).roleCache)
    ensures forall r :: Cache.MenusSeen(Filled(s, roles), r) == Cache.MenusSeen(s, r)
  {
    if roles == [] {
    } else {
      FilledReadsTheSame(s, roles[..|roles|-1]);
    }
  }

  lemma {:induction false} FilledKeepsInv(s: Cache.World, roles: seq<Id>)
    requires Cache.CacheInv(s) && s.duties == map[]
    requires forall i :: 0 <= i < |roles| ==> 1 <= roles[i] < s.db.nextRole
    ensures Cache.CacheInv(Filled(s, roles))
  {
    hide Cache.CacheInv;
    if roles == [] {
    } else {
      var init := roles[..|roles|-1];
      FilledKeepsInv(s, init);
      FilledReadsTheSame(s, init);
      Cache.RoleReadKeepsInv(Filled(s, init), roles[|roles|-1]);
    }
  }

  /** From valid caches a user's permissions are read exactly, no role is missing, and what was read may
      stay cached. */
  lemma ReadsOfValid(s: Cache.World, user: Id)
    requires s.duties == map[]
    ensures Cache.CacheInv(s) ==>
              var roles := Cache.RolesSeen(s, user);
              && (forall i :: 0 <= i < |roles| ==> roles[i] > 0)
              && (forall p :: p in Cache.PermsSeen(s, roles) <==> Cache.Permitted(s.db, user, p))
              && (0 < user < s.db.nextUser ==>
                    Cache.CacheInv(Filled(s.(userCache := s.userCache[user := roles]), roles)))
  {
    hide Cache.CacheInv;
    if Cache.CacheInv(s) {
      Cache.RolesExist(s, user);
      forall p ensures p in Cache.PermsSeen(s, Cache.RolesSeen(s, user)) <==> Cache.Permitted(s.db, user, p) {
        Cache.PermsAreExact(s, user, p);
      }
      if 0 < user < s.db.nextUser {
        Cache.UserReadKeepsInv(s, user);
        FilledKeepsInv(s.(userCache := s.userCache[user := Cache.RolesSeen(s, user)]), Cache.RolesSeen(s, user));
      }
    }
  }

  lemma ByLastIdNext(rows: seq<Menu>, m: Menu)
    ensures ByLastId(rows + [m]) == ByLastId(rows)[m.id := m]
  {
    assert (rows + [m])[..|rows|] == rows;
  }

  lemma FilledNext(s: Cache.World, roles: seq<Id>, i: nat)
    requires i < |roles|
    ensures var t := Filled(s, roles[..i]);
            Filled(s, roles[..i+1]) == t.(roleCache := t.roleCache[roles[i] := Cache.MenusSeen(s, roles[i])])
    ensures Cache.MenusSeen(Filled(s, roles[..i]), roles[i]) == Cache.MenusSeen(s, roles[i])
  {
    FilledReadsTheSame(s, roles[..i]);
    assert roles[..i+1][..i] == roles[..i];
  }

  /** Which users are cached does not matter for reading roles. */
  lemma {:induction false} UsersDoNotMatter(s: Cache.World, t: Cache.World, roles: seq<Id>)
    requires t == s.(userCache := t.userCache)
    ensures Cache.PermsSeen(t, roles) == Cache.PermsSeen(s, roles)
  {
    if roles == [] {
    } else {
      UsersDoNotMatter(s, t, roles[1..]);
    }
  }

  lemma PermsNext(s: Cache.World, roles: seq<Id>, i: nat)
    requires i < |roles|
    ensures Cache.PermsSeen(s, roles[i..])
         == (set p | p in Cache.BtnPerms(Cache.MenusSeen(s, roles[i]))) + Cache.PermsSeen(s, roles[i+1..])
  {
    assert roles[i..][1..] == roles[i+1..];
  }

  lemma NothingRead(s: Cache.World, roles: seq<Id>)
    ensures Cache.PermsSeen(s, roles[|roles|..]) == {} && Filled(s, roles[..0]) == s
    ensures roles[0..] == roles && roles[..|roles|] == roles
  {
  }

  lemma NothingSeen(s: Cache.World, roles: seq<Id>)
    ensures Filled(s, roles[..0]) == s && AllMenusSeen(s, roles[..0]) == []
    ensures forall choose :: FirstById([], choose) == []
  {
  }

  lemma SeenNext(s: Cache.World, roles: seq<Id>, i: nat)
    requires i < |roles|
    ensures AllMenusSeen(s, roles[..i+1]) == AllMenusSeen(s, roles[..i]) + Cache.MenusSeen(s, roles[i])
  {
    assert roles[..i+1][..i] == roles[..i];
  }

  // ----- What a page shows -----

  /** A row that one of the user's roles holds: user_role, role_menu and menu joined. */
  ghost predicate HeldRow(db: Db, user: Id, m: Menu) {
    m.id in db.menus && db.menus[m.id] == m && HasMenu(db, user, m.id)
  }

  ghost predicate HeldButton(db: Db, user: Id, m: Menu, b: UserPermission) {
    HeldRow(db, user, m) && m.menuType == BTN && m.perms != "" && b == UserPermission(m.id, m.name, m.perms)
  }

  /** A row is shown exactly when it is a menu or directory that one of the user's roles holds, and a
      button exactly when one of them holds it. */
  ghost predicate ShowsHeld(page: Page, db: Db, user: Id) {
    && (forall m :: m in page.menus <==> (m.menuType == MENU || m.menuType == DIR) && HeldRow(db, user, m))
    && (forall b :: b in page.buttons <==> exists m :: HeldButton(db, user, m, b))
  }

  lemma {:induction false} SeenWithRoles(s: Cache.World, roles: seq<Id>, m: Menu)
    ensures m in AllMenusSeen(s, roles) <==> exists i :: 0 <= i < |roles| && m in Cache.MenusSeen(s, roles[i])
  {
    if roles == [] {
    } else {
      var init := roles[..|roles|-1];
      SeenWithRoles(s, init, m);
      assert forall i :: 0 <= i < |init| ==> init[i] == roles[i];
    }
  }

  ghost predicate AllHeld(all: seq<Menu>, db: Db, user: Id) {
    forall m :: m in all <==> HeldRow(db, user, m)
  }

  lemma SeenIsHeld(s: Cache.World, user: Id)
    requires Cache.CacheInv(s) && s.duties == map[]
    ensures AllHeld(AllMenusSeen(s, LinkedTo(s.db.userRoles, user)), s.db, user)
  {
    forall m ensures m in AllMenusSeen(s, LinkedTo(s.db.userRoles, user)) <==> HeldRow(s.db, user, m) {
      RowSeenIsHeld(s, user, m);
    }
  }

  lemma RowSeenIsHeld(s: Cache.World, user: Id, m: Menu)
    requires Cache.CacheInv(s) && s.duties == map[]
    ensures m in AllMenusSeen(s, LinkedTo(s.db.userRoles, user)) <==> HeldRow(s.db, user, m)
  {
    hide Cache.MenusSeen;
    var roles := LinkedTo(s.db.userRoles, user);
    SeenWithRoles(s, roles, m);
    forall i | 0 <= i < |roles| ensures Cache.HasRows(Cache.MenusSeen(s, roles[i]), s.db, roles[i]) {
      Cache.MenusSeenHaveRows(s, roles[i]);
    }
    MenuIdsMatch(s);
    hide Cache.CacheInv;
    if m in AllMenusSeen(s, roles) {
      var i :| 0 <= i < |roles| && m in Cache.MenusSeen(s, roles[i]);
      var j :| 0 <= j < |Cache.MenusSeen(s, roles[i])| && Cache.MenusSeen(s, roles[i])[j] == m;
      assert LinkedTo(s.db.roleMenus, roles[i])[j] == m.id;
      assert roles[i] in roles && m.id in LinkedTo(s.db.roleMenus, roles[i]);
    }
    if HeldRow(s.db, user, m) {
      var role :| role in roles && m.id in LinkedTo(s.db.roleMenus, role);
      var i :| 0 <= i < |roles| && roles[i] == role;
      var j :| 0 <= j < |LinkedTo(s.db.roleMenus, role)| && LinkedTo(s.db.roleMenus, role)[j] == m.id;
      assert Cache.MenusSeen(s, roles[i])[j] == m;
    }
  }

  lemma MenuIdsMatch(s: Cache.World)
    requires Cache.CacheInv(s)
    ensures forall m :: m in s.db.menus ==> s.db.menus[m].id == m
  {
  }

  /** Choosing each id's first row loses no row when equal ids mean equal rows. */
  lemma FirstByIdShows(all: seq<Menu>, choose: Menu -> bool, db: Db, user: Id, m: Menu)
    requires AllHeld(all, db, user)
    ensures m in FirstById(all, choose) <==> choose(m) && HeldRow(db, user, m)
  {
    var r := FirstById(all, choose);
    FirstByIdKeepsEachIdOnce(all, choose, m.id);
    if m in r {
      var i :| 0 <= i < |r| && r[i] == m;
    }
    if choose(m) && HeldRow(db, user, m) {
      var k :| 0 <= k < |all| && all[k] == m;
      var i :| 0 <= i < |r| && r[i].id == m.id;
      assert HeldRow(db, user, r[i]);
    }
  }

  lemma PageShowsHeld(page: Page, all: seq<Menu>, db: Db, user: Id)
    requires AllHeld(all, db, user) && page.menus == FirstById(all, IsPage)
    requires page.buttons == AsButtons(FirstById(all, IsButton))
    ensures ShowsHeld(page, db, user)
  {
    hide FirstById;
    hide AllHeld;
    hide HeldRow;
    forall m ensures m in page.menus <==> IsPage(m) && HeldRow(db, user, m) {
      FirstByIdShows(all, IsPage, db, user, m);
    }
    var rows := FirstById(all, IsButton);
    forall b ensures b in page.buttons <==> exists m :: HeldButton(db, user, m, b) {
      if b in page.buttons {
        var i :| 0 <= i < |rows| && page.buttons[i] == b;
        FirstByIdShows(all, IsButton, db, user, rows[i]);
        assert rows[i] in rows && HeldButton(db, user, rows[i], b);
      }
      if m :| HeldButton(db, user, m, b) {
        FirstByIdShows(all, IsButton, db, user, m);
        var i :| 0 <= i < |rows| && rows[i] == m;
        assert page.buttons[i] == b;
      }
    }
  }

  class Service {
    var db: Db
    var userCache: map<Id, seq<Id>>
    var roleCache: map<Id, seq<Menu>>
    var tree: Option<Cache.Tree>

    ghost function State(): Cache.World
      reads this
    {
      Cache.World(db, userCache, roleCache, tree, map[])
    }

    /** The tables have their integrity, and every cached entry is what they say. */
    ghost predicate Valid()
      reads this
    {
      Cache.CacheInv(State())
    }

    constructor (db: Db)
      ensures State() == Cache.Start(db)
      ensures Inv(db) ==> Valid()
    {
      this.db := db;
      userCache := map[];
      roleCache := map[];
      tree := None;
    }

    /** Appends one row per id, unless the unique key on the pair refuses one. */
    static method InsertRows(links: Links, owner: Id, ids: seq<Id>) returns (r: Option<Links>)
      ensures r == InsertLinks(links, owner, ids)
    {
      var t := links;
      for i := 0 to |ids|
        invariant NoDup(ids[..i]) && forall k :: 0 <= k < i ==> ids[k] !in LinkedTo(links, owner)
        invariant t == if i == 0 then links else links[owner := LinkedTo(links, owner) + ids[..i]]
      {
        assert ids[..i+1] == ids[..i] + [ids[i]];
        if ids[i] in LinkedTo(t, owner) {
          assert ids[i] in LinkedTo(links, owner) || ids[i] in ids[..i];
          return None;
        }
        assert LinkedTo(t, owner) + [ids[i]] == LinkedTo(links, owner) + ids[..i+1];
        t := t[owner := LinkedTo(t, owner) + [ids[i]]];
      }
      assert ids[..|ids|] == ids;
      return Some(t);
    }

    /** The loop over `slices.Contains`: whether every id is among the operator's menus. */
    static method AllAuthorized(operatorMenuIds: seq<Id>, menuIds: seq<Id>) returns (ok: bool)
      ensures ok <==> forall i :: 0 <= i < |menuIds| ==> menuIds[i] in operatorMenuIds
    {
      for i := 0 to |menuIds|
        invariant forall k :: 0 <= k < i ==> menuIds[k] in operatorMenuIds
      {
        if menuIds[i] !in operatorMenuIds {
          return false;
        }
      }
      return true;
    }

    // ----- Users -----

    method CreateUser(p: UserParam) returns (r: Result<Id, Error>)
      modifies this
      ensures r == IdOf(Answer(old(db), OpCreateUser(p)))
      ensures State() == Cache.Settled(old(State()), OpCreateUser(p))
      ensures old(Valid()) ==> Valid()
    {
      hide Cache.CacheInv;
      Cache.SettledKeepsInv(State(), OpCreateUser(p));
      if NameTelTaken(db.users, p.username, p.tel, 0) {
        return Err(UserNameTelExist);
      }
      var tx := db;
      if |p.roleIds| > 0 {
        var n := CountByIds(tx.roles.Keys, p.roleIds);
        if n != |p.roleIds| {
          return Err(UserRoleNotExist);
        }
      }
      var id := tx.nextUser;
      tx := tx.(users := tx.users[id := User(p.username, p.tel)], nextUser := id + 1);
      if |p.roleIds| > 0 {
        var links := InsertRows(tx.userRoles, id, p.roleIds);
        if links.None? {
          return Err(LinkInsertFailed);
        }
        tx := tx.(userRoles := links.value);
      }
      db := tx;
      return Ok(id);
    }

    method UpdateUser(p: UserParam) returns (r: Result<Id, Error>)
      modifies this
      ensures r == IdOf(Answer(old(db), OpUpdateUser(p)))
      ensures State() == Cache.Settled(old(State()), OpUpdateUser(p))
      ensures old(Valid()) ==> Valid()
    {
      hide Cache.CacheInv;
      Cache.SettledKeepsInv(State(), OpUpdateUser(p));
      if p.id <= 0 {
        return Err(UserNotFound);
      }
      if p.id !in db.users {
        return Err(UserQueryFailed);
      }
      if NameTelTaken(db.users, p.username, p.tel, p.id) {
        return Err(UserNameTelExist);
      }
      var tx := db;
      if |p.roleIds| > 0 {
        var n := CountByIds(tx.roles.Keys, p.roleIds);
        if n != |p.roleIds| {
          return Err(UserRoleNotExist);
        }
      }
      tx := tx.(users := tx.users[p.id := User(p.username, p.tel)]);
      tx := tx.(userRoles := tx.userRoles - {p.id});
      if |p.roleIds| > 0 {
        var links := InsertRows(tx.userRoles, p.id, p.roleIds);
        if links.None? {
          return Err(LinkInsertFailed);
        }
        tx := tx.(userRoles := links.value);
      }
      db := tx;
      userCache := userCache - {p.id};
      return Ok(p.id);
    }

    method DeleteUser(operator: Id, id: Id) returns (r: Result<Id, Error>)
      modifies this
      ensures r == IdOf(Answer(old(db), OpDeleteUser(operator, id)))
      ensures State() == Cache.Settled(old(State()), OpDeleteUser(operator, id))
      ensures old(Valid()) ==> Valid()
    {
      hide Cache.CacheInv;
      Cache.SettledKeepsInv(State(), OpDeleteUser(operator, id));
      if id <= 0 {
        return Err(UserNotFound);
      }
      if id == operator {
        return Err(DeleteSelf);
      }
      if id !in db.users {
        return Err(UserNotFound);
      }
      var tx := db;
      tx := tx.(users := tx.users - {id});
      tx := tx.(userRoles := tx.userRoles - {id});
      db := tx;
      userCache := userCache - {id};
      return Ok(id);
    }

    // ----- Roles -----

    method CreateRole(operator: Id, p: RoleParam) returns (r: Result<Id, Error>)
      modifies this
      ensures r == IdOf(Answer(old(db), OpCreateRole(operator, p)))
      ensures State() == Cache.Settled(old(State()), OpCreateRole(operator, p))
      ensures old(Valid()) ==> Valid()
    {
      hide Cache.CacheInv;
      Cache.SettledKeepsInv(State(), OpCreateRole(operator, p));
      if CodeTaken(db.roles, p.code, 0) {
        return Err(RoleCodeUsed);
      }
      var tx := db;
      if |p.menuIds| > 0 {
        var n := CountByIds(tx.menus.Keys, p.menuIds);
        if n != |p.menuIds| {
          return Err(RoleMenuNotExist);
        }
        var ok := AllAuthorized(UserMenuIds(tx, operator), p.menuIds);
        if !ok {
          return Err(RoleMenuNotAuthorized);
        }
      }
      var id := tx.nextRole;
      tx := tx.(roles := tx.roles[id := Role(p.code, p.name)], nextRole := id + 1);
      if |p.menuIds| > 0 {
        var links := InsertRows(tx.roleMenus, id, p.menuIds);
        if links.None? {
          return Err(LinkInsertFailed);
        }
        tx := tx.(roleMenus := links.value);
      }
      db := tx;
      return Ok(id);
    }

    method UpdateRole(operator: Id, p: RoleParam) returns (r: Result<Id, Error>)
      modifies this
      ensures r == IdOf(Answer(old(db), OpUpdateRole(operator, p)))
      ensures State() == Cache.Settled(old(State()), OpUpdateRole(operator, p))
      ensures old(Valid()) ==> Valid()
    {
      hide Cache.CacheInv;
      Cache.SettledKeepsInv(State(), OpUpdateRole(operator, p));
      if p.id <= 0 {
        return Err(RoleIdInvalid);
      }
      if CodeTaken(db.roles, p.code, p.id) {
        return Err(RoleCodeUsed);
      }
      if p.id !in db.roles {
        return Err(RoleNotFound);
      }
      var tx := db;
      if |p.menuIds| > 0 {
        var n := CountByIds(tx.menus.Keys, p.menuIds);
        if n != |p.menuIds| {
          return Err(RoleMenuNotExist);
        }
        var isSuperAdmin := IsSuperAdmin(tx, operator);
        if !isSuperAdmin {
          var ok := AllAuthorized(UserMenuIds(tx, operator), p.menuIds);
          if !ok {
            return Err(RoleMenuNotAuthorized);
          }
        }
      }
      tx := tx.(roles := tx.roles[p.id := Role(p.code, p.name)]);
      tx := tx.(roleMenus := tx.roleMenus - {p.id});
      if |p.menuIds| > 0 {
        var links := InsertRows(tx.roleMenus, p.id, p.menuIds);
        if links.None? {
          return Err(LinkInsertFailed);
        }
        tx := tx.(roleMenus := links.value);
      }
      db := tx;
      roleCache := roleCache - {p.id};
      return Ok(p.id);
    }

    method DeleteRole(id: Id) returns (r: Result<Id, Error>)
      modifies this
      ensures r == IdOf(Answer(old(db), OpDeleteRole(id)))
      ensures State() == Cache.Settled(old(State()), OpDeleteRole(id))
      ensures old(Valid()) ==> Valid()
    {
      hide Cache.CacheInv;
      Cache.SettledKeepsInv(State(), OpDeleteRole(id));
      if id <= 0 {
        return Err(RoleIdInvalid);
      }
      if id == SUPER_ADMIN {
        return Err(SuperAdminRoleCannotDelete);
      }
      if id !in db.roles {
        return Err(RoleNotFound);
      }
      var tx := db;
      if IsUsed(tx.userRoles, id) {
        return Err(RoleUsed);
      }
      tx := tx.(roles := tx.roles - {id});
      tx := tx.(roleMenus := tx.roleMenus - {id});
      db := tx;
      roleCache := roleCache - {id};
      return Ok(id);
    }

    // ----- Menus -----

    method CreateMenu(p: Menu) returns (r: Result<Id, Error>)
      modifies this
      ensures r == IdOf(Answer(old(db), OpCreateMenu(p)))
      ensures State() == Cache.Settled(old(State()), OpCreateMenu(p))
      ensures old(Valid()) ==> Valid()
    {
      hide Cache.CacheInv;
      Cache.SettledKeepsInv(State(), OpCreateMenu(p));
      if p.id > 0 && p.parentId == p.id {
        return Err(MenuParentSelf);
      }
      var tx := db;
      if p.parentId > 0 {
        if p.parentId !in tx.menus {
          return Err(MenuParentInvalid);
        }
      }
      if p.perms != "" {
        if PermsTaken(tx.menus, p.perms, 0) {
          return Err(MenuPermsExist);
        }
      }
      if p.path != "" {
        if PathTaken(tx.menus, p.path, 0) {
          return Err(MenuPathExist);
        }
      }
      var id := tx.nextMenu;
      tx := tx.(menus := tx.menus[id := p.(id := id)], nextMenu := id + 1);
      db := tx;
      tree := None;
      return Ok(id);
    }

    /** After the commit the tree goes first, then the entries of the roles found to have the menu. */
    method UpdateMenu(p: Menu) returns (r: Result<Id, Error>)
      modifies this
      ensures r == IdOf(Answer(old(db), OpUpdateMenu(p)))
      ensures State() == Cache.Settled(old(State()), OpUpdateMenu(p))
      ensures old(Valid()) ==> Valid()
    {
      hide Cache.CacheInv;
      Cache.SettledKeepsInv(State(), OpUpdateMenu(p));
      if p.id <= 0 {
        return Err(MenuIdInvalid);
      }
      if p.id !in db.menus {
        return Err(MenuNotFound);
      }
      var tx := db;
      if p.parentId > 0 {
        if p.parentId == p.id {
          return Err(MenuParentSelf);
        }
        if p.parentId !in tx.menus {
          return Err(MenuParentInvalid);
        }
      }
      if p.perms != "" {
        if PermsTaken(tx.menus, p.perms, p.id) {
          return Err(MenuPermsExist);
        }
      }
      if p.path != "" {
        if PathTaken(tx.menus, p.path, p.id) {
          return Err(MenuPathExist);
        }
      }
      tx := tx.(menus := tx.menus[p.id := p]);
      db := tx;
      tree := None;
      DropBoundRoles(p.id);
      return Ok(p.id);
    }

    method DropBoundRoles(menu: Id)
      modifies this`roleCache
      ensures roleCache == old(roleCache) - Cache.BoundRoles(db.roleMenus, menu)
    {
      var roleIds := Cache.BoundRoles(db.roleMenus, menu);
      ghost var gone := {};
      while roleIds != {}
        invariant roleIds + gone == Cache.BoundRoles(db.roleMenus, menu)
        invariant roleCache == old(roleCache) - gone
        decreases roleIds
      {
        assert (forall r :: r !in roleIds) ==> roleIds == {};
        var roleId :| roleId in roleIds;
        roleCache := roleCache - {roleId};
        roleIds, gone := roleIds - {roleId}, gone + {roleId};
      }
      assert gone == Cache.BoundRoles(db.roleMenus, menu);
    }

    method DeleteMenu(id: Id) returns (r: Result<Id, Error>)
      modifies this
      ensures r == IdOf(Answer(old(db), OpDeleteMenu(id)))
      ensures State() == Cache.Settled(old(State()), OpDeleteMenu(id))
      ensures old(Valid()) ==> Valid()
    {
      hide Cache.CacheInv;
      Cache.SettledKeepsInv(State(), OpDeleteMenu(id));
      if id <= 0 {
        return Err(MenuIdInvalid);
      }
      if id !in db.menus {
        return Err(MenuNotFound);
      }
      var tx := db;
      if HasChildren(tx.menus, id) {
        return Err(MenuHasChildren);
      }
      if IsUsed(tx.roleMenus, id) {
        return Err(MenuUsedByRole);
      }
      tx := tx.(menus := tx.menus - {id});
      db := tx;
      tree := None;
      return Ok(id);
    }

    // ----- Reads through the caches -----

    method GetRoleIds(user: Id) returns (r: Result<seq<Id>, Error>)
      modifies this`userCache
      ensures if user <= 0 then r == Err(UserNotFound) && userCache == old(userCache)
              else r == Ok(Cache.RolesSeen(old(State()), user)) && userCache == old(userCache)[user := r.value]
      ensures 0 < user < db.nextUser && user !in old(userCache) ==>
                State() == Cache.Apply(old(State()), Cache.FillUser(user))
      ensures old(Valid()) && user < db.nextUser ==> Valid()
    {
      hide Cache.CacheInv;
      if Valid() && 0 < user < db.nextUser {
        Cache.UserReadKeepsInv(State(), user);
      }
      if user <= 0 {
        return Err(UserNotFound);
      }
      if user in userCache {
        return Ok(userCache[user]);
      }
      var roleIds := LinkedTo(db.userRoles, user);
      userCache := userCache[user := roleIds];
      return Ok(roleIds);
    }

    method GetRoleMenus(role: Id) returns (menus: seq<Menu>)
      modifies this`roleCache
      ensures menus == Cache.MenusSeen(old(State()), role) && roleCache == old(roleCache)[role := menus]
      ensures 0 < role < db.nextRole && role !in old(roleCache) ==>
                State() == Cache.Apply(old(State()), Cache.FillRole(role))
      ensures old(Valid()) ==> Cache.HasRows(menus, db, role)
      ensures old(Valid()) && 1 <= role < db.nextRole ==> Valid()
    {
      hide Cache.CacheInv;
      hide Cache.HasRows;
      if Valid() {
        Cache.MenusSeenHaveRows(State(), role);
      }
      if Valid() && 1 <= role < db.nextRole {
        Cache.RoleReadKeepsInv(State(), role);
      }
      if role in roleCache {
        return roleCache[role];
      }
      menus := Cache.Rows(db.menus, LinkedTo(db.roleMenus, role));
      roleCache := roleCache[role := menus];
    }

    method GetRolePerms(role: Id) returns (r: Result<seq<string>, Error>)
      modifies this`roleCache
      ensures role <= 0 ==> r == Err(RoleIdInvalid) && roleCache == old(roleCache)
      ensures role > 0 ==>
                && r == Ok(Cache.BtnPerms(Cache.MenusSeen(old(State()), role)))
                && roleCache == old(roleCache)[role := Cache.MenusSeen(old(State()), role)]
      ensures old(Valid()) && role < db.nextRole ==> Valid()
    {
      hide Cache.CacheInv;
      if role <= 0 {
        return Err(RoleIdInvalid);
      }
      var menus := GetRoleMenus(role);
      var perms := [];
      for i := 0 to |menus|
        invariant perms + Cache.BtnPerms(menus[i..]) == Cache.BtnPerms(menus)
      {
        assert menus[i..][1..] == menus[i+1..];
        if menus[i].menuType == BTN && menus[i].perms != "" {
          perms := perms + [menus[i].perms];
        }
      }
      assert menus[|menus|..] == [];
      assert perms + [] == perms;
      return Ok(perms);
    }

    /** Fails only on an id that is not positive; otherwise lists, once each, the permissions seen
        through both caches, and leaves what it read in them. From valid caches they are exactly the
        joined ones. */
    method GetPermsList(user: Id) returns (r: Result<seq<string>, Error>)
      modifies this`userCache, this`roleCache
      ensures user <= 0 ==> r == Err(UserNotFound)
      ensures user > 0 ==>
                var roles := Cache.RolesSeen(old(State()), user);
                && (r.Err? <==> exists i :: 0 <= i < |roles| && roles[i] <= 0)
                && (r.Err? ==> r == Err(RoleIdInvalid))
                && (r.Ok? ==>
                      && (forall p :: p in r.value <==> p in Cache.PermsSeen(old(State()), roles))
                      && (forall i, j :: 0 <= i < j < |r.value| ==> r.value[i] != r.value[j])
                      && State() == Filled(old(State()).(userCache := old(userCache)[user := roles]), roles))
      ensures old(Valid()) && user > 0 ==> r.Ok? && forall p :: p in r.value <==> Cache.Permitted(db, user, p)
      ensures old(Valid()) && user < db.nextUser ==> Valid()
    {
      hide Cache.CacheInv;
      hide Cache.Permitted;
      hide Cache.PermsSeen;
      hide Filled;
      ghost var s := State();
      ReadsOfValid(s, user);
      var found := GetRoleIds(user);
      if found.Err? {
        return Err(found.error);
      }
      var roleIds := found.value;
      UsersDoNotMatter(s, State(), roleIds);
      NothingRead(State(), roleIds);
      if |roleIds| <= 0 {
        return Ok([]);
      }
      var permSet := CollectPerms(roleIds);
      if permSet.Err? {
        return Err(permSet.error);
      }
      var list := Listed(permSet.value);
      return Ok(list);
    }

    /** The loop over the roles, which ends at an id that is not positive. */
    method CollectPerms(roleIds: seq<Id>) returns (r: Result<set<string>, Error>)
      modifies this`roleCache
      ensures r.Err? <==> exists i :: 0 <= i < |roleIds| && roleIds[i] <= 0
      ensures r.Err? ==> r == Err(RoleIdInvalid)
      ensures r.Ok? ==> r.value == Cache.PermsSeen(old(State()), roleIds) && State() == Filled(old(State()), roleIds)
    {
      hide Cache.CacheInv;
      hide Cache.PermsSeen;
      hide Cache.MenusSeen;
      hide Cache.BtnPerms;
      hide Filled;
      ghost var s := State();
      var permSet := {};
      NothingRead(s, roleIds);
      for i := 0 to |roleIds|
        invariant forall k :: 0 <= k < i ==> roleIds[k] > 0
        invariant State() == Filled(s, roleIds[..i])
        invariant permSet + Cache.PermsSeen(s, roleIds[i..]) == Cache.PermsSeen(s, roleIds)
      {
        FilledNext(s, roleIds, i);
        PermsNext(s, roleIds, i);
        var perms := GetRolePerms(roleIds[i]);
        if perms.Err? {
          return Err(perms.error);
        }
        permSet := AddAll(permSet, perms.value);
      }
      return Ok(permSet);
    }

    static method AddAll(seen: set<string>, perms: seq<string>) returns (all: set<string>)
      ensures all == seen + set p | p in perms
    {
      all := seen;
      for i := 0 to |perms|
        invariant all == seen + set p | p in perms[..i]
      {
        assert perms[..i+1] == perms[..i] + [perms[i]];
        all := all + {perms[i]};
      }
      assert perms[..|perms|] == perms;
    }

    /** The members of the set in some order. */
    static method Listed(perms: set<string>) returns (list: seq<string>)
      ensures forall p :: p in list <==> p in perms
      ensures forall i, j :: 0 <= i < j < |list| ==> list[i] != list[j]
    {
      list := [];
      var todo := perms;
      while todo != {}
        invariant todo <= perms
        invariant forall p :: p in list <==> p in perms && p !in todo
        invariant forall i, j :: 0 <= i < j < |list| ==> list[i] != list[j]
        decreases todo
      {
        assert (forall p :: p !in todo) ==> todo == {};
        var p :| p in todo;
        list := list + [p];
        todo := todo - {p};
      }
    }

    /** All rows of the menu table, in some order. */
    static method AllRows(menus: Table) returns (rows: seq<Menu>)
      requires forall m :: m in menus ==> menus[m].id == m
      ensures ByLastId(rows) == menus
    {
      rows := [];
      var todo := menus.Keys;
      ghost var done: Table := map[];
      while todo != {}
        invariant done.Keys + todo == menus.Keys && done.Keys !! todo
        invariant ByLastId(rows) == done && forall m :: m in done ==> done[m] == menus[m]
        decreases todo
      {
        assert (forall m :: m !in todo) ==> todo == {};
        var m :| m in todo;
        ByLastIdNext(rows, menus[m]);
        rows := rows + [menus[m]];
        todo, done := todo - {m}, done[m := menus[m]];
      }
      assert done.Keys == menus.Keys;
      assert done == menus;
    }

    /** The cached tree if there is one; otherwise a tree built from the table, which is then cached. */
    method GetMenuTree() returns (t: Cache.Tree)
      requires forall m :: m in db.menus ==> db.menus[m].id == m
      modifies this`tree
      ensures tree == Some(t)
      ensures if old(tree).Some? then t == old(tree).value else Cache.TreeOf(t, db.menus)
      ensures old(tree).None? ==>
                && WellBuilt(t.shape, db.menus)
                && State() == Cache.Apply(old(State()), Cache.FillTree(t.shape))
      ensures old(Valid()) ==> Cache.TreeOf(t, db.menus) && Valid()
    {
      hide Cache.CacheInv;
      hide WellBuilt;
      ghost var s := State();
      if tree.Some? && Valid() {
        Cache.TreeReadKeepsInv(s, tree.value);
      }
      if tree.Some? {
        return tree.value;
      }
      var rows := AllRows(db.menus);
      var roots, nodeMap := BuildTree(rows);
      t := Cache.Tree(db.menus, ForestOf(roots, nodeMap));
      tree := Some(t);
      if Cache.CacheInv(s) {
        Cache.TreeReadKeepsInv(s, t);
      }
    }

    /** The chosen rows of a longer and longer list, each id once. */
    static method Collect(seen: seq<Menu>, menus: seq<Menu>, choose: Menu -> bool, ghost before: seq<Menu>)
      returns (r: seq<Menu>)
      requires seen == FirstById(before, choose)
      ensures r == FirstById(before + menus, choose)
    {
      r := seen;
      assert before + menus[..0] == before;
      for i := 0 to |menus|
        invariant r == FirstById(before + menus[..i], choose)
      {
        assert (before + menus[..i+1])[..|before|+i] == before + menus[..i];
        if choose(menus[i]) && !HasId(r, menus[i].id) {
          r := r + [menus[i]];
        }
      }
      assert menus[..|menus|] == menus;
    }

    /** A user's page: over all its roles, each menu or directory row once and each button once, the
        first time it is seen; and the rows arranged as a tree. */
    method GetUserPage(user: Id) returns (r: Result<Page, Error>)
      modifies this`roleCache
      ensures r.Err? <==> user !in db.users || user <= 0
      ensures r.Err? ==> r == Err(UserNotFound) && roleCache == old(roleCache)
      ensures r.Ok? ==>
                var roles := LinkedTo(db.userRoles, user);
                var all := AllMenusSeen(old(State()), roles);
                && State() == Filled(old(State()), roles)
                && r.value.menus == FirstById(all, IsPage)
                && r.value.buttons == AsButtons(FirstById(all, IsButton))
                && WellBuilt(r.value.shape, ByLastId(r.value.menus))
      ensures old(Valid()) ==> Valid() && (r.Ok? ==> ShowsHeld(r.value, db, user))
    {
      hide Cache.CacheInv;
      if user <= 0 || user !in db.users {
        return Err(UserNotFound);
      }
      var roles := LinkedTo(db.userRoles, user);
      ghost var s := State();
      if Valid() {
        Cache.RolesExist(s, user);
        FilledKeepsInv(s, roles);
        SeenIsHeld(s, user);
      }
      ghost var all := [];
      var pages, buttons := [], [];
      NothingSeen(s, roles);
      hide FirstById;
      hide Filled;
      hide AllMenusSeen;
      hide Cache.MenusSeen;
      for i := 0 to |roles|
        invariant State() == Filled(s, roles[..i]) && all == AllMenusSeen(s, roles[..i])
        invariant pages == FirstById(all, IsPage) && buttons == FirstById(all, IsButton)
      {
        FilledNext(s, roles, i);
        SeenNext(s, roles, i);
        var menus := GetRoleMenus(roles[i]);
        pages := Collect(pages, menus, IsPage, all);
        buttons := Collect(buttons, menus, IsButton, all);
        all := all + menus;
      }
      assert roles[..|roles|] == roles;
      var roots, nodeMap := BuildTree(pages);
      r := Ok(Page(pages, ForestOf(roots, nodeMap), AsButtons(buttons)));
      if Cache.CacheInv(s) {
        PageShowsHeld(r.value, all, s.db, user);
      }
    }
  }
}
