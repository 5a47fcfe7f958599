/** Menu rows. */
module Menus {
  import opened Hierarchy

  type Id = int

  const DIR := "Dir"
  const MENU := "Menu"
  const BTN := "Btn"

  /** A missing path, icon or permission mark is the empty string. */
  datatype Menu = Menu(id: Id, parentId: Id, menuType: string, name: string, path: string, icon: string,
                       perms: string, sortOrder: int)

  type Table = map<Id, Menu>

  function ParentsOf(menus: Table): Parents {
    map id | id in menus :: menus[id].parentId
  }

  /** What a map filled from the rows in order holds: the last row of each id. */
  function ByLastId(rows: seq<Menu>): (t: Table)
    ensures forall id :: id in t ==> t[id].id == id && t[id] in rows
    ensures forall m :: m in rows ==> m.id in t
  {
    if rows == [] then map[]
    else
      var m := rows[|rows|-1];
      ByLastId(rows[..|rows|-1])[m.id := m]
  }
}
