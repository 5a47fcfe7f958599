/** The dictionary tables, and the cached item list of each code. */
module Dictionary {
  import opened Options

  type Id = int

  datatype Dict = Dict(code: string, name: string)

  /** `dictCode` repeats the code of the item's dictionary. */
  datatype Item = Item(id: Id, dictId: Id, dictCode: string, itemCode: string, itemName: string, sortOrder: int)

  type Items = map<Id, Item>

  datatype Db = Db(dicts: map<Id, Dict>, items: Items, nextDict: Id, nextItem: Id)

  datatype Error = DictCodeExist | DictNotFound | QueryFailed | ItemCodeExist | ItemNotFound | ItemRewriteFailed

  datatype Done = Done(db: Db, id: Id)

  type Reply = Result<Done, Error>

  datatype ItemParam = ItemParam(id: Id, dictId: Id, itemCode: string, itemName: string, sortOrder: int)

  // ----- The queries -----

  predicate CodeTaken(dicts: map<Id, Dict>, code: string, except: Id) {
    exists d :: d in dicts && (except > 0 ==> d != except) && dicts[d].code == code
  }

  predicate ItemCodeTaken(items: Items, dictId: Id, itemCode: string, except: Id) {
    exists i :: i in items && (except > 0 ==> i != except) && items[i].dictId == dictId && items[i].itemCode == itemCode
  }

  /** The unique key on (dict_code, item_code). */
  predicate PairsUnique(items: Items) {
    forall i, j :: i in items && j in items && i != j ==>
      items[i].dictCode != items[j].dictCode || items[i].itemCode != items[j].itemCode
  }

  /** Ordered by (SortOrder, ID). */
  predicate Before(a: Item, b: Item) {
    a.sortOrder < b.sortOrder || (a.sortOrder == b.sortOrder && a.id < b.id)
  }

  predicate Ordered(list: seq<Item>) {
    forall i, j :: 0 <= i < j < |list| ==>
      list[i].sortOrder < list[j].sortOrder || (list[i].sortOrder == list[j].sortOrder && list[i].id < list[j].id)
  }

  predicate HasCode(items: Items, code: string, item: Item) {
    item.id in items && items[item.id] == item && item.dictCode == code
  }

  /** The list holds exactly the items of the code, in order. */
  ghost predicate IsListOf(list: seq<Item>, items: Items, code: string) {
    Ordered(list) && forall item :: item in list <==> HasCode(items, code, item)
  }

  // ----- The transactions -----

  function CreateDict(db: Db, p: Dict): Reply {
    if CodeTaken(db.dicts, p.code, 0) then Err(DictCodeExist)
    else Ok(Done(db.(dicts := db.dicts[db.nextDict := p], nextDict := db.nextDict + 1), db.nextDict))
  }

  /** Gives all items of the dictionary its new code. */
  function Recoded(items: Items, dictId: Id, code: string): Items {
    map i | i in items :: if items[i].dictId == dictId then items[i].(dictCode := code) else items[i]
  }

  function UpdateDict(db: Db, id: Id, p: Dict): Reply {
    if id <= 0 || id !in db.dicts then Err(DictNotFound)
    else if CodeTaken(db.dicts, p.code, id) then Err(DictCodeExist)
    else
      var items := if db.dicts[id].code != p.code then Recoded(db.items, id, p.code) else db.items;
      if db.dicts[id].code != p.code && !PairsUnique(items) then Err(ItemRewriteFailed)
      else Ok(Done(db.(dicts := db.dicts[id := p], items := items), id))
  }

  function WithoutDict(items: Items, dictId: Id): Items {
    map i | i in items && items[i].dictId != dictId :: items[i]
  }

  function DeleteDict(db: Db, id: Id): Reply {
    if id <= 0 || id !in db.dicts then Err(DictNotFound)
    else Ok(Done(db.(items := WithoutDict(db.items, id), dicts := db.dicts - {id}), id))
  }

  function CreateItem(db: Db, p: ItemParam): Reply {
    if p.dictId <= 0 then Err(QueryFailed)
    else if p.dictId !in db.dicts then Err(DictNotFound)
    else if ItemCodeTaken(db.items, p.dictId, p.itemCode, 0) then Err(ItemCodeExist)
    else
      var item := Item(db.nextItem, p.dictId, db.dicts[p.dictId].code, p.itemCode, p.itemName, p.sortOrder);
      Ok(Done(db.(items := db.items[db.nextItem := item], nextItem := db.nextItem + 1), db.nextItem))
  }

  /** The item stays in its dictionary, whatever dictionary the caller names. */
  function UpdateItem(db: Db, p: ItemParam): Reply {
    if p.id <= 0 || p.id !in db.items then Err(ItemNotFound)
    else
      var was := db.items[p.id];
      if ItemCodeTaken(db.items, was.dictId, p.itemCode, p.id) then Err(ItemCodeExist)
      else
        var item := Item(p.id, was.dictId, was.dictCode, p.itemCode, p.itemName, p.sortOrder);
        Ok(Done(db.(items := db.items[p.id := item]), p.id))
  }

  function DeleteItem(db: Db, id: Id): Reply {
    if id <= 0 || id !in db.items then Err(ItemNotFound)
    else Ok(Done(db.(items := db.items - {id}), id))
  }

  datatype Op =
    | OpCreateDict(p: Dict)
    | OpUpdateDict(id: Id, p: Dict)
    | OpDeleteDict(id: Id)
    | OpCreateItem(ip: ItemParam)
    | OpUpdateItem(ip: ItemParam)
    | OpDeleteItem(id: Id)

  function Answer(db: Db, op: Op): Reply {
    match op
    case OpCreateDict(p) => CreateDict(db, p)
    case OpUpdateDict(id, p) => UpdateDict(db, id, p)
    case OpDeleteDict(id) => DeleteDict(db, id)
    case OpCreateItem(p) => CreateItem(db, p)
    case OpUpdateItem(p) => UpdateItem(db, p)
    case OpDeleteItem(id) => DeleteItem(db, id)
  }

  function CodeOf(db: Db, id: Id): set<string> {
    if id in db.dicts then {db.dicts[id].code} else {}
  }

  function ItemCodeOf(db: Db, id: Id): set<string> {
    if id in db.items then {db.items[id].dictCode} else {}
  }

  /** The codes whose cached lists the call deletes after its commit, read before it. */
  function OwedCodes(db: Db, op: Op): set<string> {
    match op
    case OpCreateDict(_) => {}
    case OpUpdateDict(id, p) => if CodeOf(db, id) == {p.code} then {} else CodeOf(db, id) + {p.code}
    case OpDeleteDict(id) => CodeOf(db, id)
    case OpCreateItem(p) => CodeOf(db, p.dictId)
    case OpUpdateItem(p) => ItemCodeOf(db, p.id)
    case OpDeleteItem(id) => ItemCodeOf(db, id)
  }

  // ----- The tables over every run -----

  ghost predicate DictsInv(dicts: map<Id, Dict>, next: Id) {
    && 1 <= next
    && (forall d :: d in dicts ==> 1 <= d < next)
    && (forall d, e :: d in dicts && e in dicts && d != e ==> dicts[d].code != dicts[e].code)
  }

  /** Each item belongs to a dictionary and carries its code. */
  ghost predicate ItemsInv(items: Items, dicts: map<Id, Dict>, next: Id) {
    && 1 <= next
    && (forall i :: i in items ==> 1 <= i < next && ItemFits(items[i], i, dicts))
    && PairsUnique(items)
  }

  predicate ItemFits(item: Item, id: Id, dicts: map<Id, Dict>) {
    item.id == id && item.dictId in dicts && item.dictCode == dicts[item.dictId].code
  }

  ghost predicate Inv(db: Db) {
    DictsInv(db.dicts, db.nextDict) && ItemsInv(db.items, db.dicts, db.nextItem)
  }

  lemma CreateDictKeepsInv(db: Db, p: Dict)
    requires Inv(db)
    ensures CreateDict(db, p).Ok? ==> Inv(CreateDict(db, p).value.db)
  {
  }

  /** Recoding a dictionary never collides with the unique key, because no other one has the code. */
  lemma RecodingFits(db: Db, id: Id, p: Dict)
    requires Inv(db) && id in db.dicts && id > 0 && !CodeTaken(db.dicts, p.code, id)
    ensures ItemsInv(Recoded(db.items, id, p.code), db.dicts[id := p], db.nextItem)
  {
    var items := Recoded(db.items, id, p.code);
    forall i | i in items ensures ItemFits(items[i], i, db.dicts[id := p]) {
      assert ItemFits(db.items[i], i, db.dicts);
    }
    forall i, j | i in items && j in items && i != j
      ensures items[i].dictCode != items[j].dictCode || items[i].itemCode != items[j].itemCode
    {
      assert ItemFits(db.items[i], i, db.dicts) && ItemFits(db.items[j], j, db.dicts);
      assert db.items[i].dictId != id ==> db.items[i].dictCode != p.code;
      assert db.items[j].dictId != id ==> db.items[j].dictCode != p.code;
    }
  }

  lemma SameCodeFits(db: Db, id: Id, p: Dict)
    requires Inv(db) && id in db.dicts && db.dicts[id].code == p.code
    ensures ItemsInv(db.items, db.dicts[id := p], db.nextItem)
  {
    forall i | i in db.items ensures ItemFits(db.items[i], i, db.dicts[id := p]) {
      assert ItemFits(db.items[i], i, db.dicts);
    }
  }

  lemma UpdateDictKeepsInv(db: Db, id: Id, p: Dict)
    requires Inv(db)
    ensures UpdateDict(db, id, p) != Err(ItemRewriteFailed)
    ensures UpdateDict(db, id, p).Ok? ==> Inv(UpdateDict(db, id, p).value.db)
  {
    if id > 0 && id in db.dicts && !CodeTaken(db.dicts, p.code, id) {
      if db.dicts[id].code != p.code {
        RecodingFits(db, id, p);
      } else {
        SameCodeFits(db, id, p);
      }
      RecodeKeepsDicts(db.dicts, db.nextDict, id, p);
    }
  }

  lemma RecodeKeepsDicts(dicts: map<Id, Dict>, next: Id, id: Id, p: Dict)
    requires DictsInv(dicts, next) && id in dicts && !CodeTaken(dicts, p.code, id)
    ensures DictsInv(dicts[id := p], next)
  {
    forall d | d in dicts && d != id ensures dicts[d].code != p.code {
    }
  }

  lemma DeleteDictKeepsInv(db: Db, id: Id)
    requires Inv(db)
    ensures DeleteDict(db, id).Ok? ==> Inv(DeleteDict(db, id).value.db)
  {
    var items := WithoutDict(db.items, id);
    forall i | i in items ensures ItemFits(items[i], i, db.dicts - {id}) {
      assert ItemFits(db.items[i], i, db.dicts);
    }
  }

  /** An item code that is new within its dictionary makes a new pair. */
  lemma WriteItemFits(items: Items, dicts: map<Id, Dict>, next: Id, item: Item, last: Id)
    requires forall d, e :: d in dicts && e in dicts && d != e ==> dicts[d].code != dicts[e].code
    requires ItemsInv(items, dicts, next) && ItemFits(item, item.id, dicts) && 1 <= item.id < last && next <= last
    requires forall i :: i in items && i != item.id && items[i].dictId == item.dictId ==>
               items[i].itemCode != item.itemCode
    ensures ItemsInv(items[item.id := item], dicts, last)
  {
    forall i | i in items && i != item.id
      ensures items[i].dictCode != item.dictCode || items[i].itemCode != item.itemCode
    {
      assert ItemFits(items[i], i, dicts);
    }
  }

  lemma CreateItemKeepsInv(db: Db, p: ItemParam)
    requires Inv(db)
    ensures CreateItem(db, p).Ok? ==> Inv(CreateItem(db, p).value.db)
  {
    if CreateItem(db, p).Ok? {
      var item := Item(db.nextItem, p.dictId, db.dicts[p.dictId].code, p.itemCode, p.itemName, p.sortOrder);
      WriteItemFits(db.items, db.dicts, db.nextItem, item, db.nextItem + 1);
    }
  }

  lemma UpdateItemKeepsInv(db: Db, p: ItemParam)
    requires Inv(db)
    ensures UpdateItem(db, p).Ok? ==> Inv(UpdateItem(db, p).value.db)
  {
    if UpdateItem(db, p).Ok? {
      var was := db.items[p.id];
      assert ItemFits(was, p.id, db.dicts);
      WriteItemFits(db.items, db.dicts, db.nextItem,
                    Item(p.id, was.dictId, was.dictCode, p.itemCode, p.itemName, p.sortOrder), db.nextItem);
    }
  }

  lemma DeleteItemKeepsInv(db: Db, id: Id)
    requires Inv(db)
    ensures DeleteItem(db, id).Ok? ==> Inv(DeleteItem(db, id).value.db)
  {
  }

  /** Codes stay unique, each item keeps the code of its dictionary, and no write is ever refused by
      the unique key on the pair alone. */
  lemma AnswerKeepsInv(db: Db, op: Op)
    requires Inv(db)
    ensures Answer(db, op) != Err(ItemRewriteFailed)
    ensures Answer(db, op).Ok? ==> Inv(Answer(db, op).value.db)
  {
    hide Inv;
    match op {
      case OpCreateDict(p) => CreateDictKeepsInv(db, p);
      case OpUpdateDict(id, p) => UpdateDictKeepsInv(db, id, p);
      case OpDeleteDict(id) => DeleteDictKeepsInv(db, id);
      case OpCreateItem(p) => CreateItemKeepsInv(db, p);
      case OpUpdateItem(p) => UpdateItemKeepsInv(db, p);
      case OpDeleteItem(id) => DeleteItemKeepsInv(db, id);
    }
  }

  /** A dictionary is written exactly when no other has its code, an item exactly when no other item
      of its dictionary has its item code; deleting needs only that the row exists. */
  lemma AcceptedIff(db: Db, op: Op)
    requires Inv(db)
    ensures op.OpCreateDict? ==> (Answer(db, op).Ok? <==> forall d :: d in db.dicts ==> db.dicts[d].code != op.p.code)
    ensures op.OpUpdateDict? ==>
              (Answer(db, op).Ok? <==>
                 op.id in db.dicts && forall d :: d in db.dicts && d != op.id ==> db.dicts[d].code != op.p.code)
    ensures op.OpDeleteDict? ==> (Answer(db, op).Ok? <==> op.id in db.dicts)
    ensures op.OpCreateItem? ==>
              (Answer(db, op).Ok? <==>
                 && op.ip.dictId in db.dicts
                 && forall i :: i in db.items && db.items[i].dictId == op.ip.dictId ==>
                      db.items[i].itemCode != op.ip.itemCode)
    ensures op.OpUpdateItem? ==>
              (Answer(db, op).Ok? <==>
                 && op.ip.id in db.items
                 && forall i :: i in db.items && i != op.ip.id && db.items[i].dictId == db.items[op.ip.id].dictId ==>
                      db.items[i].itemCode != op.ip.itemCode)
    ensures op.OpDeleteItem? ==> (Answer(db, op).Ok? <==> op.id in db.items)
  {
    AnswerKeepsInv(db, op);
  }

  /** A dictionary is written as asked, its items follow its code or go with it, and all other
      dictionaries and items stay as they are. */
  lemma DictWritesTouchOneDict(db: Db, op: Op)
    requires Inv(db) && (op.OpCreateDict? || op.OpUpdateDict? || op.OpDeleteDict?) && Answer(db, op).Ok?
    ensures var Done(after, id) := Answer(db, op).value;
            && (if op.OpCreateDict? then id == db.nextDict < after.nextDict && id !in db.dicts
                else id == op.id && id in db.dicts && after.nextDict == db.nextDict)
            && after.nextItem == db.nextItem && after.dicts - {id} == db.dicts - {id}
            && (if op.OpDeleteDict? then id !in after.dicts else id in after.dicts && after.dicts[id] == op.p)
            && (forall i :: i in after.items ==> i in db.items)
            && (forall i :: i in db.items && db.items[i].dictId != id ==>
                  i in after.items && after.items[i] == db.items[i])
            && (forall i :: i in db.items && db.items[i].dictId == id ==>
                  if op.OpDeleteDict? then i !in after.items
                  else i in after.items && after.items[i] == db.items[i].(dictCode := after.dicts[id].code))
            && (op.OpDeleteDict? ==> forall i :: i in after.items ==> after.items[i].dictId != op.id)
  {
    assert forall i :: i in db.items ==> ItemFits(db.items[i], i, db.dicts);
  }

  /** An item is written as asked, in its own dictionary, and everything else stays as it is. */
  lemma ItemWritesTouchOneItem(db: Db, op: Op)
    requires Inv(db) && (op.OpCreateItem? || op.OpUpdateItem? || op.OpDeleteItem?) && Answer(db, op).Ok?
    ensures var Done(after, id) := Answer(db, op).value;
            && (if op.OpCreateItem? then id == db.nextItem < after.nextItem
                else id in db.items && after.nextItem == db.nextItem)
            && (op.OpUpdateItem? ==> id == op.ip.id)
            && after.dicts == db.dicts && after.nextDict == db.nextDict && after.items - {id} == db.items - {id}
            && (if op.OpDeleteItem? then id == op.id && id !in after.items
                else
                  && id in after.items
                  && after.items[id].itemCode == op.ip.itemCode && after.items[id].itemName == op.ip.itemName
                  && after.items[id].sortOrder == op.ip.sortOrder
                  && after.items[id].dictId == (if op.OpCreateItem? then op.ip.dictId else db.items[id].dictId)
                  && ItemFits(after.items[id], id, db.dicts))
            && (op.OpCreateItem? <==> id !in db.items)
  {
    assert forall i :: i in db.items ==> ItemFits(db.items[i], i, db.dicts);
  }

  /** A refused write answers the first of its errors that applies. */
  lemma WriteErrors(db: Db, op: Op)
    requires Inv(db) && Answer(db, op).Err?
    ensures op.OpCreateDict? ==> Answer(db, op).error == DictCodeExist
    ensures op.OpUpdateDict? ==>
              Answer(db, op).error == if op.id !in db.dicts then DictNotFound else DictCodeExist
    ensures op.OpDeleteDict? ==> Answer(db, op).error == DictNotFound
    ensures op.OpCreateItem? ==>
              Answer(db, op).error ==
              if op.ip.dictId <= 0 then QueryFailed
              else if op.ip.dictId !in db.dicts then DictNotFound
              else ItemCodeExist
    ensures op.OpUpdateItem? ==>
              Answer(db, op).error == if op.ip.id !in db.items then ItemNotFound else ItemCodeExist
    ensures op.OpDeleteItem? ==> Answer(db, op).error == ItemNotFound
  {
    AnswerKeepsInv(db, op);
  }

  /** A committed write deletes the lists of these codes: the old and the new one of a dictionary whose code
      changes, the one of a deleted dictionary, and the one of an item's dictionary. */
  lemma OwedCodesAre(db: Db, op: Op, code: string)
    requires Inv(db) && Answer(db, op).Ok?
    ensures code in OwedCodes(db, op) <==>
              match op
              case OpCreateDict(_) => false
              case OpUpdateDict(id, p) => db.dicts[id].code != p.code && (code == db.dicts[id].code || code == p.code)
              case OpDeleteDict(id) => code == db.dicts[id].code
              case OpCreateItem(ip) => code == db.dicts[ip.dictId].code
              case OpUpdateItem(ip) => code == db.dicts[db.items[ip.id].dictId].code
              case OpDeleteItem(id) => code == db.dicts[db.items[id].dictId].code
  {
    assert forall i :: i in db.items ==> ItemFits(db.items[i], i, db.dicts);
  }

  /** A write changes only the item lists of the codes it then deletes from the cache. */
  lemma OtherListsUnchanged(db: Db, op: Op, code: string, list: seq<Item>)
    requires Inv(db) && Answer(db, op).Ok? && code !in OwedCodes(db, op)
    ensures IsListOf(list, db.items, code) <==> IsListOf(list, Answer(db, op).value.db.items, code)
  {
    forall item ensures HasCode(db.items, code, item) <==> HasCode(Answer(db, op).value.db.items, code, item) {
      OtherItemsUnchanged(db, op, code, item);
    }
  }

  lemma OtherItemsUnchanged(db: Db, op: Op, code: string, item: Item)
    requires Inv(db) && Answer(db, op).Ok? && code !in OwedCodes(db, op)
    ensures HasCode(db.items, code, item) <==> HasCode(Answer(db, op).value.db.items, code, item)
  {
    assert forall i :: i in db.items ==> ItemFits(db.items[i], i, db.dicts);
  }

  // ----- A list is determined by what it holds -----

  lemma {:induction false} ListsAreUnique(a: seq<Item>, b: seq<Item>)
    requires Ordered(a) && Ordered(b) && forall item :: item in a <==> item in b
    ensures a == b
  {
    HeadIsIn(a);
    HeadIsIn(b);
    if a == [] {
    } else {
      FirstIsLeast(a, b[0]);
      FirstIsLeast(b, a[0]);
      assert a == [a[0]] + a[1..] && b == [b[0]] + b[1..];
      forall item ensures item in a[1..] <==> item in b[1..] {
        RestHolds(a, item);
        RestHolds(b, item);
      }
      ListsAreUnique(a[1..], b[1..]);
    }
  }

  lemma HeadIsIn(a: seq<Item>)
    ensures a != [] ==> a[0] in a
  {
  }

  lemma FirstIsLeast(a: seq<Item>, item: Item)
    requires Ordered(a) && a != [] && item in a
    ensures item == a[0] || Before(a[0], item)
  {
  }

  lemma RestHolds(a: seq<Item>, item: Item)
    requires Ordered(a) && a != []
    ensures item in a[1..] <==> item in a && item != a[0]
  {
    if item in a && item != a[0] {
      var i :| 0 <= i < |a| && a[i] == item;
      assert a[1..][i-1] == item;
    }
  }

  // ----- The cache -----

  type Writer = nat

  /** `duties` holds, for each writer that has committed, the codes it has yet to delete. */
  datatype World = World(db: Db, cache: map<string, seq<Item>>, duties: map<Writer, set<string>>)

  datatype Event =
    | Commit(w: Writer, op: Op)
    | Drop(w: Writer)
    | Fill(code: string, list: seq<Item>)
    | Expire(code: string)

  ghost predicate Enabled(s: World, e: Event) {
    match e
    case Commit(w, _) => w !in s.duties
    case Drop(w) => w in s.duties
    case Fill(code, list) => code != "" && IsListOf(list, s.db.items, code)
    case Expire(_) => true
  }

  function Apply(s: World, e: Event): World
    requires e.Drop? ==> e.w in s.duties
  {
    match e
    case Commit(w, op) =>
      (match Answer(s.db, op)
       case Err(_) => s
       case Ok(done) => s.(db := done.db, duties := s.duties[w := OwedCodes(s.db, op)]))
    case Drop(w) => s.(cache := s.cache - s.duties[w], duties := s.duties - {w})
    case Fill(code, list) => s.(cache := s.cache[code := list])
    case Expire(code) => s.(cache := s.cache - {code})
  }

  ghost function Run(s: World, es: seq<Event>): World {
    if es == [] then s
    else
      var t := Run(s, es[..|es|-1]);
      if Enabled(t, es[|es|-1]) then Apply(t, es[|es|-1]) else t
  }

  ghost predicate ValidRun(s: World, es: seq<Event>) {
    es == [] || (ValidRun(s, es[..|es|-1]) && Enabled(Run(s, es[..|es|-1]), es[|es|-1]))
  }

  function Start(db: Db): World {
    World(db, map[], map[])
  }

  ghost predicate Owes(duties: map<Writer, set<string>>, code: string) {
    exists w :: w in duties && code in duties[w]
  }

  ghost predicate EntryRight(s: World, code: string)
    requires code in s.cache
  {
    IsListOf(s.cache[code], s.db.items, code) || Owes(s.duties, code)
  }

  ghost predicate CacheInv(s: World) {
    Inv(s.db) && forall code :: code in s.cache ==> EntryRight(s, code)
  }

  lemma CommitKeepsInv(s: World, w: Writer, op: Op)
    requires CacheInv(s) && w !in s.duties && Answer(s.db, op).Ok?
    ensures CacheInv(Apply(s, Commit(w, op)))
  {
    hide Inv;
    hide IsListOf;
    hide Answer;
    hide OwedCodes;
    AnswerKeepsInv(s.db, op);
    var t := Apply(s, Commit(w, op));
    assert w in t.duties && t.duties[w] == OwedCodes(s.db, op);
    forall code | code in t.cache ensures EntryRight(t, code) {
      assert EntryRight(s, code);
      if Owes(s.duties, code) {
        var v :| v in s.duties && code in s.duties[v];
        assert v in t.duties && code in t.duties[v];
      } else if code !in OwedCodes(s.db, op) {
        OtherListsUnchanged(s.db, op, code, s.cache[code]);
      }
    }
  }

  lemma DropKeepsInv(s: World, w: Writer)
    requires CacheInv(s) && w in s.duties
    ensures CacheInv(Apply(s, Drop(w)))
  {
    var t := Apply(s, Drop(w));
    forall code | code in t.cache ensures EntryRight(t, code) {
      assert EntryRight(s, code);
      if Owes(s.duties, code) {
        var v :| v in s.duties && code in s.duties[v];
        assert v in t.duties && code in t.duties[v];
      }
    }
  }

  lemma StepKeepsInv(s: World, e: Event)
    requires CacheInv(s) && Enabled(s, e)
    ensures CacheInv(Apply(s, e))
  {
    hide IsListOf;
    hide Inv;
    match e {
      case Commit(w, op) =>
        if Answer(s.db, op).Ok? {
          CommitKeepsInv(s, w, op);
        }
      case Drop(w) => DropKeepsInv(s, w);
      case _ =>
        var t := Apply(s, e);
        forall code | code in t.cache ensures EntryRight(t, code) {
          assert code in s.cache ==> EntryRight(s, code);
        }
    }
  }

  /** Over every run each cached list equals the ordered list of its code, or some committed writer
      still owes its deletion. */
  lemma {:induction false} EveryListIsRightOrOwed(db: Db, es: seq<Event>)
    requires Inv(db) && ValidRun(Start(db), es)
    ensures CacheInv(Run(Start(db), es))
  {
    if es == [] {
    } else {
      EveryListIsRightOrOwed(db, es[..|es|-1]);
      StepKeepsInv(Run(Start(db), es[..|es|-1]), es[|es|-1]);
    }
  }

  /** So, when nothing is owed for it, a cached list is the very list a query would give. */
  lemma CachedListIsTheQueried(db: Db, es: seq<Event>, code: string, list: seq<Item>)
    requires Inv(db) && ValidRun(Start(db), es)
    requires var s := Run(Start(db), es);
             code in s.cache && !Owes(s.duties, code) && IsListOf(list, s.db.items, code)
    ensures Run(Start(db), es).cache[code] == list
  {
    EveryListIsRightOrOwed(db, es);
    assert EntryRight(Run(Start(db), es), code);
    ListsAreUnique(Run(Start(db), es).cache[code], list);
  }

  /** An entry that expires is gone, and no other is. */
  lemma ExpiryDropsOneList(s: World, code: string, other: string)
    ensures var t := Apply(s, Expire(code));
            && t.db == s.db && t.duties == s.duties && code !in t.cache
            && (other != code ==> (other in t.cache <==> other in s.cache))
            && (other != code && other in s.cache ==> t.cache[other] == s.cache[other])
  {
  }

  // ----- The service as methods -----

  /** The commit, and then the deletion of the codes it owes. */
  function Settled(s: World, op: Op): World {
    match Answer(s.db, op)
    case Err(_) => s
    case Ok(done) => s.(db := done.db, cache := s.cache - OwedCodes(s.db, op))
  }

  lemma RunNext(s: World, es: seq<Event>, e: Event)
    requires ValidRun(s, es) && Enabled(Run(s, es), e)
    ensures ValidRun(s, es + [e]) && Run(s, es + [e]) == Apply(Run(s, es), e)
  {
    assert (es + [e])[..|es|] == es;
  }

  /** So a call that nobody interrupts is one of the runs, and in the end it owes nothing. */
  lemma SettledIsARun(s: World, op: Op, w: Writer) returns (es: seq<Event>)
    requires w !in s.duties
    ensures ValidRun(s, es) && Run(s, es) == Settled(s, op)
  {
    RunNext(s, [], Commit(w, op));
    es := [] + [Commit(w, op)];
    if Answer(s.db, op).Ok? {
      assert Run(s, es).duties - {w} == s.duties;
      RunNext(s, es, Drop(w));
      es := es + [Drop(w)];
    }
  }

  lemma SettledKeepsInv(s: World, op: Op)
    requires s.duties == map[]
    ensures CacheInv(s) ==> CacheInv(Settled(s, op))
  {
    hide CacheInv;
    hide Settled;
    if CacheInv(s) {
      SettledIsARunOfTwo(s, op);
      StepKeepsInv(s, Commit(0, op));
      if Answer(s.db, op).Ok? {
        StepKeepsInv(Apply(s, Commit(0, op)), Drop(0));
      }
    }
  }

  lemma SettledIsARunOfTwo(s: World, op: Op)
    requires s.duties == map[]
    ensures var t := Apply(s, Commit(0, op));
            if Answer(s.db, op).Ok? then 0 in t.duties && Settled(s, op) == Apply(t, Drop(0)) else Settled(s, op) == t
  {
    hide Answer;
    hide OwedCodes;
    if Answer(s.db, op).Ok? {
      assert Apply(s, Commit(0, op)).duties - {0} == s.duties;
    }
  }

  function IdOf(reply: Reply): Result<Id, Error> {
    match reply
    case Ok(done) => Ok(done.id)
    case Err(e) => Err(e)
  }

  /** Puts an item before the first one that is not before it. */
  function Placed(list: seq<Item>, item: Item): seq<Item> {
    if list == [] || !Before(list[0], item) then [item] + list else [list[0]] + Placed(list[1..], item)
  }

  lemma {:induction false} PlacedEffect(list: seq<Item>, item: Item)
    requires Ordered(list) && forall i :: 0 <= i < |list| ==> list[i].id != item.id
    ensures Ordered(Placed(list, item))
    ensures forall other :: other in Placed(list, item) <==> other in list || other == item
    ensures Placed(list, item) != []
    ensures Placed(list, item)[0] == item || (list != [] && Placed(list, item)[0] == list[0])
  {
    if list != [] && Before(list[0], item) {
      PlacedEffect(list[1..], item);
      assert list == [list[0]] + list[1..];
      PrependKeepsOrder(list[0], Placed(list[1..], item));
    } else if list != [] {
      PrependKeepsOrder(item, list);
    }
  }

  lemma PrependKeepsOrder(first: Item, rest: seq<Item>)
    requires Ordered(rest) && (rest != [] ==> Before(first, rest[0]))
    ensures Ordered([first] + rest)
  {
    forall i | 0 <= i < |rest| ensures Before(first, rest[i]) {
      assert i > 0 ==> Before(rest[0], rest[i]);
    }
  }

  class DictService {
    var db: Db
    var cache: map<string, seq<Item>>

    ghost function State(): World
      reads this
    {
      World(db, cache, map[])
    }

    /** The tables have their integrity, and every cached list is what they say. */
    ghost predicate Valid()
      reads this
    {
      CacheInv(State())
    }

    constructor (db: Db)
      ensures State() == Start(db)
      ensures Inv(db) ==> Valid()
    {
      this.db := db;
      cache := map[];
    }

    method CreateDict(p: Dict) returns (r: Result<Id, Error>)
      modifies this
      ensures r == IdOf(Answer(old(db), OpCreateDict(p))) && State() == Settled(old(State()), OpCreateDict(p))
      ensures old(Valid()) ==> Valid()
    {
      hide CacheInv;
      SettledKeepsInv(State(), OpCreateDict(p));
      if CodeTaken(db.dicts, p.code, 0) {
        return Err(DictCodeExist);
      }
      var id := db.nextDict;
      db := db.(dicts := db.dicts[id := p], nextDict := id + 1);
      return Ok(id);
    }

    method UpdateDict(id: Id, p: Dict) returns (r: Result<Id, Error>)
      modifies this
      ensures r == IdOf(Answer(old(db), OpUpdateDict(id, p))) && State() == Settled(old(State()), OpUpdateDict(id, p))
      ensures old(Valid()) ==> Valid()
    {
      hide CacheInv;
      SettledKeepsInv(State(), OpUpdateDict(id, p));
      if id <= 0 || id !in db.dicts {
        return Err(DictNotFound);
      }
      var oldDict := db.dicts[id];
      if CodeTaken(db.dicts, p.code, id) {
        return Err(DictCodeExist);
      }
      var tx := db;
      tx := tx.(dicts := tx.dicts[id := p]);
      if oldDict.code != p.code {
        tx := tx.(items := Recoded(tx.items, id, p.code));
        if !PairsUnique(tx.items) {
          return Err(ItemRewriteFailed);
        }
      }
      db := tx;
      if oldDict.code != p.code {
        cache := cache - {oldDict.code, p.code};
      }
      return Ok(id);
    }

    method DeleteById(id: Id) returns (r: Result<Id, Error>)
      modifies this
      ensures r == IdOf(Answer(old(db), OpDeleteDict(id))) && State() == Settled(old(State()), OpDeleteDict(id))
      ensures old(Valid()) ==> Valid()
    {
      hide CacheInv;
      SettledKeepsInv(State(), OpDeleteDict(id));
      if id <= 0 || id !in db.dicts {
        return Err(DictNotFound);
      }
      var dict := db.dicts[id];
      var tx := db;
      tx := tx.(items := WithoutDict(tx.items, id));
      tx := tx.(dicts := tx.dicts - {id});
      db := tx;
      cache := cache - {dict.code};
      return Ok(id);
    }

    method CreateItem(p: ItemParam) returns (r: Result<Id, Error>)
      modifies this
      ensures r == IdOf(Answer(old(db), OpCreateItem(p))) && State() == Settled(old(State()), OpCreateItem(p))
      ensures old(Valid()) ==> Valid()
    {
      hide CacheInv;
      SettledKeepsInv(State(), OpCreateItem(p));
      if p.dictId <= 0 {
        return Err(QueryFailed);
      }
      if p.dictId !in db.dicts {
        return Err(DictNotFound);
      }
      var dict := db.dicts[p.dictId];
      if ItemCodeTaken(db.items, p.dictId, p.itemCode, 0) {
        return Err(ItemCodeExist);
      }
      var id := db.nextItem;
      var item := Item(id, p.dictId, dict.code, p.itemCode, p.itemName, p.sortOrder);
      db := db.(items := db.items[id := item], nextItem := id + 1);
      cache := cache - {dict.code};
      return Ok(id);
    }

    method UpdateItem(p: ItemParam) returns (r: Result<Id, Error>)
      modifies this
      ensures r == IdOf(Answer(old(db), OpUpdateItem(p))) && State() == Settled(old(State()), OpUpdateItem(p))
      ensures old(Valid()) ==> Valid()
    {
      hide CacheInv;
      SettledKeepsInv(State(), OpUpdateItem(p));
      if p.id <= 0 || p.id !in db.items {
        return Err(ItemNotFound);
      }
      var oldItem := db.items[p.id];
      if ItemCodeTaken(db.items, oldItem.dictId, p.itemCode, p.id) {
        return Err(ItemCodeExist);
      }
      var item := Item(p.id, oldItem.dictId, oldItem.dictCode, p.itemCode, p.itemName, p.sortOrder);
      db := db.(items := db.items[p.id := item]);
      cache := cache - {oldItem.dictCode};
      return Ok(p.id);
    }

    method DeleteItemById(id: Id) returns (r: Result<Id, Error>)
      modifies this
      ensures r == IdOf(Answer(old(db), OpDeleteItem(id))) && State() == Settled(old(State()), OpDeleteItem(id))
      ensures old(Valid()) ==> Valid()
    {
      hide CacheInv;
      SettledKeepsInv(State(), OpDeleteItem(id));
      if id <= 0 || id !in db.items {
        return Err(ItemNotFound);
      }
      var item := db.items[id];
      db := db.(items := db.items - {id});
      cache := cache - {item.dictCode};
      return Ok(id);
    }

    /** The ordered query. */
    static method Query(items: Items, code: string) returns (list: seq<Item>)
      requires forall i :: i in items ==> items[i].id == i
      ensures IsListOf(list, items, code)
    {
      list := [];
      var todo := items.Keys;
      while todo != {}
        invariant todo <= items.Keys && Ordered(list)
        invariant forall item :: item in list <==> HasCode(items, code, item) && item.id !in todo
        decreases todo
      {
        assert (forall i :: i !in todo) ==> todo == {};
        var i :| i in todo;
        if items[i].dictCode == code {
          PlacedEffect(list, items[i]);
          list := Placed(list, items[i]);
        }
        todo := todo - {i};
      }
    }

    /** The cached list if there is one; otherwise the queried one, which is then cached. */
    method GetItemListByCode(code: string) returns (r: Result<seq<Item>, Error>)
      requires forall i :: i in db.items ==> db.items[i].id == i
      modifies this`cache
      ensures code == "" ==> r == Err(DictNotFound) && cache == old(cache)
      ensures code != "" && code in old(cache) ==> r == Ok(old(cache)[code]) && cache == old(cache)
      ensures code != "" && code !in old(cache) ==>
                r.Ok? && IsListOf(r.value, db.items, code) && State() == Apply(old(State()), Fill(code, r.value))
      ensures code != "" && code !in old(cache) ==> cache == old(cache)[code := r.value]
      ensures old(Valid()) ==> Valid() && (r.Ok? ==> IsListOf(r.value, db.items, code))
    {
      hide IsListOf;
      hide Inv;
      if |code| == 0 {
        return Err(DictNotFound);
      }
      if code in cache {
        return Ok(cache[code]);
      }
      var list := Query(db.items, code);
      cache := cache[code := list];
      return Ok(list);
    }
  }
}
