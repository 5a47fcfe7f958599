/** Dropping credential fields from a decoded JSON value, at every depth. */
module AuditSanitizer {
  import opened Options
  import opened AuditFields

  /** A decoded value; a leaf stands for any string, number, boolean or null. */
  datatype Json = Obj(fields: map<string, Json>) | Arr(items: seq<Json>) | Leaf(text: string)

  const DROP_FIELDS: set<string> :=
    {"password", "pass", "pwd", "token", "access_token", "refresh_token", "secret", "jwt_secret"}

  predicate ShouldDrop(key: string) {
    Normal(key) in DROP_FIELDS
  }

  /** Every spelling of a dropped name is dropped, and no other name is dropped in any spelling. */
  lemma EverySpellingIsDropped(casing: Casing, first: string, parts: seq<Part>)
    requires IsName(casing, first, parts)
    ensures ShouldDrop(Cased(casing, first) + Spelled(parts)) <==>
              var name := first + Underscored(parts);
              || name == "password" || name == "pass" || name == "pwd" || name == "token" || name == "access_token"
              || name == "refresh_token" || name == "secret" || name == "jwt_secret"
  {
    EverySpellingIsRecognised(casing, first, parts);
  }

  function Sanitize(v: Json): Json {
    match v
    case Obj(fields) => Obj(map k | k in fields && !ShouldDrop(k) :: Sanitize(fields[k]))
    case Arr(items) => Arr(seq(|items|, i requires 0 <= i < |items| => Sanitize(items[i])))
    case Leaf(_) => v
  }

  // ----- What is kept, path by path -----

  datatype Step = Field(key: string) | Item(index: nat)

  /** What stands at the end of a path. */
  function At(v: Json, path: seq<Step>): Option<Json>
    decreases |path|
  {
    if path == [] then Some(v)
    else
      match path[0]
      case Field(k) => if v.Obj? && k in v.fields then At(v.fields[k], path[1..]) else None
      case Item(i) => if v.Arr? && i < |v.items| then At(v.items[i], path[1..]) else None
  }

  /** The path goes through a field to be dropped. */
  predicate Dropped(path: seq<Step>) {
    exists i :: 0 <= i < |path| && path[i].Field? && ShouldDrop(path[i].key)
  }

  function Then(v: Option<Json>): Option<Json> {
    match v
    case None => None
    case Some(w) => Some(Sanitize(w))
  }

  /** At no depth is there a dropped field left; every other path still leads to what it led to, itself
      sanitised, so leaves are unchanged. */
  lemma {:induction false} EveryOtherPathIsKept(v: Json, path: seq<Step>)
    ensures At(Sanitize(v), path) == if Dropped(path) then None else Then(At(v, path))
    decreases |path|
  {
    if path == [] {
    } else {
      var (step, rest) := (path[0], path[1..]);
      assert Dropped(path) <==> (step.Field? && ShouldDrop(step.key)) || Dropped(rest) by {
        assert forall i :: 0 <= i < |rest| ==> rest[i] == path[i+1];
        assert forall i :: 0 < i < |path| ==> path[i] == rest[i-1];
      }
      match step {
        case Field(k) =>
          if v.Obj? && k in v.fields {
            EveryOtherPathIsKept(v.fields[k], rest);
          }
        case Item(i) =>
          if v.Arr? && i < |v.items| {
            EveryOtherPathIsKept(v.items[i], rest);
          }
      }
    }
  }

  lemma LeavesAreUnchanged(v: Json, path: seq<Step>, text: string)
    ensures At(Sanitize(v), path) == Some(Leaf(text)) <==> At(v, path) == Some(Leaf(text)) && !Dropped(path)
  {
    EveryOtherPathIsKept(v, path);
  }

  /** Sanitising twice is the same as once. */
  lemma {:induction false} SanitizeTwice(v: Json)
    ensures Sanitize(Sanitize(v)) == Sanitize(v)
  {
    match v {
      case Obj(fields) =>
        forall k | k in fields && !ShouldDrop(k) ensures Sanitize(Sanitize(fields[k])) == Sanitize(fields[k]) {
          SanitizeTwice(fields[k]);
        }
      case Arr(items) =>
        forall i | 0 <= i < |items| ensures Sanitize(Sanitize(items[i])) == Sanitize(items[i]) {
          SanitizeTwice(items[i]);
        }
      case Leaf(_) =>
    }
  }

  // ----- As it is done -----

  method ShouldDropAuditField(key: string) returns (drop: bool)
    ensures drop == ShouldDrop(key)
    ensures drop <==> Normal(key) in DROP_FIELDS
  {
    var normal := NormalizeAuditField(key);
    return normal in DROP_FIELDS;
  }

  /** What an object becomes when only the fields that are not yet to do have been looked at. */
  function Kept(fields: map<string, Json>, todo: set<string>): map<string, Json> {
    map k | k in fields && k !in todo && !ShouldDrop(k) :: Sanitize(fields[k])
  }

  lemma KeptNext(fields: map<string, Json>, todo: set<string>, k: string)
    requires k in fields && k in todo
    ensures Kept(fields, todo - {k}) ==
            if ShouldDrop(k) then Kept(fields, todo) else Kept(fields, todo)[k := Sanitize(fields[k])]
  {
    hide ShouldDrop;
    hide Sanitize;
  }

  lemma AllKept(fields: map<string, Json>)
    ensures Kept(fields, fields.Keys) == map[]
    ensures Sanitize(Obj(fields)) == Obj(Kept(fields, {}))
  {
    hide ShouldDrop;
  }

  /** Objects are built anew; the slots of an array are overwritten one by one. */
  method SanitizeAuditValue(v: Json) returns (r: Json)
    ensures r == Sanitize(v)
    decreases v, 1
  {
    match v
    case Obj(fields) =>
      var out := SanitizeFields(v);
      AllKept(fields);
      return Obj(out);
    case Arr(items) =>
      var slots := SanitizeItems(v);
      return Arr(slots);
    case Leaf(_) =>
      return v;
  }

  method SanitizeFields(v: Json) returns (out: map<string, Json>)
    requires v.Obj?
    ensures out == Kept(v.fields, {})
    decreases v, 0
  {
    hide Kept;
    hide ShouldDrop;
    hide Sanitize;
    out := map[];
    var todo := v.fields.Keys;
    AllKept(v.fields);
    while todo != {}
      invariant todo <= v.fields.Keys && out == Kept(v.fields, todo)
      decreases todo
    {
      assert (forall k :: k !in todo) ==> todo == {};
      var k :| k in todo;
      KeptNext(v.fields, todo, k);
      todo := todo - {k};
      var drop := ShouldDropAuditField(k);
      if drop {
        continue;
      }
      var item := SanitizeAuditValue(v.fields[k]);
      out := out[k := item];
    }
  }

  method SanitizeItems(v: Json) returns (r: seq<Json>)
    requires v.Arr?
    ensures |r| == |v.items| && forall i :: 0 <= i < |r| ==> r[i] == Sanitize(v.items[i])
    decreases v, 0
  {
    hide Sanitize;
    var slots := new Json[|v.items|](i requires 0 <= i < |v.items| => v.items[i]);
    for i := 0 to |v.items|
      invariant forall j :: 0 <= j < i ==> slots[j] == Sanitize(v.items[j])
      invariant forall j :: i <= j < |v.items| ==> slots[j] == v.items[j]
    {
      var item := SanitizeAuditValue(slots[i]);
      slots[i] := item;
    }
    return slots[..];
  }
}
