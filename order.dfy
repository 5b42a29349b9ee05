/**
 * Ordering of list endpoints: a dot-separated field path and a direction
 * become a nested ORM `orderBy` object, and paths are checked against
 * allow-lists of fields and relations.
 */
module Order {
  import opened Common
  import opened Strings

  datatype Direction = Asc | Desc

  const DefaultOrderBy: string := "created_at"
  const DefaultDirection: Direction := Desc
  const CountKey: string := "_count"

  /** An ordering object: a direction at a leaf, or an object of named sub-orderings. */
  datatype OrderBy = Dir(dir: Direction) | Obj(fields: map<string, OrderBy>)

  const EmptyObj: OrderBy := Obj(map[])

  /** The right-nested chain of single-key objects along `keys`, ending in `leaf`. */
  function Chain(keys: seq<string>, leaf: OrderBy): OrderBy
  {
    if keys == [] then leaf else Obj(map[keys[0] := Chain(keys[1..], leaf)])
  }

  /** The value reached by following `path` from `t`, if every step exists. */
  function At(t: OrderBy, path: seq<string>): Option<OrderBy>
  {
    if path == [] then Some(t)
    else if t.Obj? && path[0] in t.fields then At(t.fields[path[0]], path[1..])
    else None
  }

  predicate ReachesObj(t: OrderBy, path: seq<string>)
  {
    At(t, path).Some? && At(t, path).value.Obj?
  }

  /** `current[k] = v` where `current` is the object reached along `path`. */
  function SetAt(t: OrderBy, path: seq<string>, k: string, v: OrderBy): (r: OrderBy)
    requires ReachesObj(t, path)
    ensures ReachesObj(r, path)
    ensures At(r, path).value.fields == At(t, path).value.fields[k := v]
  {
    if path == [] then Obj(t.fields[k := v])
    else
      var inner := SetAt(t.fields[path[0]], path[1..], k, v);
      var r := Obj(t.fields[path[0] := inner]);
      assert At(r, path) == At(inner, path[1..]);
      r
  }

  lemma {:induction false} ChainAt(keys: seq<string>, m: map<string, OrderBy>)
    ensures At(Chain(keys, Obj(m)), keys) == Some(Obj(m))
  {
    if keys != [] {
      ChainAt(keys[1..], m);
    }
  }

  /** Writing into the innermost object of a chain extends that object. */
  lemma {:induction false} ChainSetAt(keys: seq<string>, m: map<string, OrderBy>, k: string, v: OrderBy)
    ensures ReachesObj(Chain(keys, Obj(m)), keys)
    ensures SetAt(Chain(keys, Obj(m)), keys, k, v) == Chain(keys, Obj(m[k := v]))
  {
    ChainAt(keys, m);
    if keys != [] {
      ChainSetAt(keys[1..], m, k, v);
      var inner := Chain(keys[1..], Obj(m));
      assert Chain(keys, Obj(m)).fields == map[keys[0] := inner];
      assert map[keys[0] := inner][keys[0] := SetAt(inner, keys[1..], k, v)]
          == map[keys[0] := Chain(keys[1..], Obj(m[k := v]))];
    }
  }

  lemma {:induction false} ChainAppend(keys: seq<string>, k: string, leaf: OrderBy)
    ensures Chain(keys + [k], leaf) == Chain(keys, Obj(map[k := leaf]))
  {
    if keys != [] {
      assert (keys + [k])[1..] == keys[1..] + [k];
      ChainAppend(keys[1..], k, leaf);
    }
  }

  /** Descends through `keys`, creating an empty object at each step, as the two builders' loops do. */
  method WalkPath(keys: seq<string>) returns (result: OrderBy, current: seq<string>)
    ensures current == keys
    ensures result == Chain(keys, EmptyObj)
  {
    result := EmptyObj;
    current := [];
    for i := 0 to |keys|
      invariant current == keys[..i]
      invariant result == Chain(current, EmptyObj)
    {
      // current[part] = {}; current = current[part]
      ChainSetAt(current, map[], keys[i], EmptyObj);
      result := SetAt(result, current, keys[i], EmptyObj);
      ChainAppend(current, keys[i], EmptyObj);
      current := current + [keys[i]];
      assert keys[..i + 1] == current;
    }
  }

  /** The `_count` builder: every part but the last becomes a level, and `_count` holds the direction. */
  method BuildCountOrder(parts: seq<string>, dir: Direction) returns (result: OrderBy)
    requires |parts| >= 1
    ensures result == Chain(parts[..|parts| - 1] + [CountKey], Dir(dir))
  {
    var current;
    result, current := WalkPath(parts[..|parts| - 1]);
    ChainSetAt(current, map[], CountKey, Dir(dir));
    result := SetAt(result, current, CountKey, Dir(dir));
    ChainAppend(current, CountKey, Dir(dir));
  }

  /** The nested builder: every part but the last becomes a level, and the last part holds the direction. */
  method BuildNestedOrder(parts: seq<string>, dir: Direction) returns (result: OrderBy)
    requires |parts| >= 1
    ensures result == Chain(parts, Dir(dir))
  {
    var current;
    var last := parts[|parts| - 1];
    result, current := WalkPath(parts[..|parts| - 1]);
    ChainSetAt(current, map[], last, Dir(dir));
    result := SetAt(result, current, last, Dir(dir));
    ChainAppend(current, last, Dir(dir));
    assert parts[..|parts| - 1] + [last] == parts;
  }

  /** The ordering a path and direction stand for: one level per '.'-separated segment, the direction at the end. */
  function OrderFor(orderBy: string, dir: Direction): OrderBy
  {
    Chain(Split(orderBy, '.'), Dir(dir))
  }

  /** `use`: a flat field maps straight to the direction; a dotted one goes to the count or nested builder. */
  method Use(orderBy: string := DefaultOrderBy, dir: Direction := DefaultDirection) returns (r: OrderBy)
    ensures r == OrderFor(orderBy, dir)
    ensures '.' !in orderBy ==> r == Obj(map[orderBy := Dir(dir)])
  {
    if '.' !in orderBy {
      assert Split(orderBy, '.') == [orderBy];
      assert Chain([orderBy], Dir(dir)) == Obj(map[orderBy := Chain([], Dir(dir))]);
      return Obj(map[orderBy := Dir(dir)]);
    }
    var parts := Split(orderBy, '.');
    if parts[|parts| - 1] == CountKey {
      r := BuildCountOrder(parts, dir);
      assert parts[..|parts| - 1] + [CountKey] == parts;
    } else {
      r := BuildNestedOrder(parts, dir);
    }
  }

  /**
   * Following the path's segments through the ordering reaches the direction,
   * unchanged, and every object on the way has exactly the next segment as
   * its only key.
   */
  lemma {:induction false} ChainShape(keys: seq<string>, leaf: OrderBy)
    ensures At(Chain(keys, leaf), keys) == Some(leaf)
    ensures forall i :: 0 <= i < |keys| ==>
              At(Chain(keys, leaf), keys[..i]) == Some(Obj(map[keys[i] := Chain(keys[i + 1..], leaf)]))
  {
    if keys != [] {
      ChainShape(keys[1..], leaf);
      forall i | 0 < i < |keys|
        ensures At(Chain(keys, leaf), keys[..i]) == Some(Obj(map[keys[i] := Chain(keys[i + 1..], leaf)]))
      {
        assert keys[..i][1..] == keys[1..][..i - 1];
        assert keys[1..][i - 1] == keys[i] && keys[1..][i..] == keys[i + 1..];
      }
    }
  }

  /** Reads the key path back out of a chain of single-key objects. */
  lemma {:induction false} ChainInjective(k1: seq<string>, k2: seq<string>, d1: Direction, d2: Direction)
    requires Chain(k1, Dir(d1)) == Chain(k2, Dir(d2))
    ensures k1 == k2 && d1 == d2
  {
    if k1 != [] && k2 != [] {
      assert k1[0] in Chain(k2, Dir(d2)).fields;
      ChainInjective(k1[1..], k2[1..], d1, d2);
    }
  }

  /** Distinct paths or directions give distinct orderings: the builder loses nothing. */
  lemma OrderForInjective(f1: string, f2: string, d1: Direction, d2: Direction)
    requires OrderFor(f1, d1) == OrderFor(f2, d2)
    ensures f1 == f2 && d1 == d2
  {
    ChainInjective(Split(f1, '.'), Split(f2, '.'), d1, d2);
    JoinSplit(f1, '.');
    JoinSplit(f2, '.');
  }

  datatype OrderSpec = OrderSpec(field: string, direction: Direction)

  /** `createMultipleOrders`: one ordering per entry, in the same order. */
  method CreateMultipleOrders(orders: seq<OrderSpec>) returns (r: seq<OrderBy>)
    ensures |r| == |orders|
    ensures forall i :: 0 <= i < |orders| ==> r[i] == OrderFor(orders[i].field, orders[i].direction)
  {
    r := [];
    for i := 0 to |orders|
      invariant |r| == i
      invariant forall j :: 0 <= j < i ==> r[j] == OrderFor(orders[j].field, orders[j].direction)
    {
      var o := Use(orders[i].field, orders[i].direction);
      r := r + [o];
    }
  }

  // ---------------------------------------------------------------------
  // Validation against allow-lists
  // ---------------------------------------------------------------------

  /** `validateRelationPath`: every segment names an allowed relation. */
  function ValidateRelationPath(path: seq<string>, relations: map<string, seq<string>>): (b: bool)
    ensures b <==> forall i :: 0 <= i < |path| ==> path[i] in relations
  {
    if |path| == 1 then path[0] in relations
    else forall i :: 0 <= i < |path| ==> path[i] in relations
  }

  /** `validateNestedField`: the first segment is a relation whose list holds the joined rest, or each remaining segment. */
  function ValidateNestedField(parts: seq<string>, fields: seq<string>, relations: map<string, seq<string>>): bool
    requires |parts| >= 1
  {
    if |parts| == 1 then parts[0] in fields
    else if parts[0] !in relations then false
    else
      var relationFields := relations[parts[0]];
      Join(parts[1..], '.') in relationFields
      || forall i :: 1 <= i < |parts| ==> parts[i] in relationFields
  }

  function ValidateOrderField(orderBy: string, fields: seq<string>, relations: map<string, seq<string>> := map[]): bool
  {
    if '.' !in orderBy then orderBy in fields
    else
      var parts := Split(orderBy, '.');
      if parts[|parts| - 1] == CountKey then ValidateRelationPath(parts[..|parts| - 1], relations)
      else ValidateNestedField(parts, fields, relations)
  }

  /** A `_count` path is accepted exactly when every segment before `_count` is an allowed relation. */
  lemma {:induction false} ValidateCountPath(orderBy: string, fields: seq<string>, relations: map<string, seq<string>>)
    requires '.' in orderBy
    requires var parts := Split(orderBy, '.'); parts[|parts| - 1] == CountKey
    ensures var parts := Split(orderBy, '.');
            ValidateOrderField(orderBy, fields, relations) <==> forall i :: 0 <= i < |parts| - 1 ==> parts[i] in relations
  {
    var parts := Split(orderBy, '.');
    SplitFirst(orderBy, '.');
    var path := parts[..|parts| - 1];
    assert |path| >= 1;
    assert ValidateOrderField(orderBy, fields, relations) == ValidateRelationPath(path, relations);
    assert forall i :: 0 <= i < |path| ==> path[i] == parts[i];
  }

  /**
   * Any other dotted path is accepted exactly when the text before the first
   * '.' is an allowed relation whose list holds the text after it, or holds
   * each later segment.
   */
  lemma ValidateNestedPath(orderBy: string, fields: seq<string>, relations: map<string, seq<string>>)
    requires '.' in orderBy
    requires var parts := Split(orderBy, '.'); parts[|parts| - 1] != CountKey
    ensures var parts := Split(orderBy, '.');
            var i := IndexOf(orderBy, '.');
            ValidateOrderField(orderBy, fields, relations) <==>
              orderBy[..i] in relations &&
              (orderBy[i + 1..] in relations[orderBy[..i]]
               || forall k :: 1 <= k < |parts| ==> parts[k] in relations[orderBy[..i]])
  {
    SplitFirst(orderBy, '.');
  }

  /** An accepted path builds an ordering whose outermost key is an allowed field or an allowed relation. */
  lemma ValidatedOrderStartsAllowed(orderBy: string, dir: Direction, fields: seq<string>, relations: map<string, seq<string>>)
    requires ValidateOrderField(orderBy, fields, relations)
    ensures var first := Split(orderBy, '.')[0];
            OrderFor(orderBy, dir).fields.Keys == {first}
            && (first in fields || first in relations)
  {
    var parts := Split(orderBy, '.');
    if '.' in orderBy {
      SplitFirst(orderBy, '.');
    }
  }
}
