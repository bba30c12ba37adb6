/** The parser of query parameters as the service runs it: nested maps, and a cursor that writes into them. */
module NestedMaps {
  import opened JsonValues
  import opened BracketParameters

  datatype Cell = Text(s: string) | Nested(dict: Dict)

  /** A Go map from strings to strings and further maps. */
  class Dict {
    var fields: map<string, Cell>
    /** The value that the map holds, nested maps followed. */
    ghost var view: Json
    /** Where the map was put when it was created: no map is reached in two ways. */
    ghost const depth: nat
    ghost const parent: Dict?
    ghost const key: string

    constructor (ghost view: Json, ghost depth: nat, ghost parent: Dict?, ghost key: string)
      ensures fields == map[] && this.view == view
      ensures this.depth == depth && this.parent == parent && this.key == key
    {
      fields := map[];
      this.view := view;
      this.depth, this.parent, this.key := depth, parent, key;
    }
  }

  /** The map holds the value `v`, if its children hold their views. */
  ghost predicate Shows(d: Dict, v: Json, nodes: set<Dict>)
    reads d, nodes
  {
    && v.Obj? && d.fields.Keys == v.fields.Keys
    && forall name :: name in d.fields ==> ShowsCell(d, name, d.fields[name], v.fields[name], nodes)
  }

  ghost predicate ShowsCell(d: Dict, name: string, cell: Cell, v: Json, nodes: set<Dict>)
    reads nodes
  {
    match cell
    case Text(s) => v == Str(s)
    case Nested(c) => c in nodes && c.depth == d.depth + 1 && c.parent == d && c.key == name && v.Obj? && v == c.view
  }

  ghost predicate IsTree(root: Dict, nodes: set<Dict>)
    reads nodes
  {
    root in nodes && root.depth == 0 && forall d :: d in nodes ==> Shows(d, d.view, nodes)
  }

  /**
   The cursor is at `current`, which holds `held`; the rest of the path is still to be inserted there. All
   views show the tree after the insertion, or before it if the insertion is bound to panic.
   */
  ghost predicate Walking(
      root: Dict, current: Dict, held: Json, rest: seq<string>, value: string, goal: Option<Json>, nodes: set<Dict>)
    reads nodes, current
  {
    && root in nodes && current in nodes && root.depth == 0
    && (forall d :: d in nodes && d != current ==> Shows(d, d.view, nodes))
    && Shows(current, held, nodes)
    && (goal.Some? <==> Insert(held, rest, value).Some?)
    && current.view == (if goal.Some? then Insert(held, rest, value).value else held)
    && (goal.Some? ==> root.view == goal.value)
  }

  /** The last name is taken: nothing is written. */
  lemma AlreadyThere(
      root: Dict, current: Dict, held: Json, name: string, value: string, goal: Option<Json>, nodes: set<Dict>)
    requires Walking(root, current, held, [name], value, goal, nodes) && name in current.fields
    ensures Walking(root, current, held, [], value, goal, nodes)
  {
  }

  /** The last name is free: the value is written. */
  method Put(
      root: Dict, current: Dict, ghost held: Json, name: string, value: string, ghost goal: Option<Json>,
      ghost nodes: set<Dict>)
    requires Walking(root, current, held, [name], value, goal, nodes) && name !in current.fields
    modifies current`fields
    ensures Walking(root, current, current.view, [], value, goal, nodes)
  {
    current.fields := current.fields[name := Text(value)];
  }

  /** The cursor moves into an existing map. */
  method Descend(root: Dict, current: Dict, ghost held: Json, name: string, ghost rest: seq<string>, value: string,
                 ghost goal: Option<Json>, ghost nodes: set<Dict>)
      returns (child: Dict, ghost held': Json)
    requires Walking(root, current, held, [name] + rest, value, goal, nodes)
    requires name in current.fields && current.fields[name].Nested? && rest != []
    modifies nodes`view
    ensures Walking(root, child, held', rest, value, goal, nodes)
  {
    child := current.fields[name].dict;
    held' := child.view;
    assert ([name] + rest)[1..] == rest;
    if goal.Some? {
      child.view := Insert(held', rest, value).value;
    }
  }

  /** A missing map is created, and the cursor moves into it. */
  method Extend(root: Dict, current: Dict, ghost held: Json, name: string, ghost rest: seq<string>, value: string,
                ghost goal: Option<Json>, ghost nodes: set<Dict>)
      returns (child: Dict)
    requires Walking(root, current, held, [name] + rest, value, goal, nodes)
    requires name !in current.fields && rest != []
    modifies current`fields
    ensures fresh(child) && Walking(root, child, Obj(map[]), rest, value, goal, nodes + {child})
  {
    EmptyTakesAnyPath(rest, value);
    assert ([name] + rest)[1..] == rest;
    child := new Dict(Insert(Obj(map[]), rest, value).value, current.depth + 1, current, name);
    current.fields := current.fields[name := Nested(child)];
  }

  /** Follow the path from the root, creating missing maps, and write the value at its end. */
  method InsertPath(root: Dict, path: seq<string>, value: string, ghost nodes: set<Dict>)
      returns (panicked: bool, ghost nodes': set<Dict>)
    requires IsTree(root, nodes)
    modifies nodes
    ensures panicked <==> Insert(old(root.view), path, value).None?
    ensures !panicked ==> IsTree(root, nodes') && root.view == Insert(old(root.view), path, value).value
    ensures nodes <= nodes' && fresh(nodes' - nodes)
  {
    var current: Dict? := root;
    nodes' := nodes;
    ghost var goal := Insert(root.view, path, value);
    ghost var held := root.view;
    if goal.Some? {
      root.view := goal.value;
    }
    assert path[0..] == path;
    for index := 0 to |path|
      invariant nodes <= nodes' && fresh(nodes' - nodes)
      invariant current == null ==> goal.None? && index < |path|
      invariant current != null ==> Walking(root, current, held, path[index..], value, goal, nodes')
    {
      var name := path[index];
      ghost var rest := path[index + 1..];
      assert path[index..] == [name] + rest;
      if current != null && name in current.fields {
        if index == |path| - 1 {
          AlreadyThere(root, current, held, name, value, goal, nodes');
        } else if current.fields[name].Text? {
          current := null;
        } else {
          current, held := Descend(root, current, held, name, rest, value, goal, nodes');
        }
      } else {
        if current == null {
          return true, nodes';
        }
        if index == |path| - 1 {
          Put(root, current, held, name, value, goal, nodes');
          held := current.view;
        } else {
          current := Extend(root, current, held, name, rest, value, goal, nodes');
          held := Obj(map[]);
          nodes' := nodes' + {current};
        }
      }
    }
    panicked := false;
  }

  /** The body of the outer loop: keys without the prefix are skipped. */
  method InsertQuery(root: Dict, key: string, value: string, ghost nodes: set<Dict>)
      returns (panicked: bool, ghost nodes': set<Dict>)
    requires IsTree(root, nodes)
    modifies nodes
    ensures panicked <==> InsertKey(old(root.view), key, value).None?
    ensures !panicked ==> IsTree(root, nodes') && root.view == InsertKey(old(root.view), key, value).value
    ensures nodes <= nodes' && fresh(nodes' - nodes)
  {
    if !(KEY_PREFIX <= key) {
      return false, nodes;
    }
    var matches := BracketNames(key, 0);
    panicked, nodes' := InsertPath(root, matches, value, nodes);
  }

  /** The outer loop over the query map; `order` is the iteration order the runtime picked, null a panic. */
  method ParseCurrentNodeParametersFromQuerys(querys: map<string, string>, order: seq<string>)
      returns (result: Dict?, ghost nodes: set<Dict>)
    requires forall i :: 0 <= i < |order| ==> order[i] in querys
    ensures result == null <==> InsertAll(querys, order).None?
    ensures result != null ==> IsTree(result, nodes) && fresh(nodes) && Some(result.view) == InsertAll(querys, order)
  {
    var root := new Dict(Obj(map[]), 0, null, "");
    nodes := {root};
    for i := 0 to |order|
      invariant fresh(nodes) && IsTree(root, nodes)
      invariant InsertAll(querys, order[..i]) == Some(root.view)
    {
      InsertAllNext(querys, order, i);
      var panicked;
      panicked, nodes := InsertQuery(root, order[i], querys[order[i]], nodes);
      if panicked {
        BlockedStays(querys, order, i + 1);
        return null, nodes;
      }
    }
    assert order[..|order|] == order;
    result := root;
  }

  /** The string found by following the maps themselves. */
  ghost function Follow(d: Dict, path: seq<string>, nodes: set<Dict>): Option<string>
    reads d, nodes
    decreases |path|
  {
    if path == [] || path[0] !in d.fields then None
    else
      match d.fields[path[0]]
      case Text(s) => if |path| == 1 then Some(s) else None
      case Nested(c) => if c in nodes then Follow(c, path[1..], nodes) else None
  }

  /** The view is what the maps hold: every leaf of it is found by following them, and nothing else is. */
  lemma {:induction false} FollowIsLeaf(root: Dict, d: Dict, path: seq<string>, nodes: set<Dict>)
    requires IsTree(root, nodes) && d in nodes
    ensures Follow(d, path, nodes) == Leaf(d.view, path)
    decreases |path|
  {
    if path != [] && path[0] in d.fields {
      assert ShowsCell(d, path[0], d.fields[path[0]], d.view.fields[path[0]], nodes);
      if d.fields[path[0]].Nested? {
        FollowIsLeaf(root, d.fields[path[0]].dict, path[1..], nodes);
      } else {
        assert Leaf(d.view.fields[path[0]], path[1..]) == if path[1..] == [] then Some(d.fields[path[0]].s) else None;
      }
    }
  }
}
