/** JSON values as finite trees with own keys only; an array's keys are its indices. */
module JsonTree {
  import opened Wrappers

  datatype Json =
    | Null
    | Bool(b: bool)
    | Num(n: real)
    | Str(s: string)
    | Node(isArray: bool, kids: map<string, Json>)

  type Path = seq<string>

  /** The value at a path of own keys. */
  function Lookup(t: Json, path: Path): Option<Json>
    decreases |path|
  {
    if path == [] then Some(t)
    else if t.Node? && path[0] in t.kids then Lookup(t.kids[path[0]], path[1..])
    else None
  }
}
