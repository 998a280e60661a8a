/** Schema forests: the immutable templates of the filesystem (fs/schema.h). */
module Schemas {
  import opened Wrappers

  datatype Kind =
    | U8 | U16 | U32 | U64 | I8 | I16 | I32 | I64
    | Str | Raw | Link | Mac | Ip32 | Object | Subdir | Compound

  /** A `Schema*`: NULL, or a node with its children and its next sibling. */
  datatype Forest = Nil | Node(name: string, kind: Kind, children: Forest, next: Forest)

  type Template = f: Forest | f.Node? witness Node("/", Subdir, Nil, Nil)
  predicate IsDir(k: Kind) { k == Object || k == Subdir }

  /** schema_len, before it is truncated to 32 bits. */
  function Len(f: Forest): nat {
    if f.Nil? then 0 else 1 + Len(f.next)
  }

  /** The k-th node of a sibling chain. */
  function Nth(f: Forest, k: nat): (t: Template)
    requires k < Len(f)
  {
    if k == 0 then f else Nth(f.next, k - 1)
  }

  ghost predicate OnChain(t: Template, f: Forest) {
    exists k: nat :: k < Len(f) && Nth(f, k) == t
  }

  /** First node of a sibling chain called c. */
  function FindNode(f: Forest, c: string): (r: Option<Template>) {
    if f.Nil? then None
    else if f.name == c then Some(f)
    else FindNode(f.next, c)
  }

  /** What _fill instantiates below a node: an OBJECT's children are templates only. */
  function Visible(t: Template): Forest {
    if t.kind == Subdir then t.children else Nil
  }

  /** The parser gives children to OBJECT and SUBDIR nodes only (fs/schema.y). */
  ghost predicate LeavesBare(f: Forest) {
    f.Node? ==> (IsDir(f.kind) || f.children.Nil?) && LeavesBare(f.children) && LeavesBare(f.next)
  }

  // ---------------------------------------------------------------- schema_search, for ".."-free paths

  function SchemaStep(t: Template, c: string): (r: Option<Template>) {
    if c == "." then Some(t) else FindNode(t.children, c)
  }

  function SchemaResolve(t: Template, q: seq<string>): (r: Option<Template>)
    decreases |q|
  {
    if q == [] then Some(t)
    else match SchemaStep(t, q[0])
      case None => None
      case Some(u) => SchemaResolve(u, q[1..])
  }

  /** The walk q from t looks up a name below an OBJECT. */
  predicate BelowObject(t: Template, q: seq<string>)
    decreases |q|
  {
    q != [] && (
      (q[0] != "." && t.kind == Object) ||
      (SchemaStep(t, q[0]).Some? && BelowObject(SchemaStep(t, q[0]).value, q[1..])))
  }
}
