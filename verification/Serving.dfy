/** The mounted filesystem serving a whole run of operations. */
module Serving {
  import opened Namespace
  import Schemas
  import O = Operations
  import opened Runs
  import opened SchemaFs

  /** One FUSE operation, its result set aside. */
  method Perform(m: Mount, op: O.Op, setter: O.Setter)
    requires m.Valid() && O.Legal(m.s, op)
    modifies m, m.st.ids.Keys
    ensures m.Valid() && m.s == O.Apply(old(m.s), op, setter)
    ensures forall o {:trigger o in m.st.ids} :: o in m.st.ids ==> o in old(m.st.ids) || fresh(o)
  {
    match op
    case OpMkdir(path) => var r := m.Mkdir(path);
    case OpRmdir(path) => var r, freed := m.Rmdir(path);
    case OpCreate(path) => var r := m.Create(path);
    case OpSymlink(target, path) => var r := m.Symlink(target, path);
    case OpUnlink(path) => var r := m.Unlink(path);
    case OpRename(o, n) => var r := m.Rename(o, n);
    case OpWrite(path, data) => m.WriteAt(path, data, setter);
  }

  /** Running the operations from the i-th on ends in goal. */
  ghost predicate Ahead(s: State, ops: seq<O.Op>, i: nat, setter: O.Setter, goal: State) {
    i <= |ops| && Tree(s) && LegalRun(s, ops[i..], setter) && Run(s, ops[i..], setter) == goal
  }

  lemma NextOp(s: State, ops: seq<O.Op>, i: nat, setter: O.Setter, goal: State)
    requires Ahead(s, ops, i, setter, goal) && i < |ops|
    ensures Tree(s) && O.Legal(s, ops[i]) && Ahead(O.Apply(s, ops[i], setter), ops, i + 1, setter, goal)
  {
    assert ops[i..][0] == ops[i] && ops[i..][1..] == ops[i + 1..];
    O.ApplyTree(s, ops[i], setter);
  }

  /** Serving any list of operations yields the state of the abstract run. */
  method ServeOn(m: Mount, ops: seq<O.Op>, setter: O.Setter)
    requires m.Valid() && LegalRun(m.s, ops, setter)
    modifies m, m.st.ids.Keys
    ensures m.Valid() && m.s == Run(old(m.s), ops, setter)
    ensures forall o {:trigger o in m.st.ids} :: o in m.st.ids ==> o in old(m.st.ids) || fresh(o)
    decreases |ops|
  {
    ghost var goal := Run(m.s, ops, setter);
    var i := 0;
    assert ops[0..] == ops;
    while i < |ops|
      invariant i <= |ops| && m.Valid() && Ahead(m.s, ops, i, setter, goal)
      invariant forall o {:trigger o in m.st.ids} :: o in m.st.ids ==> o in old(m.st.ids) || fresh(o)
    {
      NextOp(m.s, ops, i, setter, goal);
      Perform(m, ops[i], setter);
      i := i + 1;
    }
  }

  /** Mounting a schema and serving operations: every theorem about runs from Initial holds of the objects. */
  method Serve(schema: Schemas.Template, ops: seq<O.Op>, setter: O.Setter) returns (m: Mount)
    requires schema.next.Nil? && Tree(Initial(schema)) && LegalRun(Initial(schema), ops, setter)
    ensures m.Valid() && m.s == Run(Initial(schema), ops, setter)
  {
    m := new Mount(schema);
    ServeOn(m, ops, setter);
  }
}
