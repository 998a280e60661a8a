/** What the lines of a compound file say, and what their writes leave. */
module Batches {
  import opened Wrappers
  import opened Namespace
  import opened Relinking
  import opened Operations
  import opened Runs
  import opened Compound
  import opened Outcomes
  import opened Duplicates

  // ---------------------------------------------------------------- one line

  /** Any other command does nothing. */
  lemma OtherCommand(word: string, rest: string)
    requires ' ' !in word && word !in {"mkdir", "rmdir", "write"}
    ensures LineOk(word + " " + rest) && Parse(word + " " + rest) == None
  {
    WordBehind(word, rest);
  }

  // ---------------------------------------------------------------- the last write to an entry

  /** No operation of the run writes to n or removes it; there are only the commands of a batch. */
  ghost predicate Untouched(s: State, ops: seq<Op>, setter: Setter, n: nat)
    requires Tree(s) && LegalRun(s, ops, setter)
    decreases |ops|
  {
    n in s.ents && (ops == [] || (
      && (ops[0].OpMkdir? || ops[0].OpRmdir? || (ops[0].OpWrite? && !Writes(s, ops[0].path, n)))
      && (ApplyTree(s, ops[0], setter); Untouched(Apply(s, ops[0], setter), ops[1..], setter, n))))
  }

  lemma ValueKept(s: State, op: Op, setter: Setter, n: nat)
    requires Tree(s) && Legal(s, op) && n in s.ents && n in Apply(s, op, setter).ents
    requires op.OpMkdir? || op.OpRmdir? || (op.OpWrite? && !Writes(s, op.path, n))
    ensures Apply(s, op, setter).ents[n].value == s.ents[n].value
  {
    match op
    case OpMkdir(path) => if Mkdir(s, path).1 == Done { MkdirChanges(s, path); }
    case OpRmdir(path) =>
      if Rmdir(s, path).1 == Done { UnlinkChain(s, Search(s, ROOT, path).value, n); }
    case OpWrite(path, data) =>
      if exists k :: k in s.ents && Writes(s, path, k) {
        var k :| k in s.ents && Writes(s, path, k);
        WriteSets(s, path, data, setter, k);
      } else {
        WriteElsewhere(s, path, data, setter);
      }
    case _ =>
  }

  lemma {:induction false} UntouchedKept(s: State, ops: seq<Op>, setter: Setter, n: nat)
    requires Tree(s) && LegalRun(s, ops, setter) && Untouched(s, ops, setter, n)
    ensures n in Run(s, ops, setter).ents && Run(s, ops, setter).ents[n].value == s.ents[n].value
    decreases |ops|
  {
    if ops != [] {
      ApplyTree(s, ops[0], setter);
      var t := Apply(s, ops[0], setter);
      UntouchedKept(t, ops[1..], setter, n);
      ValueKept(s, ops[0], setter, n);
    }
  }

  /**
   * The last write of a batch to an entry decides its value: what the entry's setter makes of the value
   * it had then and of the data.
   */
  lemma LastWriteStays(s: State, before: seq<Op>, path: string, data: string, after: seq<Op>, setter: Setter, n: nat)
    requires Tree(s) && LegalRun(s, before, setter) && Writes(Run(s, before, setter), path, n)
    requires var t := WriteAt(Run(s, before, setter), path, data, setter);
      Tree(t) && LegalRun(t, after, setter) && Untouched(t, after, setter, n)
    ensures var ops, e := before + ([OpWrite(path, data)] + after), Run(s, before, setter).ents[n];
      && LegalRun(s, ops, setter) && n in Run(s, ops, setter).ents
      && Run(s, ops, setter).ents[n].value == setter(e.schema.kind, e.value, data)
  {
    var u, op := Run(s, before, setter), OpWrite(path, data);
    WriteSets(u, path, data, setter, n);
    var t := Apply(u, op, setter);
    UntouchedKept(t, after, setter, n);
    OneRun(u, op, setter);
    RunAppend(u, [op], after, setter);
    RunAppend(s, before, [op] + after, setter);
  }
}
