/** The batches undo cannot restore: one file moves away, another moves below its old name. */
module NestedBatch {
  import opened FileSystem
  import opened Journal
  import opened Scripts
  import opened Steps
  import opened Effects
  import opened UndoTheory
  import opened ExecutePast
  import opened UndoInverts
  import opened Wrappers

  /** A proposal to move the file now at `from`. */
  function MoveOf(t: Tree, from: Path, to: Path): Proposal
    requires IsFile(t, from)
  {
    Proposal(Move, from, to, None, |t[from].content|, Some(t[from].mtime), None, false)
  }

  /** Two files at the top of the tree, and a free name. */
  predicate Setting(t: Tree, a: string, b: string, x: string) {
    IsFile(t, [a]) && IsFile(t, [b]) && [x] !in t && a != b
    && forall name :: name in {a, b, x} ==> name != "" && name != ".." && !Internal([name])
  }

  function Nested(t: Tree, a: string, b: string, x: string): seq<Proposal>
    requires Setting(t, a, b, x)
  {
    [MoveOf(t, [a], [x]), MoveOf(t, [b], [a, b])]
  }

  lemma NestedChecks(t: Tree, a: string, b: string, x: string)
    requires WellFormed(t) && Setting(t, a, b, x)
    ensures forall q :: q in Nested(t, a, b, x) ==> IsReady(t, q)
    ensures UserBatch(Nested(t, a, b, x)) && DistinctSources(t, Nested(t, a, b, x))
    ensures !Unsafe([a]) && !Unsafe([b]) && !Unsafe([x]) && !Unsafe([a, b])
  {
    assert [a][0] == a && [b][0] == b && [x][0] == x;
  }

  /** The batch runs to its end and leaves a directory in the place of the first file. */
  lemma NestedRun(s: State, a: string, b: string, x: string, fuel: nat)
    requires Start(s) && Setting(s.tree, a, b, x) && !RunCommand(s, Execute(Nested(s.tree, a, b, x)), fuel).end.Crashed?
    ensures var done := RunCommand(s, Execute(Nested(s.tree, a, b, x)), fuel);
            done.end.Finished? && IsDir(done.s.tree, [a])
            && exists e :: e in done.s.journal && e.status.Executed? && MoveLike(e) && e.from == [a]
  {
    var t, ps := s.tree, Nested(s.tree, a, b, x);
    var c, d := Precheck(t, ps[0]), Precheck(t, ps[1]);
    var jobs := JobsOf(s, Execute(ps));
    NestedChecks(t, a, b, x);
    assert ps[0] in ps && ps[1] in ps;
    assert Parent([x]) == [] && Parent([a]) == [] && Parent([a, b]) == [a];
    assert CanMakeDirs(t, []);
    MoveIsDone(s, c);
    RunTurn(s, jobs, fuel);
    var m := MoveScript(s, c);
    var r := Do(s, m.Steps());
    assert AddDirs(t, []) == t;
    assert [a] !in r.tree && IsFile(r.tree, [b]);
    assert jobs[1..] == [Item(d, s.journal)];
    assert CheckRow(s.clock, Executed, c).entry in r.journal;
    SecondMove(r, a, d, s.journal, fuel - |m.Steps()|);
  }

  /** With the first file gone, the second move makes a directory in its place. */
  lemma SecondMove(r: State, a: string, d: Check, prior: seq<Entry>, fuel: nat)
    requires WellFormed(r.tree) && d.status.Ready? && d.action.Move? && IsFile(r.tree, d.from) && !Unsafe(d.from) && !Unsafe(d.to)
    requires |d.to| == 2 && Parent(d.to) == [a] && [a] !in r.tree && !(d.from <= d.to)
    requires !RunJobs(r, [Item(d, prior)], fuel).end.Crashed?
    ensures var done := RunJobs(r, [Item(d, prior)], fuel); done.end.Finished? && IsDir(done.s.tree, [a]) && r.journal <= done.s.journal
  {
    assert Parent([a]) == [] && CanMakeDirs(r.tree, []) && CanMakeDirs(r.tree, [a]);
    MoveIsDone(r, d);
    RunTurn(r, [Item(d, prior)], fuel);
    assert [Item(d, prior)][1..] == [];
  }

  /**
   For every tree with two such files: the batch [a -> x, b -> a/b] cannot be taken back. A directory
   is left where the first file belongs, so undo stops short of restoring the user files.
   */
  lemma NestedBatchIsNotRestored(s: State, a: string, b: string, x: string, fuel: nat, last: nat)
    requires Start(s) && Setting(s.tree, a, b, x)
    requires !RunCommand(s, Execute(Nested(s.tree, a, b, x)), fuel).end.Crashed?
    requires !RunCommand(RunCommand(s, Execute(Nested(s.tree, a, b, x)), fuel).s, Undo(None), last).end.Crashed?
    ensures var done := RunCommand(s, Execute(Nested(s.tree, a, b, x)), fuel);
            var r := RunCommand(done.s, Undo(None), last);
            done.end.Finished? && !(r.end.Finished? && SameUserFiles(KeepsTimes(s.tree, Nested(s.tree, a, b, x)), s.tree, r.s.tree))
  {
    var ps := Nested(s.tree, a, b, x);
    NestedChecks(s.tree, a, b, x);
    NestedRun(s, a, b, x, fuel);
    UndoRestoresIffUnblocked(s, ps, fuel, last);
  }
}
