/**
 What every engine operation does, as a function of the state it starts in.

 An operation is a script: the atomic steps it makes in order (a journal row or a system call), and
 how it ends. A crash after n steps leaves the state reached by the first n steps of the script.
 */
module Scripts {
  import opened FileSystem
  import opened Journal
  import opened Wrappers

  /** The tree, the journal, and a clock that ticks at every step; ids and times are read off it. */
  datatype State = State(tree: Tree, journal: seq<Entry>, clock: nat)

  datatype Step = Row(entry: Entry) | Sys(call: Call)

  function Apply(s: State, step: Step): State {
    match step
    case Row(e) => State(s.tree, s.journal + [e], s.clock + 1)
    case Sys(c) => State(Effect(s.tree, c, s.clock), s.journal, s.clock + 1)
  }

  function Do(s: State, steps: seq<Step>): State {
    if steps == [] then s else Apply(Do(s, steps[..|steps| - 1]), steps[|steps| - 1])
  }

  /** No system call of the sequence is refused when the steps are made from s. */
  ghost predicate Succeeds(s: State, steps: seq<Step>) {
    steps == [] ||
    var rest, last := steps[..|steps| - 1], steps[|steps| - 1];
    Succeeds(s, rest) && (last.Sys? ==> Enabled(Do(s, rest).tree, last.call))
  }

  datatype Outcome = Done | Skipped | Ignored | Failed

  /** `prep` gets everything ready, `act` is the effect with its closing row, or empty. */
  datatype Script = Script(prep: seq<Step>, act: seq<Step>, out: Outcome) {
    function Steps(): seq<Step> { prep + act }
  }

  // ----- Path guard

  datatype Resolution = Found | Missing | Rejected

  /** Absolute paths and parent traversal are refused before the tree is looked at. */
  predicate Unsafe(p: Path) {
    (p != [] && p[0] == "") || ".." in p
  }

  function ResolveExisting(t: Tree, p: Path): Resolution {
    if Unsafe(p) then Rejected else if p in t then Found else Missing
  }

  /** The root itself is rejected here: its parent lies outside the root. */
  function ResolveForCreate(t: Tree, p: Path): Resolution {
    if Unsafe(p) || p == [] then Rejected else if Parent(p) in t then Found else Missing
  }

  // ----- Proposals and prechecks

  datatype Proposal = Proposal(action: Action, from: Path, to: Path, content: Option<string>,
                               size: nat, mtime: Option<nat>, fileId: Option<nat>, destinationExists: bool)

  datatype CheckStatus = Ready | DestinationExists | MissingSource | SourceChanged | RejectedPath

  datatype Check = Check(action: Action, from: Path, to: Path, content: Option<string>, status: CheckStatus)

  /** The file at p is the one the proposal was made for. */
  predicate SameSource(t: Tree, p: Path, q: Proposal) {
    IsFile(t, p)
    && (q.fileId.Some? ==> q.fileId.value == t[p].id)
    && |t[p].content| == q.size
    && q.mtime == Some(t[p].mtime)
  }

  function CreateStatus(t: Tree, p: Path): CheckStatus {
    if p == [] || p == ["."] || ResolveForCreate(t, p) != Found then RejectedPath
    else if p in t then DestinationExists
    else Ready
  }

  function PrecheckStatus(t: Tree, q: Proposal): CheckStatus {
    if q.destinationExists then DestinationExists
    else match q.action
      case CreateDir => CreateStatus(t, q.to)
      case CreateFile =>
        if q.to != [] && q.to != ["."] && q.content.Some? && q.content.value != "" then RejectedPath
        else CreateStatus(t, q.to)
      case ReadmeWrite =>
        if q.from != README || q.to != README || q.content.None? then RejectedPath
        else if README !in t then
          if q.size == 0 && q.mtime.None? && q.fileId.None? then Ready else MissingSource
        else if SameSource(t, README, q) then Ready else SourceChanged
      case _ =>
        match ResolveExisting(t, q.from)
        case Missing => MissingSource
        case Rejected => RejectedPath
        case Found => if SameSource(t, q.from, q) then Ready else SourceChanged
  }

  predicate IsReady(t: Tree, q: Proposal) {
    PrecheckStatus(t, q).Ready?
  }

  function Precheck(t: Tree, q: Proposal): Check {
    Check(q.action, q.from, q.to, q.content, PrecheckStatus(t, q))
  }

  function Checks(t: Tree, ps: seq<Proposal>): (cs: seq<Check>)
    ensures |cs| == |ps| && forall i :: 0 <= i < |cs| ==> cs[i] == Precheck(t, ps[i])
  {
    seq(|ps|, i requires 0 <= i < |ps| => Precheck(t, ps[i]))
  }

  // ----- Executing one checked proposal

  /** The calls `create_dir_all(p)` makes, outermost directory first. */
  function MkdirSteps(t: Tree, p: Path): seq<Step>
    decreases |p|
  {
    if p in t || p == [] then [] else MkdirSteps(t, Parent(p)) + [Sys(Mkdir(p))]
  }

  function CheckRow(id: nat, status: Status, c: Check): Step {
    Row(Entry(id, status, c.action, c.from, c.to))
  }

  function MoveScript(s: State, c: Check): Script {
    var planned, t := CheckRow(s.clock, Planned, c), s.tree;
    if ResolveExisting(t, c.from) != Found then Script([planned], [], Skipped)
    else if ResolveForCreate(t, c.to).Rejected? || !CanMakeDirs(t, Parent(c.to)) then Script([planned], [], Failed)
    else
      var prep := [planned] + MkdirSteps(t, Parent(c.to));
      if c.to in t then Script(prep, [], Skipped)
      else if c.from <= c.to then Script(prep, [], Failed)
      else Script(prep, [Sys(Rename(c.from, c.to)), CheckRow(s.clock, Executed, c)], Done)
  }

  /** Stands for the JSON text of a trash record. */
  const METADATA_TEXT := "{}"

  function TrashRow(id: nat, status: Status, from: Path): Step {
    Row(Entry(id, status, Trash, from, Payload(id)))
  }

  function TrashScript(s: State, from: Path): Script {
    var t, id := s.tree, s.clock;
    if ResolveExisting(t, from) != Found || !IsFile(t, from) then Script([], [], Failed)
    else if !CanMakeDirs(t, TrashHome(id)) then Script([TrashRow(id, Planned, from)], [], Failed)
    else
      var prep := [TrashRow(id, Planned, from)] + MkdirSteps(t, TrashHome(id));
      if Payload(id) in t || Metadata(id) in t then Script(prep, [], Failed)
      else Script(prep + [Sys(Write(Metadata(id), METADATA_TEXT))],
                  [Sys(Rename(from, Payload(id))), TrashRow(id, Executed, from)], Done)
  }

  function CreateDirScript(s: State, c: Check): Script {
    var planned, t := CheckRow(s.clock, Planned, c), s.tree;
    if ResolveForCreate(t, c.to) != Found || c.to in t then Script([planned], [], Skipped)
    else if !IsDir(t, Parent(c.to)) then Script([planned], [], Failed)
    else Script([planned], [Sys(Mkdir(c.to)), CheckRow(s.clock, Executed, c)], Done)
  }

  function CreateFileScript(s: State, c: Check): Script {
    var planned, t := CheckRow(s.clock, Planned, c), s.tree;
    if (c.content.Some? && c.content.value != "") || ResolveForCreate(t, c.to) != Found || c.to in t then
      Script([planned], [], Skipped)
    else if !IsDir(t, Parent(c.to)) then Script([planned], [], Failed)
    else Script([planned], [Sys(Create(c.to)), CheckRow(s.clock, Executed, c)], Done)
  }

  function ReadmeRow(id: nat, status: Status): Step {
    Row(Entry(id, status, ReadmeWrite, Backup(id), README))
  }

  /** The copy of README.md, or the mark that there was none, made before the write. */
  function Keepsake(t: Tree, id: nat): Call {
    if IsFile(t, README) then Write(Backup(id), t[README].content) else Write(Absent(id), "")
  }

  function ReadmeScript(s: State, c: Check): Script {
    var t, id := s.tree, s.clock;
    if c.from != README || c.to != README || c.content.None? then Script([], [], Skipped)
    else if !CanMakeDirs(t, BACKUP_DIR) then Script([], [], Failed)
    else
      var dirs := MkdirSteps(t, BACKUP_DIR);
      if IsDir(t, README) || IsDir(t, Keepsake(t, id).path) then Script(dirs, [], Failed)
      else Script(dirs + [Sys(Keepsake(t, id)), ReadmeRow(id, Planned)],
                  [Sys(Write(README, c.content.value)), ReadmeRow(id, Executed)], Done)
  }

  /** A source missing at precheck whose move was planned earlier and whose destination exists. */
  function RecoverScript(s: State, c: Check, prior: seq<Entry>): Script {
    if !c.status.MissingSource? then Script([], [], Skipped)
    else match PendingPlanned(prior, c.from, c.to)
      case None => Script([], [], Skipped)
      case Some(id) =>
        if ResolveExisting(s.tree, c.to) != Found then Script([], [], Skipped)
        else Script([], [CheckRow(id, Executed, c)], Done)
  }

  function ItemScript(s: State, c: Check, prior: seq<Entry>): Script {
    if !c.status.Ready? then RecoverScript(s, c, prior)
    else match c.action
      case Move => MoveScript(s, c)
      case Trash => TrashScript(s, c.from)
      case CreateDir => CreateDirScript(s, c)
      case CreateFile => CreateFileScript(s, c)
      case ReadmeWrite => ReadmeScript(s, c)
  }

  // ----- Undoing one executed row

  function UndoRow(e: Entry, status: Status): Step {
    Row(Entry(e.id, status, e.action, e.to, e.from))
  }

  function UndoMove(s: State, e: Entry): Script {
    var t := s.tree;
    if ResolveExisting(t, e.to) != Found then
      if ResolveExisting(t, e.from) == Found then Script([], [UndoRow(e, Undone)], Done) else Script([], [], Skipped)
    else if ResolveForCreate(t, e.from).Rejected? || !CanMakeDirs(t, Parent(e.from)) then Script([], [], Failed)
    else
      var dirs := MkdirSteps(t, Parent(e.from));
      if e.from in t then Script(dirs, [], Skipped)
      else if e.to <= e.from then Script(dirs + [UndoRow(e, UndoPlanned)], [], Failed)
      else Script(dirs + [UndoRow(e, UndoPlanned)], [Sys(Rename(e.to, e.from)), UndoRow(e, Undone)], Done)
  }

  function UndoCreateFile(s: State, e: Entry): Script {
    var t := s.tree;
    if e.to !in t then Script([], [UndoRow(e, Undone)], Done)
    else if !IsFile(t, e.to) || t[e.to].content != "" then Script([], [], Skipped)
    else Script([UndoRow(e, UndoPlanned)], [Sys(Remove(e.to)), UndoRow(e, Undone)], Done)
  }

  function UndoCreateDir(s: State, e: Entry): Script {
    var t := s.tree;
    if e.to !in t then Script([], [UndoRow(e, Undone)], Done)
    else if !IsDir(t, e.to) || HasChild(t, e.to) || e.to == [] then Script([], [], Skipped)  // the root holds the journal
    else Script([UndoRow(e, UndoPlanned)], [Sys(Rmdir(e.to)), UndoRow(e, Undone)], Done)
  }

  /** What `fs::copy` puts into its target, which it empties before it reads: a file copied onto itself is lost. */
  function Copied(t: Tree, from: Path, to: Path): string
    requires IsFile(t, from)
  {
    if from == to then "" else t[from].content
  }

  function UndoReadme(s: State, e: Entry): Script {
    var t, prep := s.tree, [UndoRow(e, UndoPlanned)];
    if e.to != README then Script([], [], Skipped)
    else if e.from in t then
      if !IsFile(t, e.from) || IsDir(t, README) then Script(prep, [], Failed)
      else Script(prep, [Sys(Write(README, Copied(t, e.from, README))), UndoRow(e, Undone)], Done)
    else if WithAbsent(e.from) in t then
      if README !in t then Script(prep, [UndoRow(e, Undone)], Done)
      else if IsDir(t, README) then Script(prep, [], Failed)
      else Script(prep, [Sys(Remove(README)), UndoRow(e, Undone)], Done)
    else Script(prep, [], Skipped)
  }

  /** One turn of the undo loop; rows that are not executed, filtered out or already undone pass by. */
  function UndoScript(s: State, e: Entry, undone: set<nat>, only: Option<nat>): Script {
    if (only.Some? && only.value != e.id) || !e.status.Executed? || e.id in undone then Script([], [], Ignored)
    else match e.action
      case CreateDir => UndoCreateDir(s, e)
      case CreateFile => UndoCreateFile(s, e)
      case ReadmeWrite => UndoReadme(s, e)
      case _ => UndoMove(s, e)
  }

  // ----- Direct file operations

  predicate ValidName(name: string) {
    name != "" && '/' !in name && '\\' !in name && name != "." && name != ".."
  }

  function RenameScript(s: State, from: Path, name: string): Script {
    var t, id := s.tree, s.clock;
    if !ValidName(name) || ResolveExisting(t, from) != Found || !IsFile(t, from) || from == [] then Script([], [], Failed)
    else
      var to := Parent(from) + [name];
      if ResolveForCreate(t, to) != Found || to in t then Script([], [], Failed)
      else Script([Row(Entry(id, Planned, Move, from, to))],
                  [Sys(Rename(from, to)), Row(Entry(id, Executed, Move, from, to))], Done)
  }

  function CreateEmptyScript(s: State, p: Path): Script {
    if ResolveForCreate(s.tree, p) != Found || !Placeable(s.tree, p) then Script([], [], Failed)
    else Script([], [Sys(Create(p))], Done)
  }

  /** `write_planned_journal` labels every row as a move. */
  function PlanScript(s: State, c: Check): Script {
    if !c.status.Ready? then Script([], [], Skipped)
    else Script([Row(Entry(s.clock, Planned, Move, c.from, c.to))], [], Done)
  }

  // ----- Runs

  datatype Job =
    | Item(check: Check, prior: seq<Entry>)
    | Reverse(entry: Entry, undone: set<nat>, only: Option<nat>)
    | TrashOne(path: Path)
    | RenameOne(path: Path, name: string)
    | CreateOne(path: Path)
    | PlanOne(check: Check)

  function ScriptOf(s: State, job: Job): Script {
    match job
    case Item(c, prior) => ItemScript(s, c, prior)
    case Reverse(e, undone, only) => UndoScript(s, e, undone, only)
    case TrashOne(p) => TrashScript(s, p)
    case RenameOne(p, name) => RenameScript(s, p, name)
    case CreateOne(p) => CreateEmptyScript(s, p)
    case PlanOne(c) => PlanScript(s, c)
  }

  /** Finished: every job handled. Stopped: a job returned an error. Crashed: the power went first. */
  datatype End = Finished | Stopped | Crashed

  datatype Run = Run(s: State, end: End, fuel: nat, outs: seq<Outcome>)

  /** Handles the jobs in order with power for `fuel` more steps. */
  function RunJobs(s: State, jobs: seq<Job>, fuel: nat): (r: Run)
    decreases |jobs|
  {
    if jobs == [] then Run(s, Finished, fuel, [])
    else
      var script := ScriptOf(s, jobs[0]);
      var steps := script.Steps();
      if fuel < |steps| then Run(Do(s, steps[..fuel]), Crashed, 0, [])
      else if script.out.Failed? then Run(Do(s, steps), Stopped, fuel - |steps|, [Failed])
      else
        var rest := RunJobs(Do(s, steps), jobs[1..], fuel - |steps|);
        rest.(outs := [script.out] + rest.outs)
  }

  datatype Command =
    | Execute(proposals: seq<Proposal>)
    | Undo(only: Option<nat>)
    | TrashFile(path: Path)
    | RenameFile(path: Path, name: string)
    | CreateEmptyFile(path: Path)
    | WritePlanned(proposals: seq<Proposal>)

  function ItemJobs(t: Tree, proposals: seq<Proposal>, prior: seq<Entry>): (jobs: seq<Job>)
    ensures |jobs| == |proposals|
    ensures forall i :: 0 <= i < |jobs| ==> jobs[i] == Item(Precheck(t, proposals[i]), prior)
  {
    seq(|proposals|, i requires 0 <= i < |proposals| => Item(Precheck(t, proposals[i]), prior))
  }

  /** The rows from the newest to the oldest. */
  function UndoJobs(rows: seq<Entry>, undone: set<nat>, only: Option<nat>): (jobs: seq<Job>)
    ensures |jobs| == |rows|
    ensures forall i :: 0 <= i < |rows| ==> jobs[i] == Reverse(rows[|rows| - 1 - i], undone, only)
  {
    seq(|rows|, i requires 0 <= i < |rows| => Reverse(rows[|rows| - 1 - i], undone, only))
  }

  /** Prechecks and journal reads all happen before the first step. */
  function JobsOf(s: State, cmd: Command): seq<Job> {
    match cmd
    case Execute(ps) => ItemJobs(s.tree, ps, s.journal)
    case Undo(only) => UndoJobs(s.journal, UndoneIds(s.journal), only)
    case TrashFile(p) => [TrashOne(p)]
    case RenameFile(p, name) => [RenameOne(p, name)]
    case CreateEmptyFile(p) => [CreateOne(p)]
    case WritePlanned(ps) => seq(|ps|, i requires 0 <= i < |ps| => PlanOne(Precheck(s.tree, ps[i])))
  }

  function RunCommand(s: State, cmd: Command, fuel: nat): Run {
    RunJobs(s, JobsOf(s, cmd), fuel)
  }
}
