/** Journal rows, and the paths the engine keeps for itself. */
module Journal {
  import opened FileSystem
  import opened Text
  import opened Wrappers

  datatype Status = Planned | Executed | UndoPlanned | Undone
  datatype Action = Move | Trash | CreateDir | CreateFile | ReadmeWrite

  /** One row of `operation_journal`. */
  datatype Entry = Entry(id: nat, status: Status, action: Action, from: Path, to: Path)

  const STATE_DIR := ".mousekeeper"
  const TRASH_DIR := ".mousekeeper_trash"
  const README: Path := ["README.md"]

  /** Paths under the engine's two private directories. Every other file is a user file. */
  predicate Internal(p: Path) {
    p != [] && (p[0] == STATE_DIR || p[0] == TRASH_DIR)
  }

  function TrashHome(id: nat): Path { [TRASH_DIR, "trash-" + Decimal(id)] }
  function Payload(id: nat): Path { TrashHome(id) + ["file"] }
  function Metadata(id: nat): Path { TrashHome(id) + ["original.json"] }

  const BACKUP_DIR: Path := [STATE_DIR, "readme_backups"]
  function Backup(id: nat): Path { BACKUP_DIR + ["op-" + Decimal(id) + ".bak"] }
  function Absent(id: nat): Path { BACKUP_DIR + ["op-" + Decimal(id) + ".absent"] }

  /** Index of the last dot of a file name, or -1. */
  function LastDot(name: string): (i: int)
    ensures -1 <= i < |name|
  {
    if name == [] then -1 else if name[|name| - 1] == '.' then |name| - 1 else LastDot(name[..|name| - 1])
  }

  /** `Path::with_extension("absent")`: a leading dot does not start an extension. */
  function WithAbsent(p: Path): Path {
    if p == [] then p
    else
      var name := p[|p| - 1];
      var dot := LastDot(name);
      Parent(p) + [(if dot <= 0 then name else name[..dot]) + ".absent"]
  }

  lemma AbsentOfBackup(id: nat)
    ensures WithAbsent(Backup(id)) == Absent(id)
  {
    var stem := "op-" + Decimal(id);
    var name := stem + ".bak";
    assert name[..|name| - 1] == stem + ".ba";
    assert (stem + ".ba")[..|stem| + 2] == stem + ".b";
    assert (stem + ".b")[..|stem| + 1] == stem + ".";
    assert LastDot(stem + ".") == |stem|;
    assert LastDot(stem + ".b") == |stem|;
    assert LastDot(stem + ".ba") == |stem|;
    assert LastDot(name) == |stem| && name[..|stem|] == stem;
    assert Parent(Backup(id)) == BACKUP_DIR;
  }

  /** Files an operation leaves behind in the private directories and never moves back. */
  predicate LeftBy(p: Path, id: nat) {
    p == Metadata(id) || p == Backup(id) || p == Absent(id)
  }

  lemma PrivateNames(i: nat, j: nat)
    ensures Payload(i) == Payload(j) ==> i == j
    ensures LeftBy(Backup(i), j) || LeftBy(Absent(i), j) || LeftBy(Metadata(i), j) ==> i == j
    ensures !LeftBy(Payload(i), j)
    ensures Backup(i) != Absent(j)
    ensures Internal(Payload(i)) && Internal(Backup(i)) && Internal(Absent(i)) && Internal(Metadata(i))
  {
    var a, b := Decimal(i), Decimal(j);
    if a == b {
      DecimalInjective(i, j);
    }
    assert Payload(i)[2] == "file" && Metadata(j)[2] == "original.json";
    assert TRASH_DIR[|STATE_DIR|] == '_';
    assert Payload(i)[0] == TRASH_DIR && Metadata(i)[0] == TRASH_DIR;
    assert Backup(i)[0] == STATE_DIR && Absent(j)[0] == STATE_DIR;
    assert Payload(i)[1][6..] == a && Payload(j)[1][6..] == b;
    assert Metadata(i)[1][6..] == a && Metadata(j)[1][6..] == b;
    SameSuffix(a, b, ".bak");
    SameSuffix(a, b, ".absent");
    assert Backup(i)[2][3..] == a + ".bak" && Backup(j)[2][3..] == b + ".bak";
    assert Absent(i)[2][3..] == a + ".absent" && Absent(j)[2][3..] == b + ".absent";
    var x, y := Backup(i)[2], Absent(j)[2];
    assert x[|x| - 1] == 'k' && y[|y| - 1] == 't';
    var z := Absent(i)[2];
    var w := Backup(j)[2];
    assert z[|z| - 1] == 't' && w[|w| - 1] == 'k';
  }

  lemma SameSuffix(a: string, b: string, c: string)
    ensures a + c == b + c ==> a == b
  {
    if a + c == b + c {
      assert |a| == |b|;
      assert (a + c)[..|a|] == a && (b + c)[..|b|] == b;
    }
  }

  // ----- Reading the journal

  function IdsWith(rows: seq<Entry>, statuses: set<Status>): set<nat> {
    set e | e in rows && e.status in statuses :: e.id
  }

  /** Ids with an Undone row. */
  function UndoneIds(rows: seq<Entry>): set<nat> {
    IdsWith(rows, {Undone})
  }

  /** Ids that `pending_planned_operation` no longer treats as pending. */
  function CompletedIds(rows: seq<Entry>): set<nat> {
    IdsWith(rows, {Executed, Undone, UndoPlanned})
  }

  /** A Planned row of a move with these ends whose operation has no later row. */
  predicate Pending(e: Entry, completed: set<nat>, from: Path, to: Path) {
    e.status.Planned? && e.action.Move? && e.from == from && e.to == to && e.id !in completed
  }

  /** The newest pending operation among `rows`. */
  function NewestPending(rows: seq<Entry>, completed: set<nat>, from: Path, to: Path): (r: Option<nat>)
    ensures r.Some? ==> exists e :: e in rows && Pending(e, completed, from, to) && e.id == r.value
    ensures r.None? ==> forall e :: e in rows ==> !Pending(e, completed, from, to)
  {
    if rows == [] then None
    else
      var last := rows[|rows| - 1];
      if Pending(last, completed, from, to) then Some(last.id)
      else NewestPending(rows[..|rows| - 1], completed, from, to)
  }

  function PendingPlanned(rows: seq<Entry>, from: Path, to: Path): Option<nat> {
    NewestPending(rows, CompletedIds(rows), from, to)
  }

  /** It is the newest one: no row after it is pending for these paths. */
  lemma {:induction false} PendingIsNewest(rows: seq<Entry>, completed: set<nat>, from: Path, to: Path)
    ensures match NewestPending(rows, completed, from, to)
            case None => forall i :: 0 <= i < |rows| ==> !Pending(rows[i], completed, from, to)
            case Some(id) => exists i :: 0 <= i < |rows| && rows[i].id == id && LastPending(rows, completed, from, to, i)
    decreases |rows|
  {
    if rows != [] {
      var rest, last := rows[..|rows| - 1], rows[|rows| - 1];
      if Pending(last, completed, from, to) {
        assert LastPending(rows, completed, from, to, |rows| - 1);
      } else {
        PendingIsNewest(rest, completed, from, to);
        if NewestPending(rest, completed, from, to).Some? {
          var i :| 0 <= i < |rest| && rest[i].id == NewestPending(rest, completed, from, to).value && LastPending(rest, completed, from, to, i);
          assert LastPending(rows, completed, from, to, i);
        }
      }
    }
  }

  /** The row at i is pending, and none after it is. */
  predicate LastPending(rows: seq<Entry>, completed: set<nat>, from: Path, to: Path, i: nat) {
    i < |rows| && Pending(rows[i], completed, from, to) && forall j :: i < j < |rows| ==> !Pending(rows[j], completed, from, to)
  }
}
