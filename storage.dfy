/** The catalogue side of `marv.storage.Storage`: reconciling scanned
    candidate filesets with the catalogue (`scan_all`), the missing-file
    sweep (`_detect_missing`) and the reading of pending filesets
    (`read_pending`). The database is a sequence of rows whose ids are their
    positions plus one; a query's `.first()` is the first matching row. */
module Storage {
  import opened Wrappers
  import opened Strings
  import opened Model

  /** What `scan_all` does with one candidate, as its log lines say. */
  datatype Outcome =
    | Updated(id: nat, changed: seq<Attr>)
    | DuplicateSkipped(kept: nat)
    | Superseded(previous: nat, id: nat)
    | Added(id: nat)
    | Md5Mismatch
    | RolledBack(error: string)

  const SupersededReason := "__superseded__"
  const IndexError := "IndexError: list index out of range"
  const NameError := "NameError: global name 'subprocess' is not defined"

  /** An active fileset is one not marked deleted; a pending one is active
      and not yet read. */
  predicate Active(row: Fileset) { !row.deleted }

  predicate Pending(row: Fileset) { !row.deleted && row.timeRead.None? }

  /** Row ids are the positions plus one, as the auto-increment key hands
      them out. */
  predicate Numbered(rows: seq<Fileset>)
  {
    forall i :: 0 <= i < |rows| ==> rows[i].id == i + 1
  }

  function HasMd5(md5: string): Fileset -> bool
  {
    (row: Fileset) => row.md5 == md5
  }

  function HasNameKind(name: string, kind: string): Fileset -> bool
  {
    (row: Fileset) => row.name == name && row.kind == kind
  }

  /** `active_filesets.filter(...).first()`: the first active row that
      satisfies `p`, if any. */
  function FirstActive(rows: seq<Fileset>, p: Fileset -> bool): (r: Option<nat>)
    ensures r.None? <==> forall i :: 0 <= i < |rows| ==> rows[i].deleted || !p(rows[i])
    ensures r.Some? ==> r.value < |rows| && Active(rows[r.value]) && p(rows[r.value])
    ensures r.Some? ==> forall i :: 0 <= i < r.value ==> rows[i].deleted || !p(rows[i])
  {
    if |rows| == 0 then None
    else if Active(rows[0]) && p(rows[0]) then Some(0)
    else match FirstActive(rows[1..], p)
      case None => None
      case Some(k) => Some(k + 1)
  }

  /** The duplicate test of both branches: the first files' paths differ
      and both exist. Taking the first file of a fileset without files
      raises `IndexError`. */
  function IsDuplicate(active: Fileset, found: Fileset, present: string -> bool): (r: Result<bool, string>)
    ensures r.Err? <==> |active.files| == 0 || |found.files| == 0
  {
    if |active.files| == 0 || |found.files| == 0 then Err(IndexError)
    else
      var a := FilePath(active.dirpath, active.files[0]);
      var f := FilePath(found.dirpath, found.files[0]);
      Ok(a != f && present(a) && present(f))
  }

  function Supersede(row: Fileset): Fileset
  {
    row.(deleted := true, deletedReason := Some(SupersededReason))
  }

  /** A candidate appended to the catalogue gets the next id. */
  function Appended(rows: seq<Fileset>, found: Fileset): Fileset
  {
    found.(id := |rows| + 1)
  }

  /** The body of the `scan_all` loop for one candidate: the catalogue
      afterwards and the outcome. An exception rolls the catalogue back. */
  function Handle(rows: seq<Fileset>, found: Fileset, present: string -> bool,
                  verify: Fileset -> Result<bool, string>, now: int): (seq<Fileset>, Outcome)
  {
    match FirstActive(rows, HasMd5(found.md5))
    case Some(i) =>
      (match IsDuplicate(rows[i], found, present)
       case Err(e) => (rows, RolledBack(e))
       case Ok(true) => (rows, DuplicateSkipped(rows[i].id))
       case Ok(false) =>
         var (row, changed) := UpdatedFrom(rows[i], found, now);
         (rows[i := row], Updated(rows[i].id, changed)))
    case None =>
      match FirstActive(rows, HasNameKind(found.name, found.kind))
      case None =>
        (match verify(found)
         case Err(e) => (rows, RolledBack(e))
         case Ok(false) => (rows, Md5Mismatch)
         case Ok(true) => (rows + [Appended(rows, found)], Added(|rows| + 1)))
      case Some(j) =>
        match IsDuplicate(rows[j], found, present)
        case Err(e) => (rows, RolledBack(e))
        case Ok(true) => (rows, DuplicateSkipped(rows[j].id))
        case Ok(false) =>
          (rows[j := Supersede(rows[j])] + [Appended(rows, found)], Superseded(rows[j].id, |rows| + 1))
  }

  /** The `scan_all` loop over all candidates, with one outcome each. */
  function Reconcile(rows: seq<Fileset>, found: seq<Fileset>, present: string -> bool,
                     verify: Fileset -> Result<bool, string>, now: int): (seq<Fileset>, seq<Outcome>)
  {
    if |found| == 0 then (rows, [])
    else
      var (before, log) := Reconcile(rows, found[..|found| - 1], present, verify, now);
      var (after, outcome) := Handle(before, found[|found| - 1], present, verify, now);
      (after, log + [outcome])
  }

  /** `_detect_missing` for one row: every file of an active fileset is
      marked missing exactly when its path does not exist. */
  function MarkFiles(dirpath: string, files: seq<File>, present: string -> bool): (r: seq<File>)
    ensures |r| == |files|
    ensures forall j :: 0 <= j < |r| ==> r[j] == files[j].(missing := !present(FilePath(dirpath, files[j])))
  {
    seq(|files|, j requires 0 <= j < |files| => files[j].(missing := !present(FilePath(dirpath, files[j]))))
  }

  function MarkRow(row: Fileset, present: string -> bool): Fileset
  {
    if row.deleted then row else row.(files := MarkFiles(row.dirpath, row.files, present))
  }

  function DetectedMissing(rows: seq<Fileset>, present: string -> bool): (r: seq<Fileset>)
    ensures |r| == |rows|
    ensures forall i :: 0 <= i < |r| ==> r[i] == MarkRow(rows[i], present)
  {
    seq(|rows|, i requires 0 <= i < |rows| => MarkRow(rows[i], present))
  }

  /** What the chained scan generators deliver to `scan_all`: the filesets
      they yield, in order, and the exception, if any, that one of them
      raised after yielding these. */
  datatype Scan = Scan(found: seq<Fileset>, raised: Option<string>)

  /** `scan_all`: the loop over the yielded candidates, each one committed as
      it is handled, then the missing-file sweep. The generators run outside
      the loop's `try`, so an exception of theirs leaves the loop: the
      candidates handled so far stay, the sweep does not run and the
      exception propagates. */
  function ScanAllSpec(rows: seq<Fileset>, scan: Scan, present: string -> bool,
                       verify: Fileset -> Result<bool, string>, now: int): (seq<Fileset>, seq<Outcome>, Option<string>)
  {
    var (after, log) := Reconcile(rows, scan.found, present, verify, now);
    if scan.raised.Some? then (after, log, scan.raised)
    else (DetectedMissing(after, present), log, None)
  }

  /** Reading one pending fileset. `read` stands for the format reader of
      the fileset's type: `None` when it returns, `Some(message)` when it
      raises (a missing reader for the type included). */
  function ReadOne(row: Fileset, read: Fileset -> Option<string>, now: int): Fileset
  {
    match read(row)
    case None => row.(timeRead := Some(now), readSucceeded := Some(true))
    case Some(msg) =>
      row.(timeRead := Some(now), readSucceeded := Some(false),
           readError := Some(if msg == "" then "unknown" else msg))
  }

  function ReadAll(rows: seq<Fileset>, read: Fileset -> Option<string>, now: int): (r: seq<Fileset>)
    ensures |r| == |rows|
    ensures forall i :: 0 <= i < |r| ==> r[i] == if Pending(rows[i]) then ReadOne(rows[i], read, now) else rows[i]
  {
    seq(|rows|, i requires 0 <= i < |rows| => if Pending(rows[i]) then ReadOne(rows[i], read, now) else rows[i])
  }

  /** `verify_md5` as written: with no files it accepts; the first file
      reaches `subprocess.call`, and `subprocess` is never imported. */
  function VerifyAsWritten(fileset: Fileset): (r: Result<bool, string>)
    ensures r.Ok? <==> |fileset.files| == 0
    ensures r.Ok? ==> r.value
  {
    if |fileset.files| == 0 then Ok(true) else Err(NameError)
  }

  /** Every file's sidecar checks out: `md5sum -c <name>.md5`, run in the
      fileset's directory, stands for `md5ok(dirpath, name)`. */
  predicate AllMd5Ok(fileset: Fileset, md5ok: (string, string) -> bool)
  {
    forall j :: 0 <= j < |fileset.files| ==> md5ok(fileset.dirpath, fileset.files[j].name)
  }

  /** `verify_md5` as intended, as the verifier `scan_all` is given. */
  function Md5Verifier(md5ok: (string, string) -> bool): Fileset -> Result<bool, string>
  {
    fileset => Ok(AllMd5Ok(fileset, md5ok))
  }

  /** The loop of `verify_md5` as intended: it stops at the first file whose
      check fails. */
  method VerifyMd5(fileset: Fileset, md5ok: (string, string) -> bool) returns (ok: bool)
    ensures ok <==> AllMd5Ok(fileset, md5ok)
    ensures !ok ==> exists j :: 0 <= j < |fileset.files| && !md5ok(fileset.dirpath, fileset.files[j].name)
  {
    for j := 0 to |fileset.files|
      invariant forall k :: 0 <= k < j ==> md5ok(fileset.dirpath, fileset.files[k].name)
    {
      if !md5ok(fileset.dirpath, fileset.files[j].name) {
        return false;
      }
    }
    return true;
  }

  /** The catalogue of one storage. */
  class Catalogue {
    var filesets: seq<Fileset>

    ghost predicate Valid()
      reads this
    {
      Numbered(filesets)
    }

    constructor ()
      ensures Valid() && filesets == []
    {
      filesets := [];
    }

    /** One iteration of the `scan_all` loop. */
    method HandleFound(found: Fileset, present: string -> bool,
                       verify: Fileset -> Result<bool, string>, now: int) returns (outcome: Outcome)
      requires Valid()
      modifies this
      ensures Valid()
      ensures (filesets, outcome) == Handle(old(filesets), found, present, verify, now)
    {
      HandleNumbered(filesets, found, present, verify, now);
      var hit := FirstActive(filesets, HasMd5(found.md5));
      if hit.Some? {
        var i := hit.value;
        var active := filesets[i];
        var dup := IsDuplicate(active, found, present);
        if dup.Err? {
          return RolledBack(dup.error);
        }
        if dup.value {
          return DuplicateSkipped(active.id);
        }
        var row, changed := UpdateFrom(active, found, now);
        filesets := filesets[i := row];
        return Updated(active.id, changed);
      }
      var named := FirstActive(filesets, HasNameKind(found.name, found.kind));
      if named.None? {
        var verified := verify(found);
        if verified.Err? {
          return RolledBack(verified.error);
        }
        if !verified.value {
          return Md5Mismatch;
        }
        var id := |filesets| + 1;
        filesets := filesets + [found.(id := id)];
        return Added(id);
      }
      var j := named.value;
      var active := filesets[j];
      var dup := IsDuplicate(active, found, present);
      if dup.Err? {
        return RolledBack(dup.error);
      }
      if dup.value {
        return DuplicateSkipped(active.id);
      }
      var id := |filesets| + 1;
      filesets := filesets[j := Supersede(active)] + [found.(id := id)];
      return Superseded(active.id, id);
    }

    /** `_detect_missing`. */
    method DetectMissing(present: string -> bool)
      requires Valid()
      modifies this
      ensures Valid()
      ensures filesets == DetectedMissing(old(filesets), present)
    {
      for i := 0 to |filesets|
        invariant |filesets| == |old(filesets)|
        invariant forall k :: 0 <= k < i ==> filesets[k] == MarkRow(old(filesets)[k], present)
        invariant forall k :: i <= k < |filesets| ==> filesets[k] == old(filesets)[k]
      {
        var row := filesets[i];
        if !row.deleted {
          var files := row.files;
          for j := 0 to |row.files|
            invariant |files| == |row.files|
            invariant forall k :: 0 <= k < j ==> files[k] == row.files[k].(missing := !present(FilePath(row.dirpath, row.files[k])))
            invariant forall k :: j <= k < |files| ==> files[k] == row.files[k]
          {
            var missing := !present(FilePath(row.dirpath, row.files[j]));
            if missing != row.files[j].missing {
              files := files[j := files[j].(missing := missing)];
            }
          }
          filesets := filesets[i := row.(files := files)];
        }
      }
    }

    /** `scan_all`. */
    method ScanAll(scan: Scan, present: string -> bool,
                   verify: Fileset -> Result<bool, string>, now: int) returns (log: seq<Outcome>, raised: Option<string>)
      requires Valid()
      modifies this
      ensures Valid()
      ensures (filesets, log, raised) == ScanAllSpec(old(filesets), scan, present, verify, now)
    {
      var found := scan.found;
      log := [];
      for k := 0 to |found|
        invariant Valid()
        invariant (filesets, log) == Reconcile(old(filesets), found[..k], present, verify, now)
      {
        assert found[..k + 1][..k] == found[..k];
        var outcome := HandleFound(found[k], present, verify, now);
        log := log + [outcome];
      }
      assert found[..|found|] == found;
      ghost var reconciled := filesets;
      assert (reconciled, log) == Reconcile(old(filesets), scan.found, present, verify, now);
      raised := scan.raised;
      if raised.None? {
        DetectMissing(present);
        assert filesets == DetectedMissing(reconciled, present);
      }
    }

    /** `read_pending`. */
    method ReadPending(read: Fileset -> Option<string>, now: int)
      requires Valid()
      modifies this
      ensures Valid()
      ensures filesets == ReadAll(old(filesets), read, now)
    {
      for i := 0 to |filesets|
        invariant |filesets| == |old(filesets)|
        invariant forall k :: 0 <= k < i ==>
          filesets[k] == if Pending(old(filesets)[k]) then ReadOne(old(filesets)[k], read, now) else old(filesets)[k]
        invariant forall k :: i <= k < |filesets| ==> filesets[k] == old(filesets)[k]
      {
        var row := filesets[i];
        if Pending(row) {
          var error := read(row);
          if error.None? {
            row := row.(timeRead := Some(now), readSucceeded := Some(true));
          } else {
            row := row.(timeRead := Some(now), readSucceeded := Some(false),
                        readError := Some(if error.value == "" then "unknown" else error.value));
          }
          filesets := filesets[i := row];
        }
      }
    }
  }

  /** On an md5 hit among the active filesets no row is added: a duplicate
      (first paths differ and both exist) leaves the catalogue as it was;
      otherwise the hit row is updated from the candidate, and when nothing
      differed the catalogue is unchanged. */
  lemma Md5Hit(rows: seq<Fileset>, found: Fileset, present: string -> bool,
               verify: Fileset -> Result<bool, string>, now: int, i: nat)
    requires FirstActive(rows, HasMd5(found.md5)) == Some(i)
    requires |rows[i].files| > 0 && |found.files| > 0
    ensures var (after, outcome) := Handle(rows, found, present, verify, now);
      var a := FilePath(rows[i].dirpath, rows[i].files[0]);
      var f := FilePath(found.dirpath, found.files[0]);
      |after| == |rows| &&
      (a != f && present(a) && present(f) ==> after == rows && outcome == DuplicateSkipped(rows[i].id)) &&
      (!(a != f && present(a) && present(f)) ==>
        after == rows[i := UpdatedFrom(rows[i], found, now).0] &&
        outcome == Updated(rows[i].id, UpdatedFrom(rows[i], found, now).1) &&
        (outcome.changed == [] ==> after == rows))
  {
    UpdateFromNoChange(rows[i], found, now);
  }

  /** A candidate whose md5 and whose name and type match no active row is
      appended as a new row with the next id, when `verify_md5` accepts it;
      deleted rows are not looked at and stay as they were. */
  lemma NewFileset(rows: seq<Fileset>, found: Fileset, present: string -> bool,
                   verify: Fileset -> Result<bool, string>, now: int)
    requires forall i :: 0 <= i < |rows| ==> rows[i].deleted || rows[i].md5 != found.md5
    requires forall i :: 0 <= i < |rows| ==> rows[i].deleted || rows[i].name != found.name || rows[i].kind != found.kind
    requires verify(found) == Ok(true)
    ensures var (after, outcome) := Handle(rows, found, present, verify, now);
      after == rows + [found.(id := |rows| + 1)] && outcome == Added(|rows| + 1)
  {
    assert FirstActive(rows, HasMd5(found.md5)).None?;
    assert FirstActive(rows, HasNameKind(found.name, found.kind)).None?;
  }

  /** The same candidate when `verify_md5` rejects it or raises: nothing is
      added. */
  lemma NewFilesetRejected(rows: seq<Fileset>, found: Fileset, present: string -> bool,
                           verify: Fileset -> Result<bool, string>, now: int)
    requires forall i :: 0 <= i < |rows| ==> rows[i].deleted || rows[i].md5 != found.md5
    requires forall i :: 0 <= i < |rows| ==> rows[i].deleted || rows[i].name != found.name || rows[i].kind != found.kind
    requires verify(found) != Ok(true)
    ensures var (after, outcome) := Handle(rows, found, present, verify, now);
      after == rows && (outcome == Md5Mismatch || outcome.RolledBack?)
  {
    assert FirstActive(rows, HasMd5(found.md5)).None?;
    assert FirstActive(rows, HasNameKind(found.name, found.kind)).None?;
  }

  /** With no md5 hit but an active row of the same name and type whose
      first file lives elsewhere while both files exist, the candidate is
      skipped as a duplicate. */
  lemma NameDuplicate(rows: seq<Fileset>, found: Fileset, present: string -> bool,
                      verify: Fileset -> Result<bool, string>, now: int, j: nat)
    requires FirstActive(rows, HasMd5(found.md5)).None?
    requires FirstActive(rows, HasNameKind(found.name, found.kind)) == Some(j)
    requires |rows[j].files| > 0 && |found.files| > 0
    requires var a := FilePath(rows[j].dirpath, rows[j].files[0]);
      var f := FilePath(found.dirpath, found.files[0]);
      a != f && present(a) && present(f)
    ensures Handle(rows, found, present, verify, now) == (rows, DuplicateSkipped(rows[j].id))
  {
  }

  /** At most one active row has the given name and type. */
  predicate ActiveNamed(row: Fileset, name: string, kind: string)
  {
    Active(row) && row.name == name && row.kind == kind
  }

  predicate AtMostOneActive(rows: seq<Fileset>, name: string, kind: string)
  {
    forall i, k ::
      0 <= i < |rows| && 0 <= k < |rows| && ActiveNamed(rows[i], name, kind) && ActiveNamed(rows[k], name, kind) ==> i == k
  }

  /** Otherwise the active row of that name and type is marked deleted as
      superseded and the candidate appended; if that row was the only active
      one of its name and type, the new row is afterwards the only one, and
      it is pending when the candidate is. */
  lemma Supersedes(rows: seq<Fileset>, found: Fileset, present: string -> bool,
                   verify: Fileset -> Result<bool, string>, now: int, j: nat)
    requires FirstActive(rows, HasMd5(found.md5)).None?
    requires FirstActive(rows, HasNameKind(found.name, found.kind)) == Some(j)
    requires |rows[j].files| > 0 && |found.files| > 0
    requires var a := FilePath(rows[j].dirpath, rows[j].files[0]);
      var f := FilePath(found.dirpath, found.files[0]);
      !(a != f && present(a) && present(f))
    ensures var (after, outcome) := Handle(rows, found, present, verify, now);
      after == rows[j := Supersede(rows[j])] + [found.(id := |rows| + 1)] &&
      outcome == Superseded(rows[j].id, |rows| + 1) &&
      after[j].deleted && after[j].deletedReason == Some("__superseded__")
    ensures var after := Handle(rows, found, present, verify, now).0;
      AtMostOneActive(rows, found.name, found.kind) && !found.deleted ==>
        (forall i :: 0 <= i < |after| ==> (ActiveNamed(after[i], found.name, found.kind) <==> i == |rows|)) &&
        (Pending(found) ==> Pending(after[|rows|]))
  {
    var after := Handle(rows, found, present, verify, now).0;
    if AtMostOneActive(rows, found.name, found.kind) && !found.deleted {
      forall i | 0 <= i < |rows| ensures !ActiveNamed(after[i], found.name, found.kind) {
        if i != j {
          assert after[i] == rows[i];
        }
      }
    }
  }

  /** An exception while handling a candidate rolls the catalogue back. */
  lemma RollsBack(rows: seq<Fileset>, found: Fileset, present: string -> bool,
                  verify: Fileset -> Result<bool, string>, now: int)
    ensures var (after, outcome) := Handle(rows, found, present, verify, now);
      outcome.RolledBack? ==> after == rows
  {
  }

  /** Handling a candidate keeps the ids numbered and adds at most one row;
      rows are never removed, and the old rows keep their ids, md5 and
      time added. */
  lemma HandleNumbered(rows: seq<Fileset>, found: Fileset, present: string -> bool,
                       verify: Fileset -> Result<bool, string>, now: int)
    requires Numbered(rows)
    ensures var after := Handle(rows, found, present, verify, now).0;
      Numbered(after) && |rows| <= |after| <= |rows| + 1 &&
      forall i :: 0 <= i < |rows| ==>
        after[i].id == rows[i].id && after[i].md5 == rows[i].md5 && after[i].timeAdded == rows[i].timeAdded
  {
    var after := Handle(rows, found, present, verify, now).0;
    ExtendsSame(rows);
    match FirstActive(rows, HasMd5(found.md5))
    case Some(i) =>
      var row := UpdatedFrom(rows[i], found, now).0;
      UpdateFromNoChange(rows[i], found, now);
      if UpdatedFrom(rows[i], found, now).1 != [] {
        UpdateFromCopies(rows[i], found, now);
      }
      ExtendsReplace(rows, i, row);
      assert after == rows || after == rows[i := row];
    case None =>
      ExtendsAppend(rows, found);
      match FirstActive(rows, HasNameKind(found.name, found.kind))
      case None =>
        assert after == rows || after == rows + [Appended(rows, found)];
      case Some(j) =>
        ExtendsSupersede(rows, j, found);
        assert after == rows || after == rows[j := Supersede(rows[j])] + [Appended(rows, found)];
    Grows(rows, after);
  }

  /** `after` keeps the rows of `rows` with their ids, md5 and time added,
      possibly followed by one row with the next id. */
  predicate Extends(rows: seq<Fileset>, after: seq<Fileset>)
  {
    && |rows| <= |after| <= |rows| + 1
    && (forall i :: 0 <= i < |rows| ==>
          after[i].id == rows[i].id && after[i].md5 == rows[i].md5 && after[i].timeAdded == rows[i].timeAdded)
    && (|after| > |rows| ==> after[|rows|].id == |rows| + 1)
  }

  lemma ExtendsSame(rows: seq<Fileset>)
    ensures Extends(rows, rows)
  {
  }

  lemma ExtendsReplace(rows: seq<Fileset>, i: nat, row: Fileset)
    requires i < |rows| && row.id == rows[i].id && row.md5 == rows[i].md5 && row.timeAdded == rows[i].timeAdded
    ensures Extends(rows, rows[i := row])
  {
  }

  lemma ExtendsAppend(rows: seq<Fileset>, found: Fileset)
    ensures Extends(rows, rows + [Appended(rows, found)])
  {
  }

  lemma ExtendsSupersede(rows: seq<Fileset>, j: nat, found: Fileset)
    requires j < |rows|
    ensures Extends(rows, rows[j := Supersede(rows[j])] + [Appended(rows, found)])
  {
  }

  /** Rows replaced by rows with the same id, md5 and time added, possibly
      followed by one row with the next id, keep the catalogue numbered. */
  lemma Grows(rows: seq<Fileset>, after: seq<Fileset>)
    requires Numbered(rows) && Extends(rows, after)
    ensures Numbered(after)
  {
  }

  /** The whole loop: one outcome per candidate, at most one new row per
      candidate, ids kept numbered. */
  lemma {:induction false} ReconcileNumbered(rows: seq<Fileset>, found: seq<Fileset>, present: string -> bool,
                                             verify: Fileset -> Result<bool, string>, now: int)
    requires Numbered(rows)
    ensures var (after, log) := Reconcile(rows, found, present, verify, now);
      Numbered(after) && |log| == |found| && |rows| <= |after| <= |rows| + |found| &&
      forall i :: 0 <= i < |rows| ==> after[i].id == rows[i].id && after[i].md5 == rows[i].md5
  {
    if |found| > 0 {
      ReconcileNumbered(rows, found[..|found| - 1], present, verify, now);
      var before := Reconcile(rows, found[..|found| - 1], present, verify, now).0;
      HandleNumbered(before, found[|found| - 1], present, verify, now);
    }
  }

  /** `scan_all` leaves the catalogue numbered with one outcome per yielded
      candidate; the sweep runs exactly when the scan did not raise, and a
      raised exception is passed on unchanged. */
  lemma ScanAllOutcome(rows: seq<Fileset>, scan: Scan, present: string -> bool,
                       verify: Fileset -> Result<bool, string>, now: int)
    requires Numbered(rows)
    ensures var (after, log, raised) := ScanAllSpec(rows, scan, present, verify, now);
      var reconciled := Reconcile(rows, scan.found, present, verify, now).0;
      && Numbered(after) && |log| == |scan.found| && raised == scan.raised
      && (raised.Some? ==> after == reconciled)
      && (raised.None? ==> after == DetectedMissing(reconciled, present))
  {
    ReconcileNumbered(rows, scan.found, present, verify, now);
  }

  /** After the sweep every file of every active fileset is marked missing
      exactly when its path does not exist, and deleted filesets are
      untouched; only the `missing` marks change. */
  lemma DetectMissingMarks(rows: seq<Fileset>, present: string -> bool)
    ensures var after := DetectedMissing(rows, present);
      |after| == |rows| &&
      forall i :: 0 <= i < |rows| ==>
        (rows[i].deleted ==> after[i] == rows[i]) &&
        after[i] == rows[i].(files := after[i].files) &&
        |after[i].files| == |rows[i].files| &&
        forall j :: 0 <= j < |rows[i].files| ==>
          after[i].files[j] == rows[i].files[j].(missing := after[i].files[j].missing) &&
          (!rows[i].deleted ==> (after[i].files[j].missing <==> !present(FilePath(rows[i].dirpath, rows[i].files[j]))))
  {
  }

  /** A second sweep over an unchanged filesystem changes nothing. */
  lemma DetectMissingIdempotent(rows: seq<Fileset>, present: string -> bool)
    ensures DetectedMissing(DetectedMissing(rows, present), present) == DetectedMissing(rows, present)
  {
    var once := DetectedMissing(rows, present);
    var twice := DetectedMissing(once, present);
    forall i | 0 <= i < |rows| ensures twice[i] == once[i] {
      if !rows[i].deleted {
        assert twice[i].files == once[i].files;
      }
    }
  }

  /** After the sweep an active fileset is broken exactly when one of its
      files does not exist. */
  lemma DetectMissingBroken(rows: seq<Fileset>, present: string -> bool, i: nat)
    requires i < |rows| && !rows[i].deleted
    ensures Broken(DetectedMissing(rows, present)[i]) <==>
      exists j :: 0 <= j < |rows[i].files| && !present(FilePath(rows[i].dirpath, rows[i].files[j]))
  {
    var after := DetectedMissing(rows, present)[i];
    assert forall j :: 0 <= j < |rows[i].files| ==>
      after.files[j].missing == !present(FilePath(rows[i].dirpath, rows[i].files[j]));
  }

  /** After `read_pending` no fileset is pending; every formerly pending one
      has been read at `now`, successfully exactly when the reader returned,
      with the reader's message (or `unknown` for an empty one) on failure;
      all other rows are untouched. */
  lemma ReadPendingDone(rows: seq<Fileset>, read: Fileset -> Option<string>, now: int)
    ensures var after := ReadAll(rows, read, now);
      |after| == |rows| &&
      (forall i :: 0 <= i < |after| ==> !Pending(after[i])) &&
      forall i :: 0 <= i < |rows| ==>
        (!Pending(rows[i]) ==> after[i] == rows[i]) &&
        (Pending(rows[i]) ==>
          after[i].timeRead == Some(now) && after[i].id == rows[i].id && !after[i].deleted &&
          (after[i].readSucceeded == Some(true) <==> read(rows[i]).None?) &&
          after[i].readSucceeded.Some? &&
          (read(rows[i]).Some? ==>
            after[i].readError == Some(if read(rows[i]).value == "" then "unknown" else read(rows[i]).value)))
  {
  }

  /** As written, a brand-new candidate with files is never added: the
      verifier raises `NameError` and the candidate is rolled back. */
  lemma NewFilesetAsWritten(rows: seq<Fileset>, found: Fileset, present: string -> bool, now: int)
    requires forall i :: 0 <= i < |rows| ==> rows[i].deleted || rows[i].md5 != found.md5
    requires forall i :: 0 <= i < |rows| ==> rows[i].deleted || rows[i].name != found.name || rows[i].kind != found.kind
    requires |found.files| > 0
    ensures Handle(rows, found, present, VerifyAsWritten, now) == (rows, RolledBack(NameError))
  {
    assert FirstActive(rows, HasMd5(found.md5)).None?;
    assert FirstActive(rows, HasNameKind(found.name, found.kind)).None?;
  }

  /** With the intended verifier, the same candidate is added exactly when
      the sidecar of each of its files checks out. */
  lemma NewFilesetVerified(rows: seq<Fileset>, found: Fileset, present: string -> bool,
                           md5ok: (string, string) -> bool, now: int)
    requires forall i :: 0 <= i < |rows| ==> rows[i].deleted || rows[i].md5 != found.md5
    requires forall i :: 0 <= i < |rows| ==> rows[i].deleted || rows[i].name != found.name || rows[i].kind != found.kind
    ensures var (after, outcome) := Handle(rows, found, present, Md5Verifier(md5ok), now);
      (AllMd5Ok(found, md5ok) ==> after == rows + [found.(id := |rows| + 1)] && outcome == Added(|rows| + 1)) &&
      (!AllMd5Ok(found, md5ok) ==> after == rows && outcome == Md5Mismatch)
  {
    assert FirstActive(rows, HasMd5(found.md5)).None?;
    assert FirstActive(rows, HasNameKind(found.name, found.kind)).None?;
  }
}
