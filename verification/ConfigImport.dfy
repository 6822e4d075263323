/**
 Importing a configuration document (src/sluicery/core/config_transfer.py): what the preview lists
 and what the confirmed import does. Rows are numbered by table, and one dictionary holds the
 references of storages, profiles and playlists alike, as the importer's does.
 */
module ConfigImport {
  import opened Common

  datatype Mode = SkipExisting | OverwriteExisting | CreateAlways

  datatype Action = Create | Overwrite | Skip

  /** folder is meaningful for playlists only; data stands for the other imported columns. */
  datatype Row = Row(name: string, folder: string, data: string)

  datatype Entry = Entry(ref: string, name: string, folder: string, data: string)

  datatype Assignment = Assignment(playlist: nat, profile: nat, storage: nat, data: string)

  datatype Link = Link(playlistRef: string, profileRef: string, storageRef: string, data: string)

  datatype Database = Database(
    storages: seq<Row>, profiles: seq<Row>, playlists: seq<Row>, assignments: seq<Assignment>,
    settings: map<string, string>)

  /** settings holds distinct keys in sorted order. */
  datatype Document = Document(
    storages: seq<Entry>, profiles: seq<Entry>, playlists: seq<Entry>, links: seq<Link>,
    settings: seq<(string, string)>)

  type Refs = map<string, Option<nat>>

  datatype Counts = Counts(created: nat, overwritten: nat, skipped: nat)
  {
    function Plus(a: Action): Counts {
      match a
      case Create => this.(created := created + 1)
      case Overwrite => this.(overwritten := overwritten + 1)
      case Skip => this.(skipped := skipped + 1)
    }
  }

  // ---- looking up ----

  function Find(rows: seq<Row>, name: string): (r: Option<nat>)
    ensures r.Some? ==> r.value < |rows| && rows[r.value].name == name
    ensures r == None ==> forall i :: 0 <= i < |rows| ==> rows[i].name != name
  {
    if rows == [] then None
    else
      var before := Find(rows[..|rows| - 1], name);
      if before.Some? then before else if rows[|rows| - 1].name == name then Some(|rows| - 1) else None
  }

  /** Two rows of one name; sluicery then refuses the whole import. */
  predicate Ambiguous(rows: seq<Row>, name: string) {
    exists i, j :: 0 <= i < j < |rows| && rows[i].name == name && rows[j].name == name
  }

  function FindAssignment(rows: seq<Assignment>, playlist: nat, profile: nat): (r: Option<nat>)
    ensures r.Some? ==> r.value < |rows| && rows[r.value].playlist == playlist && rows[r.value].profile == profile
    ensures r == None ==> forall i :: 0 <= i < |rows| ==> !(rows[i].playlist == playlist && rows[i].profile == profile)
  {
    if rows == [] then None
    else
      var before := FindAssignment(rows[..|rows| - 1], playlist, profile);
      var last := rows[|rows| - 1];
      if before.Some? then before else if last.playlist == playlist && last.profile == profile then Some(|rows| - 1)
        else None
  }

  function ActionFor(existing: Option<nat>, mode: Mode): Action {
    if existing == None then Create
    else
      match mode
      case OverwriteExisting => Overwrite
      case SkipExisting => Skip
      case CreateAlways => Create
  }

  // ---- the preview ----

  function EntryAction(rows: seq<Row>, e: Entry, mode: Mode): Action { ActionFor(Find(rows, e.name), mode) }

  function EntryActions(rows: seq<Row>, entries: seq<Entry>, mode: Mode): (r: seq<Action>)
    ensures |r| == |entries|
  {
    seq(|entries|, i requires 0 <= i < |entries| => EntryAction(rows, entries[i], mode))
  }

  /** The dictionary of the preview: the existing row, unless one is created. */
  function Resolve(refs: Refs, rows: seq<Row>, entries: seq<Entry>, mode: Mode): Refs {
    if entries == [] then refs
    else
      var last := entries[|entries| - 1];
      Resolve(refs, rows, entries[..|entries| - 1], mode)
      [last.ref := if EntryAction(rows, last, mode) == Create then None else Find(rows, last.name)]
  }

  function Resolved(db: Database, doc: Document, mode: Mode): Refs {
    Resolve(Resolve(Resolve(map[], db.storages, doc.storages, mode), db.profiles, doc.profiles, mode), db.playlists,
      doc.playlists, mode)
  }

  /** The assignment a link finds in the table, if both its ends are existing rows. */
  function LinkExisting(db: Database, refs: Refs, link: Link): (r: Option<nat>)
    ensures r.Some? ==> r.value < |db.assignments|
  {
    if link.playlistRef in refs && link.profileRef in refs && refs[link.playlistRef].Some?
      && refs[link.profileRef].Some? then
      FindAssignment(db.assignments, refs[link.playlistRef].value, refs[link.profileRef].value)
    else None
  }

  function LinkAction(db: Database, refs: Refs, link: Link, mode: Mode): Action {
    ActionFor(LinkExisting(db, refs, link), mode)
  }

  /** All rows of a document. */
  function RowCount(doc: Document): nat {
    |doc.storages| + |doc.profiles| + |doc.playlists| + |doc.links| + |doc.settings|
  }

  /** A setting cannot be duplicated, so creating over an existing one is skipped. */
  function SettingAction(db: Database, key: string, mode: Mode): Action {
    if key !in db.settings then Create
    else match mode case OverwriteExisting => Overwrite case _ => Skip
  }

  function Preview(db: Database, doc: Document, mode: Mode): (r: seq<Action>)
    ensures |r| == RowCount(doc)
  {
    EntryActions(db.storages, doc.storages, mode)
    + EntryActions(db.profiles, doc.profiles, mode)
    + EntryActions(db.playlists, doc.playlists, mode)
    + seq(|doc.links|, i requires 0 <= i < |doc.links| => LinkAction(db, Resolved(db, doc, mode), doc.links[i], mode))
    + seq(|doc.settings|, i requires 0 <= i < |doc.settings| => SettingAction(db, doc.settings[i].0, mode))
  }

  /** No entry's name belongs to two rows of its table. */
  predicate Resolvable(db: Database, doc: Document) {
    && (forall e <- doc.storages :: !Ambiguous(db.storages, e.name))
    && (forall e <- doc.profiles :: !Ambiguous(db.profiles, e.name))
    && (forall e <- doc.playlists :: !Ambiguous(db.playlists, e.name))
  }

  /** What the fingerprint of a plan is computed from: the rows met, which stand for their times of change. */
  datatype Snapshot = Snapshot(
    entries: seq<Option<(nat, Row)>>, links: seq<Option<(nat, Assignment)>>, settings: seq<Option<string>>)

  datatype Plan = Plan(mode: Mode, actions: seq<Action>, met: Snapshot)

  datatype ImportError = AmbiguousName | NotConfirmed | Aborted

  function Met(rows: seq<Row>, entries: seq<Entry>): seq<Option<(nat, Row)>> {
    seq(|entries|, i requires 0 <= i < |entries| =>
      match Find(rows, entries[i].name) case Some(k) => Some((k, rows[k])) case None => None)
  }

  function TakeSnapshot(db: Database, doc: Document, mode: Mode): Snapshot {
    var refs := Resolved(db, doc, mode);
    Snapshot(
      Met(db.storages, doc.storages) + Met(db.profiles, doc.profiles) + Met(db.playlists, doc.playlists),
      seq(|doc.links|, i requires 0 <= i < |doc.links| =>
        match LinkExisting(db, refs, doc.links[i]) case Some(k) => Some((k, db.assignments[k])) case None => None),
      seq(|doc.settings|, i requires 0 <= i < |doc.settings| =>
        if doc.settings[i].0 in db.settings then Some(db.settings[doc.settings[i].0]) else None))
  }

  function PlanImport(db: Database, doc: Document, mode: Mode): Result<Plan, ImportError> {
    if Resolvable(db, doc) then Ok(Plan(mode, Preview(db, doc, mode), TakeSnapshot(db, doc, mode)))
      else Err(AmbiguousName)
  }

  function Tally(actions: seq<Action>): Counts {
    if actions == [] then Counts(0, 0, 0) else Tally(actions[..|actions| - 1]).Plus(actions[|actions| - 1])
  }

  // ---- the import ----

  /** A table being imported into, the dictionary of row ids, and the counters. */
  datatype Progress = Progress(rows: seq<Row>, refs: map<string, nat>, counts: Counts)

  /** An existing row keeps its folder name: moving it is another operation. */
  function Overwritten(row: Row, e: Entry): Row { Row(e.name, row.folder, e.data) }

  /** One entry with the next previewed action; None where the importer raises. */
  function ApplyEntry(p: Progress, e: Entry, action: Action): Option<Progress> {
    var existing := Find(p.rows, e.name);
    if Ambiguous(p.rows, e.name) || (action != Create && existing == None) then None
    else
      match action
      case Create =>
        Some(Progress(p.rows + [Row(e.name, e.folder, e.data)], p.refs[e.ref := |p.rows|], p.counts.Plus(Create)))
      case Overwrite =>
        Some(Progress(p.rows[existing.value := Overwritten(p.rows[existing.value], e)], p.refs[e.ref := existing.value],
          p.counts.Plus(Overwrite)))
      case Skip => Some(Progress(p.rows, p.refs[e.ref := existing.value], p.counts.Plus(Skip)))
  }

  function ApplyEntries(p: Progress, entries: seq<Entry>, actions: seq<Action>): Option<Progress>
    requires |actions| == |entries|
  {
    if entries == [] then Some(p)
    else
      match ApplyEntries(p, entries[..|entries| - 1], actions[..|actions| - 1])
      case None => None
      case Some(before) => ApplyEntry(before, entries[|entries| - 1], actions[|actions| - 1])
  }

  datatype Linking = Linking(assignments: seq<Assignment>, counts: Counts)

  /** One assignment; None for an unknown reference, a failed assertion or a violated unique constraint. */
  function ApplyLink(l: Linking, refs: map<string, nat>, link: Link, action: Action): Option<Linking> {
    if link.playlistRef !in refs || link.profileRef !in refs || link.storageRef !in refs then None
    else
      var row := Assignment(refs[link.playlistRef], refs[link.profileRef], refs[link.storageRef], link.data);
      var existing := FindAssignment(l.assignments, row.playlist, row.profile);
      match action
      case Skip => Some(l.(counts := l.counts.Plus(Skip)))
      case Overwrite => if existing == None then None
        else Some(Linking(l.assignments[existing.value := row], l.counts.Plus(Overwrite)))
      case Create => if existing.Some? then None else Some(Linking(l.assignments + [row], l.counts.Plus(Create)))
  }

  function ApplyLinks(l: Linking, refs: map<string, nat>, links: seq<Link>, actions: seq<Action>): Option<Linking>
    requires |actions| == |links|
  {
    if links == [] then Some(l)
    else
      match ApplyLinks(l, refs, links[..|links| - 1], actions[..|actions| - 1])
      case None => None
      case Some(before) => ApplyLink(before, refs, links[|links| - 1], actions[|actions| - 1])
  }

  datatype Setting = Setting(values: map<string, string>, counts: Counts)

  function ApplySettings(s: Setting, settings: seq<(string, string)>, actions: seq<Action>): Setting
    requires |actions| == |settings|
  {
    if settings == [] then s
    else
      var before := ApplySettings(s, settings[..|settings| - 1], actions[..|actions| - 1]);
      var (key, value) := settings[|settings| - 1];
      if actions[|actions| - 1] == Skip then before.(counts := before.counts.Plus(Skip))
      else Setting(before.values[key := value], before.counts.Plus(if key in before.values then Overwrite else Create))
  }

  /** The single transaction; every part takes the actions of its own rows from the list, in order. */
  function Import(db: Database, doc: Document, actions: seq<Action>): Option<(Database, Counts)>
    requires |actions| == RowCount(doc)
  {
    var (a, b, c, d) := Cuts(doc);
    match ApplyEntries(Progress(db.storages, map[], Counts(0, 0, 0)), doc.storages, actions[..a])
    case None => None
    case Some(s) =>
      match ApplyEntries(Progress(db.profiles, s.refs, s.counts), doc.profiles, actions[a..b])
      case None => None
      case Some(p) =>
        match ApplyEntries(Progress(db.playlists, p.refs, p.counts), doc.playlists, actions[b..c])
        case None => None
        case Some(l) =>
          match ApplyLinks(Linking(db.assignments, l.counts), l.refs, doc.links, actions[c..d])
          case None => None
          case Some(linked) =>
            var set1 := ApplySettings(Setting(db.settings, linked.counts), doc.settings, actions[d..]);
            Some((Database(s.rows, p.rows, l.rows, linked.assignments, set1.values), set1.counts))
  }

  /** Planned again and compared with what was confirmed before anything is written. */
  function ConfirmedImport(db: Database, doc: Document, plan: Plan): Result<(Database, Counts), ImportError> {
    match PlanImport(db, doc, plan.mode)
    case Err(e) => Err(e)
    case Ok(current) =>
      if current.met != plan.met || current.actions != plan.actions then Err(NotConfirmed)
      else match Import(db, doc, current.actions) case Some(r) => Ok(r) case None => Err(Aborted)
  }

  function Cuts(doc: Document): (nat, nat, nat, nat) {
    var a := |doc.storages|;
    var b := a + |doc.profiles|;
    var c := b + |doc.playlists|;
    (a, b, c, c + |doc.links|)
  }

  /** The import of one table as it runs: rows, the dictionary and the counters updated entry by entry. */
  class Importer {
    var rows: seq<Row>
    var refs: map<string, nat>
    var counts: Counts

    constructor (rows: seq<Row>, refs: map<string, nat>, counts: Counts)
      ensures this.rows == rows && this.refs == refs && this.counts == counts
    {
      this.rows, this.refs, this.counts := rows, refs, counts;
    }

    method ImportEntries(entries: seq<Entry>, operations: seq<Action>) returns (ok: bool)
      requires |operations| == |entries|
      modifies this
      ensures var r := ApplyEntries(Progress(old(rows), old(refs), old(counts)), entries, operations);
              ok == r.Some? && (ok ==> r.value == Progress(rows, refs, counts))
    {
      ghost var start := Progress(rows, refs, counts);
      for i := 0 to |entries|
        invariant ApplyEntries(start, entries[..i], operations[..i]) == Some(Progress(rows, refs, counts))
      {
        assert entries[..i + 1][..i] == entries[..i] && operations[..i + 1][..i] == operations[..i];
        var (e, action) := (entries[i], operations[i]);
        var existing := Find(rows, e.name);
        if Ambiguous(rows, e.name) || (action != Create && existing == None) {
          FailedFrom(start, entries, operations, i + 1, |entries|);
          assert entries[..|entries|] == entries && operations[..|entries|] == operations;
          return false;
        }
        if action == Skip {
          refs := refs[e.ref := existing.value];
        } else if action == Overwrite {
          rows := rows[existing.value := Overwritten(rows[existing.value], e)];
          refs := refs[e.ref := existing.value];
        } else {
          rows, refs := rows + [Row(e.name, e.folder, e.data)], refs[e.ref := |rows|];
        }
        counts := counts.Plus(action);
      }
      assert entries[..|entries|] == entries && operations[..|entries|] == operations;
      ok := true;
    }
  }

  lemma {:induction false} FailedFrom(p: Progress, entries: seq<Entry>, operations: seq<Action>, k: nat, n: nat)
    requires |operations| == |entries| && k <= n <= |entries| && ApplyEntries(p, entries[..k], operations[..k]) == None
    ensures ApplyEntries(p, entries[..n], operations[..n]) == None
  {
    if k < n {
      FailedFrom(p, entries, operations, k, n - 1);
      assert entries[..n][..n - 1] == entries[..n - 1] && operations[..n][..n - 1] == operations[..n - 1];
    }
  }
}
