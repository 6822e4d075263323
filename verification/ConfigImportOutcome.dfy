/**
 What the rows are after a configuration import, said of the document's entries, the rows that were there and the
 mode alone (src/sluicery/core/config_transfer.py).
 */
module ConfigImportOutcome {
  import opened Common
  import opened ConfigImport
  import opened ConfigImportProofs
  import opened ConfigImportResults

  /** A row of this name was there. */
  ghost predicate Was(before: seq<Row>, name: string) { exists i :: 0 <= i < |before| && before[i].name == name }

  /**
   Row i is the entry's: the one of its name that was there, which is kept or takes the entry's data but not its
   folder; or, where none was or the mode always creates, a new one with all the entry says.
   */
  ghost predicate Seated(before: seq<Row>, after: seq<Row>, e: Entry, mode: Mode, i: nat) {
    && i < |after|
    && if mode != CreateAlways && Was(before, e.name) then
         && i < |before| && before[i].name == e.name
         && after[i] == if mode == SkipExisting then before[i] else Row(e.name, before[i].folder, e.data)
       else
         i >= |before| && after[i] == Row(e.name, e.folder, e.data)
  }

  ghost predicate HasSeat(before: seq<Row>, after: seq<Row>, e: Entry, mode: Mode) {
    exists i: nat :: Seated(before, after, e, mode, i)
  }

  ghost predicate CreatesRow(before: seq<Row>, e: Entry, mode: Mode) { mode == CreateAlways || !Was(before, e.name) }

  /**
   A table after the import: every entry has its row, rows no entry names are as they were, every row keeps its
   place, and there are as many new ones as entries that called for one.
   */
  ghost predicate Outcome(before: seq<Row>, after: seq<Row>, entries: seq<Entry>, mode: Mode) {
    && (forall k :: 0 <= k < |entries| ==> HasSeat(before, after, entries[k], mode))
    && |before| <= |after|
    && (forall i :: 0 <= i < |before| && (forall k :: 0 <= k < |entries| ==> entries[k].name != before[i].name)
                    ==> after[i] == before[i])
    && |after| == |before| + |set k: nat | k < |entries| && CreatesRow(before, entries[k], mode)|
  }

  // ---- rows ----

  lemma WasFound(before: seq<Row>, name: string)
    ensures Was(before, name) <==> Find(before, name).Some?
  {
  }

  lemma EntrySeated(
    rows0: seq<Row>, refs0: map<string, nat>, c0: Counts, entries: seq<Entry>, mode: Mode, p: Progress, k: nat)
    requires Imported(rows0, refs0, c0, entries, mode, p) && k < |entries|
    ensures entries[k].ref in p.refs && Seated(rows0, p.rows, entries[k], mode, p.refs[entries[k].ref])
  {
    assert Placed(rows0, p.rows, p.refs, entries[k], mode);
    WasFound(rows0, entries[k].name);
  }

  ghost function Places(actions: seq<Action>, action: Action): set<nat> {
    set k: nat | k < |actions| && actions[k] == action
  }

  lemma PlacesNext(actions: seq<Action>, action: Action)
    requires actions != []
    ensures |Places(actions, action)|
         == |Places(actions[..|actions| - 1], action)| + if actions[|actions| - 1] == action then 1 else 0
  {
    var n := |actions| - 1;
    assert Places(actions, action) == Places(actions[..n], action) + if actions[n] == action then {n} else {};
  }

  /** Each action that creates adds one row, and no other does. */
  lemma {:induction false} RowsAdded(p: Progress, entries: seq<Entry>, actions: seq<Action>)
    requires |actions| == |entries| && ApplyEntries(p, entries, actions).Some?
    ensures |ApplyEntries(p, entries, actions).value.rows| == |p.rows| + |Places(actions, Create)|
  {
    if entries != [] {
      RowsAdded(p, entries[..|entries| - 1], actions[..|actions| - 1]);
      PlacesNext(actions, Create);
    }
  }

  lemma EntriesSeated(
    rows0: seq<Row>, refs0: map<string, nat>, c0: Counts, entries: seq<Entry>, mode: Mode, p: Progress)
    requires Imported(rows0, refs0, c0, entries, mode, p)
    ensures forall k :: 0 <= k < |entries| ==> HasSeat(rows0, p.rows, entries[k], mode)
  {
    forall k | 0 <= k < |entries|
      ensures HasSeat(rows0, p.rows, entries[k], mode)
    {
      EntrySeated(rows0, refs0, c0, entries, mode, p, k);
      assert Seated(rows0, p.rows, entries[k], mode, p.refs[entries[k].ref]);
    }
  }

  lemma OthersKept(rows0: seq<Row>, refs0: map<string, nat>, c0: Counts, entries: seq<Entry>, mode: Mode, p: Progress)
    requires Imported(rows0, refs0, c0, entries, mode, p)
    ensures |rows0| <= |p.rows|
    ensures forall i :: 0 <= i < |rows0| && (forall k :: 0 <= k < |entries| ==> entries[k].name != rows0[i].name)
                        ==> p.rows[i] == rows0[i]
  {
  }

  lemma CreatedCounted(rows0: seq<Row>, entries: seq<Entry>, mode: Mode)
    ensures Places(EntryActions(rows0, entries, mode), Create)
         == set k: nat | k < |entries| && CreatesRow(rows0, entries[k], mode)
  {
    forall k: nat | k < |entries|
      ensures EntryActions(rows0, entries, mode)[k] == Create <==> CreatesRow(rows0, entries[k], mode)
    {
      WasFound(rows0, entries[k].name);
    }
  }

  lemma TableOutcome(rows0: seq<Row>, refs0: map<string, nat>, c0: Counts, entries: seq<Entry>, mode: Mode, p: Progress)
    requires Imported(rows0, refs0, c0, entries, mode, p)
    requires ApplyEntries(Progress(rows0, refs0, c0), entries, EntryActions(rows0, entries, mode)) == Some(p)
    ensures Outcome(rows0, p.rows, entries, mode)
  {
    EntriesSeated(rows0, refs0, c0, entries, mode, p);
    OthersKept(rows0, refs0, c0, entries, mode, p);
    CreatedCounted(rows0, entries, mode);
    RowsAdded(Progress(rows0, refs0, c0), entries, EntryActions(rows0, entries, mode));
  }

  // ---- the whole import ----

  /** A setting of the document has its value, unless it was there and the mode does not overwrite. */
  ghost predicate SettingsOutcome(before: map<string, string>, after: map<string, string>, doc: Document, mode: Mode) {
    && (forall k :: 0 <= k < |doc.settings| ==>
          var (key, value) := doc.settings[k];
          key in after && after[key] == if key in before && mode != OverwriteExisting then before[key] else value)
    && (forall key <- before.Keys :: (forall k :: 0 <= k < |doc.settings| ==> doc.settings[k].0 != key)
                                     ==> key in after && after[key] == before[key])
    && (forall key <- after.Keys :: key in before || exists k :: 0 <= k < |doc.settings| && doc.settings[k].0 == key)
  }

  lemma AppliedStages(db: Database, doc: Document, mode: Mode)
    returns (s: Progress, p: Progress, l: Progress, k: Linking)
    requires Valid(doc) && Resolvable(db, doc) && Import(db, doc, Preview(db, doc, mode)).Some?
    ensures TablesDone(db, doc, mode, s, p, l) && Staged(db, doc, mode, s, p, l, k)
    ensures ApplyEntries(Progress(db.storages, map[], Counts(0, 0, 0)), doc.storages,
                         EntryActions(db.storages, doc.storages, mode)) == Some(s)
    ensures ApplyEntries(Progress(db.profiles, s.refs, s.counts), doc.profiles,
                         EntryActions(db.profiles, doc.profiles, mode)) == Some(p)
    ensures ApplyEntries(Progress(db.playlists, p.refs, p.counts), doc.playlists,
                         EntryActions(db.playlists, doc.playlists, mode)) == Some(l)
  {
    PreviewParts(db, doc, mode);
    s, p, l := TablesGoThrough(db, doc, mode);
    var linkActions := LinkActions(db, Resolved(db, doc, mode), doc.links, mode);
    k := ApplyLinks(Linking(db.assignments, l.counts), l.refs, doc.links, linkActions).value;
  }

  /** Whatever the document's references: the tables and settings after an import that succeeds. */
  lemma ImportOutcome(db: Database, doc: Document, mode: Mode)
    requires Valid(doc) && Resolvable(db, doc) && Import(db, doc, Preview(db, doc, mode)).Some?
    ensures var after := Import(db, doc, Preview(db, doc, mode)).value.0;
            && Outcome(db.storages, after.storages, doc.storages, mode)
            && Outcome(db.profiles, after.profiles, doc.profiles, mode)
            && Outcome(db.playlists, after.playlists, doc.playlists, mode)
            && SettingsOutcome(db.settings, after.settings, doc, mode)
  {
    var s, p, l, k := AppliedStages(db, doc, mode);
    TableOutcome(db.storages, map[], Counts(0, 0, 0), doc.storages, mode, s);
    TableOutcome(db.profiles, s.refs, s.counts, doc.profiles, mode, p);
    TableOutcome(db.playlists, p.refs, p.counts, doc.playlists, mode, l);
    SettingsSet(db, k.counts, doc.settings, mode);
    SettingsKept(db, doc, mode, k.counts);
  }

  lemma SettingsKept(db: Database, doc: Document, mode: Mode, c0: Counts)
    requires Valid(doc)
    ensures var r := ApplySettings(Setting(db.settings, c0), doc.settings, SettingActions(db, doc.settings, mode));
            SettingsOutcome(db.settings, r.values, doc, mode)
  {
    SettingsSet(db, c0, doc.settings, mode);
    var r := ApplySettings(Setting(db.settings, c0), doc.settings, SettingActions(db, doc.settings, mode));
    forall k | 0 <= k < |doc.settings|
      ensures doc.settings[k].0 in Keys(doc.settings)
    {
    }
  }

  // ---- assignments ----

  /** Row i of a table is the one of the entry with this reference. */
  ghost predicate SeatOf(
    before: seq<Row>, after: seq<Row>, entries: seq<Entry>, ref: string, mode: Mode, i: nat)
  {
    exists k :: 0 <= k < |entries| && entries[k].ref == ref && Seated(before, after, entries[k], mode, i)
  }

  /** Assignments that join these rows. */
  ghost predicate Joined(assignments: seq<Assignment>, playlist: nat, profile: nat) {
    exists n :: 0 <= n < |assignments| && assignments[n].playlist == playlist && assignments[n].profile == profile
  }

  /**
   Without mixed references every assignment of the document joins its own playlist, profile and storage; only a
   skip import leaves the one alone that joined its playlist and profile before.
   */
  lemma LinkOutcome(db: Database, doc: Document, mode: Mode, n: nat) returns (i: nat, j: nat, k: nat)
    requires Valid(doc) && Unmixed(doc) && Sound(db) && Resolvable(db, doc) && n < |doc.links|
    ensures Import(db, doc, Preview(db, doc, mode)).Some?
    ensures var after, link := Import(db, doc, Preview(db, doc, mode)).value.0, doc.links[n];
            && SeatOf(db.playlists, after.playlists, doc.playlists, link.playlistRef, mode, i)
            && SeatOf(db.profiles, after.profiles, doc.profiles, link.profileRef, mode, j)
            && SeatOf(db.storages, after.storages, doc.storages, link.storageRef, mode, k)
            && (mode != SkipExisting || !Joined(db.assignments, i, j) ==>
                  Assignment(i, j, k, link.data) in after.assignments)
  {
    ImportSucceeds(db, doc, mode);
    var s, p, l, done := Stages(db, doc, mode);
    var link := doc.links[n];
    RefsStandAfter(db, doc, mode, s, p, l);
    i := RefSeated(db.playlists, p.refs, p.counts, doc.playlists, mode, l, link.playlistRef);
    j := RefSeated(db.profiles, s.refs, s.counts, doc.profiles, mode, p, link.profileRef);
    k := RefSeated(db.storages, map[], Counts(0, 0, 0), doc.storages, mode, s, link.storageRef);
    UnmixedLinksCarried(db, doc, mode, s, p, l, done);
    if LinkAction(db, Resolved(db, doc, mode), link, mode) == Skip {
      LinkSkippedOnly(db, doc, mode, s, p, l, link);
    }
    assert LinkAction(db, Resolved(db, doc, mode), link, mode) != Skip ==> Carries(done.assignments, l.refs, link);
  }

  lemma RefSeated(
    rows0: seq<Row>, refs0: map<string, nat>, c0: Counts, entries: seq<Entry>, mode: Mode, p: Progress, ref: string)
    returns (i: nat)
    requires Imported(rows0, refs0, c0, entries, mode, p) && HasRef(entries, ref)
    ensures ref in p.refs && i == p.refs[ref] && SeatOf(rows0, p.rows, entries, ref, mode, i)
  {
    var k :| 0 <= k < |entries| && entries[k].ref == ref;
    EntrySeated(rows0, refs0, c0, entries, mode, p, k);
    i := p.refs[ref];
  }

  /** A link is skipped only by a skip import whose table has its pair. */
  lemma LinkSkippedOnly(
    db: Database, doc: Document, mode: Mode, s: Progress, p: Progress, l: Progress, link: Link)
    requires Valid(doc) && Unmixed(doc) && TablesDone(db, doc, mode, s, p, l) && link in doc.links
    requires LinkAction(db, Resolved(db, doc, mode), link, mode) == Skip
    ensures mode == SkipExisting && link.playlistRef in l.refs && link.profileRef in l.refs
    ensures Joined(db.assignments, l.refs[link.playlistRef], l.refs[link.profileRef])
  {
    PlaylistLeads(db, doc, mode, s, p, l, link.playlistRef);
    ProfileLeads(db, doc, mode, s, p, l, link.profileRef);
  }

  // ---- what is announced and reported ----

  lemma {:induction false} TallyExactly(actions: seq<Action>)
    ensures Tally(actions)
         == Counts(|Places(actions, Create)|, |Places(actions, Overwrite)|, |Places(actions, Skip)|)
  {
    if actions != [] {
      TallyExactly(actions[..|actions| - 1]);
      PlacesNext(actions, Create);
      PlacesNext(actions, Overwrite);
      PlacesNext(actions, Skip);
    }
  }

  /** An import that succeeds reports how many rows its preview creates, overwrites and skips; that is all of them. */
  lemma ImportCounts(db: Database, doc: Document, mode: Mode)
    requires Valid(doc) && Resolvable(db, doc) && Import(db, doc, Preview(db, doc, mode)).Some?
    ensures var (actions, counts) := (Preview(db, doc, mode), Import(db, doc, Preview(db, doc, mode)).value.1);
            && counts.created == |Places(actions, Create)|
            && counts.overwritten == |Places(actions, Overwrite)|
            && counts.skipped == |Places(actions, Skip)|
            && counts.created + counts.overwritten + counts.skipped
               == |doc.storages| + |doc.profiles| + |doc.playlists| + |doc.links| + |doc.settings|
  {
    SuccessCounts(db, doc, mode);
    TallyExactly(Preview(db, doc, mode));
    TallyTotal(Preview(db, doc, mode));
  }

  lemma {:induction false} TallyTotal(actions: seq<Action>)
    ensures Tally(actions).created + Tally(actions).overwritten + Tally(actions).skipped == |actions|
  {
    if actions != [] {
      TallyTotal(actions[..|actions| - 1]);
    }
  }

  /** What is to happen to an entry. */
  ghost predicate Announced(before: seq<Row>, e: Entry, mode: Mode, action: Action) {
    action == if CreatesRow(before, e, mode) then Create
              else if mode == SkipExisting then Skip
              else Overwrite
  }

  /** The preview announces the tables one after the other, entry by entry, and the settings at its end. */
  lemma PreviewExactly(db: Database, doc: Document, mode: Mode, k: nat)
    ensures k < |doc.storages| ==> Announced(db.storages, doc.storages[k], mode, Preview(db, doc, mode)[k])
    ensures k < |doc.profiles| ==>
              Announced(db.profiles, doc.profiles[k], mode, Preview(db, doc, mode)[|doc.storages| + k])
    ensures k < |doc.playlists| ==>
              Announced(db.playlists, doc.playlists[k], mode,
                        Preview(db, doc, mode)[|doc.storages| + |doc.profiles| + k])
    ensures k < |doc.settings| ==>
              Preview(db, doc, mode)[|Preview(db, doc, mode)| - |doc.settings| + k]
              == if doc.settings[k].0 !in db.settings then Create
                 else if mode == OverwriteExisting then Overwrite else Skip
  {
    TableAnnounced(db.storages, doc.storages, mode, k);
    TableAnnounced(db.profiles, doc.profiles, mode, k);
    TableAnnounced(db.playlists, doc.playlists, mode, k);
  }

  lemma TableAnnounced(before: seq<Row>, entries: seq<Entry>, mode: Mode, k: nat)
    ensures k < |entries| ==> Announced(before, entries[k], mode, EntryActions(before, entries, mode)[k])
  {
    if k < |entries| {
      WasFound(before, entries[k].name);
    }
  }
}
