/**
 An import does what its preview showed: the same operations in the same order, the counters of the
 plan, no change to existing rows when skipping, and a second skip import that skips everything.
 */
module ConfigImportProofs {
  import opened Common
  import opened ConfigImport

  ghost predicate DistinctEntries(entries: seq<Entry>) {
    forall i, j :: 0 <= i < j < |entries| ==> entries[i].ref != entries[j].ref && entries[i].name != entries[j].name
  }

  predicate HasRef(entries: seq<Entry>, ref: string) { exists e <- entries :: e.ref == ref }

  predicate HasName(entries: seq<Entry>, name: string) { exists e <- entries :: e.name == name }

  /** What the document's own validation guarantees. */
  ghost predicate Valid(doc: Document) {
    && DistinctEntries(doc.storages) && DistinctEntries(doc.profiles) && DistinctEntries(doc.playlists)
    && (forall link <- doc.links :: HasRef(doc.playlists, link.playlistRef) && HasRef(doc.profiles, link.profileRef)
                                   && HasRef(doc.storages, link.storageRef))
    && (forall i, j :: 0 <= i < j < |doc.links| ==>
          doc.links[i].playlistRef != doc.links[j].playlistRef || doc.links[i].profileRef != doc.links[j].profileRef)
    && (forall i, j :: 0 <= i < j < |doc.settings| ==> doc.settings[i].0 != doc.settings[j].0)
  }

  /** A reference that a later table of the document uses too. */
  predicate Mixed(doc: Document, link: Link) {
    HasRef(doc.playlists, link.profileRef) || HasRef(doc.profiles, link.storageRef)
      || HasRef(doc.playlists, link.storageRef)
  }

  /** What it does not guarantee: the references of the assignments are not mixed. Exported documents have it. */
  predicate Unmixed(doc: Document) { forall link <- doc.links :: !Mixed(doc, link) }

  /** Assignments join existing rows. */
  ghost predicate Sound(db: Database) {
    forall a <- db.assignments :: a.playlist < |db.playlists| && a.profile < |db.profiles|
  }

  function TallyFrom(c: Counts, actions: seq<Action>): Counts {
    if actions == [] then c else TallyFrom(c, actions[..|actions| - 1]).Plus(actions[|actions| - 1])
  }

  lemma {:induction false} TallyConcat(c: Counts, a: seq<Action>, b: seq<Action>)
    ensures TallyFrom(c, a + b) == TallyFrom(TallyFrom(c, a), b)
  {
    if b == [] {
      assert a + b == a;
    } else {
      assert (a + b)[..|a + b| - 1] == a + b[..|b| - 1];
      TallyConcat(c, a, b[..|b| - 1]);
    }
  }

  lemma {:induction false} TallyIsFrom(actions: seq<Action>)
    ensures Tally(actions) == TallyFrom(Counts(0, 0, 0), actions)
  {
    if actions != [] {
      TallyIsFrom(actions[..|actions| - 1]);
    }
  }

  // ---- one table ----

  lemma {:induction false} FindAppended(rows: seq<Row>, row: Row, name: string)
    ensures Find(rows + [row], name) == if Find(rows, name).Some? then Find(rows, name)
            else if row.name == name then Some(|rows|) else None
  {
    assert (rows + [row])[..|rows|] == rows;
  }

  lemma {:induction false} FindReplaced(rows: seq<Row>, i: nat, row: Row, name: string)
    requires i < |rows| && row.name == rows[i].name
    ensures Find(rows[i := row], name) == Find(rows, name)
  {
    var after := rows[i := row];
    if i == |rows| - 1 {
      assert after[..|after| - 1] == rows[..|rows| - 1];
    } else {
      assert after[..|after| - 1] == rows[..|rows| - 1][i := row];
      FindReplaced(rows[..|rows| - 1], i, row, name);
    }
  }

  /** A name becomes ambiguous only when a second row of it is created. */
  lemma AmbiguousAfter(p: Progress, e: Entry, action: Action, name: string)
    requires ApplyEntry(p, e, action).Some?
    ensures Ambiguous(ApplyEntry(p, e, action).value.rows, name)
            <==> Ambiguous(p.rows, name) || (action == Create && name == e.name && Find(p.rows, name).Some?)
  {
    var rows := ApplyEntry(p, e, action).value.rows;
    if Ambiguous(p.rows, name) {
      var i, j :| 0 <= i < j < |p.rows| && p.rows[i].name == name && p.rows[j].name == name;
      assert rows[i].name == name && rows[j].name == name;
    } else if action == Create && name == e.name && Find(p.rows, name).Some? {
      assert rows[Find(p.rows, name).value].name == name && rows[|p.rows|].name == name;
    }
  }

  /** Existing rows keep their place, name and folder; skipping keeps them whole. */
  ghost predicate Grown(rows0: seq<Row>, rows: seq<Row>, mode: Mode) {
    && |rows0| <= |rows|
    && forall i :: 0 <= i < |rows0| ==>
         rows[i].name == rows0[i].name && rows[i].folder == rows0[i].folder
           && (mode != OverwriteExisting ==> rows[i] == rows0[i])
  }

  /** What an entry's row says afterwards. */
  function EntryRow(rows0: seq<Row>, e: Entry, mode: Mode): Row {
    match Find(rows0, e.name)
    case None => Row(e.name, e.folder, e.data)
    case Some(k) =>
      match mode
      case SkipExisting => rows0[k]
      case OverwriteExisting => Row(e.name, rows0[k].folder, e.data)
      case CreateAlways => Row(e.name, e.folder, e.data)
  }

  /** Where entry e ended up. */
  ghost predicate Placed(rows0: seq<Row>, rows: seq<Row>, refs: map<string, nat>, e: Entry, mode: Mode) {
    && e.ref in refs && refs[e.ref] < |rows| && rows[refs[e.ref]] == EntryRow(rows0, e, mode)
    && (EntryAction(rows0, e, mode) == Create ==> refs[e.ref] >= |rows0|)
    && (EntryAction(rows0, e, mode) != Create ==> Find(rows0, e.name) == Some(refs[e.ref]))
    && (mode != CreateAlways ==> Find(rows, e.name) == Some(refs[e.ref]))
  }

  ghost predicate Imported(
    rows0: seq<Row>, refs0: map<string, nat>, c0: Counts, entries: seq<Entry>, mode: Mode, p: Progress)
  {
    && Grown(rows0, p.rows, mode) && |p.rows| <= |rows0| + |entries|
    && (forall i :: 0 <= i < |rows0| ==> p.rows[i] == rows0[i] || HasName(entries, rows0[i].name))
    && (forall i :: 0 <= i < |entries| ==> Placed(rows0, p.rows, p.refs, entries[i], mode))
    && (forall i, j :: 0 <= i < j < |entries| && entries[i].ref in p.refs && entries[j].ref in p.refs
                       ==> p.refs[entries[i].ref] != p.refs[entries[j].ref])
    && (forall name: string :: !HasName(entries, name) ==> Find(p.rows, name) == Find(rows0, name))
    && (forall name: string :: Ambiguous(p.rows, name)
                               <==> Ambiguous(rows0, name)
                                    || (mode == CreateAlways && HasName(entries, name) && Find(rows0, name).Some?))
    && refs0.Keys <= p.refs.Keys
    && (forall ref <- refs0.Keys :: !HasRef(entries, ref) ==> p.refs[ref] == refs0[ref])
    && p.counts == TallyFrom(c0, EntryActions(rows0, entries, mode))
  }

  lemma EntriesSnoc(entries: seq<Entry>, e: Entry, ref: string, name: string)
    ensures HasRef(entries + [e], ref) <==> HasRef(entries, ref) || e.ref == ref
    ensures HasName(entries + [e], name) <==> HasName(entries, name) || e.name == name
  {
    assert e in entries + [e];
  }

  /** What applying one entry does to lookups. */
  lemma FindAfter(p: Progress, e: Entry, action: Action, name: string)
    requires ApplyEntry(p, e, action).Some?
    ensures Find(ApplyEntry(p, e, action).value.rows, name)
         == if action == Create && Find(p.rows, name) == None && name == e.name then Some(|p.rows|)
            else Find(p.rows, name)
  {
    if action == Create {
      FindAppended(p.rows, Row(e.name, e.folder, e.data), name);
    } else if action == Overwrite {
      var i := Find(p.rows, e.name).value;
      FindReplaced(p.rows, i, Overwritten(p.rows[i], e), name);
    }
  }

  lemma GrownAfter(rows0: seq<Row>, p: Progress, e: Entry, mode: Mode)
    requires Grown(rows0, p.rows, mode) && Find(p.rows, e.name) == Find(rows0, e.name) && !Ambiguous(p.rows, e.name)
    ensures ApplyEntry(p, e, EntryAction(rows0, e, mode)).Some?
    ensures Grown(rows0, ApplyEntry(p, e, EntryAction(rows0, e, mode)).value.rows, mode)
  {
  }

  lemma PlacedAfter(rows0: seq<Row>, p: Progress, e: Entry, other: Entry, mode: Mode)
    requires Placed(rows0, p.rows, p.refs, other, mode) && other.ref != e.ref && other.name != e.name
    requires Grown(rows0, p.rows, mode) && Find(p.rows, e.name) == Find(rows0, e.name) && !Ambiguous(p.rows, e.name)
    ensures ApplyEntry(p, e, EntryAction(rows0, e, mode)).Some?
    ensures var q := ApplyEntry(p, e, EntryAction(rows0, e, mode)).value;
            && Placed(rows0, q.rows, q.refs, other, mode)
            && e.ref in q.refs && q.refs[other.ref] != q.refs[e.ref]
  {
    var action := EntryAction(rows0, e, mode);
    FindAfter(p, e, action, other.name);
  }

  lemma PlacedItself(rows0: seq<Row>, p: Progress, e: Entry, mode: Mode)
    requires Grown(rows0, p.rows, mode) && Find(p.rows, e.name) == Find(rows0, e.name) && !Ambiguous(p.rows, e.name)
    ensures ApplyEntry(p, e, EntryAction(rows0, e, mode)).Some?
    ensures var q := ApplyEntry(p, e, EntryAction(rows0, e, mode)).value; Placed(rows0, q.rows, q.refs, e, mode)
  {
    FindAfter(p, e, EntryAction(rows0, e, mode), e.name);
  }

  lemma CountsAfter(rows0: seq<Row>, c0: Counts, entries: seq<Entry>, e: Entry, mode: Mode)
    ensures TallyFrom(c0, EntryActions(rows0, entries + [e], mode))
         == TallyFrom(c0, EntryActions(rows0, entries, mode)).Plus(EntryAction(rows0, e, mode))
  {
    var actions := EntryActions(rows0, entries + [e], mode);
    assert actions[..|actions| - 1] == EntryActions(rows0, entries, mode);
  }

  /** Each pair of entries of a longer list is one of the shorter list, or ends with the new entry. */
  lemma DistinctSnoc(entries: seq<Entry>, e: Entry)
    requires DistinctEntries(entries + [e])
    ensures DistinctEntries(entries) && !HasName(entries, e.name) && !HasRef(entries, e.ref)
    ensures forall i :: 0 <= i < |entries| ==> entries[i].ref != e.ref && entries[i].name != e.name
  {
    var all := entries + [e];
    assert all[|entries|] == e;
    assert forall i :: 0 <= i < |entries| ==> all[i] == entries[i];
  }

  /** One more entry, whose name and reference are new. */
  lemma EntryImported(
    rows0: seq<Row>, refs0: map<string, nat>, c0: Counts, entries: seq<Entry>, e: Entry, mode: Mode, p: Progress)
    requires Imported(rows0, refs0, c0, entries, mode, p) && DistinctEntries(entries + [e]) && !Ambiguous(rows0, e.name)
    ensures var r := ApplyEntry(p, e, EntryAction(rows0, e, mode));
            r.Some? && Imported(rows0, refs0, c0, entries + [e], mode, r.value)
  {
    var all, action := entries + [e], EntryAction(rows0, e, mode);
    DistinctSnoc(entries, e);
    GrownAfter(rows0, p, e, mode);
    PlacedItself(rows0, p, e, mode);
    CountsAfter(rows0, c0, entries, e, mode);
    var q := ApplyEntry(p, e, action).value;
    forall i | 0 <= i < |entries|
      ensures Placed(rows0, q.rows, q.refs, entries[i], mode) && q.refs[entries[i].ref] != q.refs[e.ref]
      ensures q.refs[entries[i].ref] == p.refs[entries[i].ref]
    {
      PlacedAfter(rows0, p, e, entries[i], mode);
    }
    AllPlaced(rows0, entries, e, mode, p, q);
    LookupsAfter(rows0, refs0, entries, e, mode, p, q);
    AmbiguityAfter(rows0, entries, e, mode, p, q);
  }

  lemma AllPlaced(rows0: seq<Row>, entries: seq<Entry>, e: Entry, mode: Mode, p: Progress, q: Progress)
    requires Placed(rows0, q.rows, q.refs, e, mode)
    requires forall i :: 0 <= i < |entries| ==>
               && Placed(rows0, q.rows, q.refs, entries[i], mode) && entries[i].ref in p.refs
               && q.refs[entries[i].ref] != q.refs[e.ref] && q.refs[entries[i].ref] == p.refs[entries[i].ref]
    requires forall i, j :: 0 <= i < j < |entries| && entries[i].ref in p.refs && entries[j].ref in p.refs
                            ==> p.refs[entries[i].ref] != p.refs[entries[j].ref]
    ensures var all := entries + [e];
            && (forall i :: 0 <= i < |all| ==> Placed(rows0, q.rows, q.refs, all[i], mode))
            && (forall i, j :: 0 <= i < j < |all| && all[i].ref in q.refs && all[j].ref in q.refs
                  ==> q.refs[all[i].ref] != q.refs[all[j].ref])
  {
    var all := entries + [e];
    forall i, j | 0 <= i < j < |all|
      ensures q.refs[all[i].ref] != q.refs[all[j].ref]
    {
      assert all[i] == entries[i];
      if j < |entries| {
        assert all[j] == entries[j];
      }
    }
  }

  lemma LookupsAfter(
    rows0: seq<Row>, refs0: map<string, nat>, entries: seq<Entry>, e: Entry, mode: Mode, p: Progress, q: Progress)
    requires ApplyEntry(p, e, EntryAction(rows0, e, mode)) == Some(q)
    requires forall name: string :: !HasName(entries, name) ==> Find(p.rows, name) == Find(rows0, name)
    requires refs0.Keys <= p.refs.Keys && forall ref <- refs0.Keys :: !HasRef(entries, ref)
                                            ==> p.refs[ref] == refs0[ref]
    ensures forall name: string :: !HasName(entries + [e], name) ==> Find(q.rows, name) == Find(rows0, name)
    ensures refs0.Keys <= q.refs.Keys && forall ref <- refs0.Keys :: !HasRef(entries + [e], ref)
                                           ==> q.refs[ref] == refs0[ref]
  {
    forall name: string | !HasName(entries + [e], name)
      ensures Find(q.rows, name) == Find(rows0, name)
    {
      EntriesSnoc(entries, e, "", name);
      FindAfter(p, e, EntryAction(rows0, e, mode), name);
    }
    forall ref <- refs0.Keys
      ensures !HasRef(entries + [e], ref) ==> q.refs[ref] == refs0[ref]
    {
      EntriesSnoc(entries, e, ref, "");
    }
  }

  lemma AmbiguityAfter(rows0: seq<Row>, entries: seq<Entry>, e: Entry, mode: Mode, p: Progress, q: Progress)
    requires ApplyEntry(p, e, EntryAction(rows0, e, mode)) == Some(q) && Find(p.rows, e.name) == Find(rows0, e.name)
    requires forall name: string :: Ambiguous(p.rows, name)
                                    <==> Ambiguous(rows0, name)
                                         || (mode == CreateAlways && HasName(entries, name) && Find(rows0, name).Some?)
    ensures forall name: string :: Ambiguous(q.rows, name)
                                   <==> Ambiguous(rows0, name)
                                        || (mode == CreateAlways && HasName(entries + [e], name)
                                        && Find(rows0, name).Some?)
  {
    forall name: string
      ensures Ambiguous(q.rows, name)
              <==> Ambiguous(rows0, name)
                   || (mode == CreateAlways && HasName(entries + [e], name) && Find(rows0, name).Some?)
    {
      EntriesSnoc(entries, e, "", name);
      AmbiguousAfter(p, e, EntryAction(rows0, e, mode), name);
    }
  }

  lemma {:induction false} EntriesImported(
    rows0: seq<Row>, refs0: map<string, nat>, c0: Counts, entries: seq<Entry>, mode: Mode)
    requires DistinctEntries(entries) && forall e <- entries :: !Ambiguous(rows0, e.name)
    ensures var r := ApplyEntries(Progress(rows0, refs0, c0), entries, EntryActions(rows0, entries, mode));
            r.Some? && Imported(rows0, refs0, c0, entries, mode, r.value)
  {
    var actions := EntryActions(rows0, entries, mode);
    if entries != [] {
      var init, last := entries[..|entries| - 1], entries[|entries| - 1];
      assert entries == init + [last];
      assert actions[..|actions| - 1] == EntryActions(rows0, init, mode);
      EntriesImported(rows0, refs0, c0, init, mode);
      EntryImported(rows0, refs0, c0, init, last, mode,
                    ApplyEntries(Progress(rows0, refs0, c0), init, EntryActions(rows0, init, mode)).value);
    }
  }

  // ---- the dictionary of the preview ----

  lemma {:induction false} ResolveOthers(refs: Refs, rows: seq<Row>, entries: seq<Entry>, mode: Mode, ref: string)
    requires !HasRef(entries, ref)
    ensures ref in Resolve(refs, rows, entries, mode) <==> ref in refs
    ensures ref in refs ==> Resolve(refs, rows, entries, mode)[ref] == refs[ref]
  {
    if entries != [] {
      var init, last := entries[..|entries| - 1], entries[|entries| - 1];
      assert entries == init + [last];
      EntriesSnoc(init, last, ref, "");
      ResolveOthers(refs, rows, init, mode, ref);
    }
  }

  lemma {:induction false} ResolveOwn(refs: Refs, rows: seq<Row>, entries: seq<Entry>, mode: Mode, i: nat)
    requires DistinctEntries(entries) && i < |entries|
    ensures entries[i].ref in Resolve(refs, rows, entries, mode)
    ensures Resolve(refs, rows, entries, mode)[entries[i].ref]
         == if EntryAction(rows, entries[i], mode) == Create then None else Find(rows, entries[i].name)
  {
    if i < |entries| - 1 {
      ResolveOwn(refs, rows, entries[..|entries| - 1], mode, i);
    }
  }

  // ---- the three tables together ----

  /** The state after the three tables. */
  ghost predicate TablesDone(db: Database, doc: Document, mode: Mode, s: Progress, p: Progress, l: Progress) {
    && Imported(db.storages, map[], Counts(0, 0, 0), doc.storages, mode, s)
    && Imported(db.profiles, s.refs, s.counts, doc.profiles, mode, p)
    && Imported(db.playlists, p.refs, p.counts, doc.playlists, mode, l)
  }

  /** The id a reference leads to agrees with the preview: the existing row, or a new one. */
  ghost predicate Leads(resolved: Refs, refs: map<string, nat>, rows0: seq<Row>, ref: string) {
    && ref in resolved && ref in refs
    && (resolved[ref].Some? ==> refs[ref] == resolved[ref].value)
    && (resolved[ref] == None ==> refs[ref] >= |rows0|)
  }

  lemma PlaylistLeads(db: Database, doc: Document, mode: Mode, s: Progress, p: Progress, l: Progress, ref: string)
    requires Valid(doc) && TablesDone(db, doc, mode, s, p, l) && HasRef(doc.playlists, ref)
    ensures Leads(Resolved(db, doc, mode), l.refs, db.playlists, ref)
  {
    var i :| 0 <= i < |doc.playlists| && doc.playlists[i].ref == ref;
    ResolveOwn(Resolve(Resolve(map[], db.storages, doc.storages, mode), db.profiles, doc.profiles, mode), db.playlists,
      doc.playlists, mode, i);
    assert Placed(db.playlists, l.rows, l.refs, doc.playlists[i], mode);
  }

  lemma ProfileLeads(db: Database, doc: Document, mode: Mode, s: Progress, p: Progress, l: Progress, ref: string)
    requires Valid(doc) && TablesDone(db, doc, mode, s, p, l) && HasRef(doc.profiles, ref)
             && !HasRef(doc.playlists, ref)
    ensures Leads(Resolved(db, doc, mode), l.refs, db.profiles, ref)
    ensures ref in p.refs && l.refs[ref] == p.refs[ref]
  {
    var i :| 0 <= i < |doc.profiles| && doc.profiles[i].ref == ref;
    var before := Resolve(map[], db.storages, doc.storages, mode);
    ResolveOwn(before, db.profiles, doc.profiles, mode, i);
    ResolveOthers(Resolve(before, db.profiles, doc.profiles, mode), db.playlists, doc.playlists, mode, ref);
    assert Placed(db.profiles, p.rows, p.refs, doc.profiles[i], mode);
  }

  lemma StorageLeads(db: Database, doc: Document, mode: Mode, s: Progress, p: Progress, l: Progress, ref: string)
    requires Valid(doc) && TablesDone(db, doc, mode, s, p, l) && HasRef(doc.storages, ref)
    requires !HasRef(doc.profiles, ref) && !HasRef(doc.playlists, ref)
    ensures ref in l.refs && ref in s.refs && l.refs[ref] == s.refs[ref]
  {
    var i :| 0 <= i < |doc.storages| && doc.storages[i].ref == ref;
    assert Placed(db.storages, s.rows, s.refs, doc.storages[i], mode);
  }

  /** Different references of one kind lead to different rows. */
  lemma IdsDiffer(
    rows0: seq<Row>, refs0: map<string, nat>, c0: Counts, entries: seq<Entry>, mode: Mode, p: Progress, a: string,
    b: string)
    requires Imported(rows0, refs0, c0, entries, mode, p) && HasRef(entries, a) && HasRef(entries, b) && a != b
    ensures a in p.refs && b in p.refs && p.refs[a] != p.refs[b]
  {
    var i :| 0 <= i < |entries| && entries[i].ref == a;
    var j :| 0 <= j < |entries| && entries[j].ref == b;
    assert Placed(rows0, p.rows, p.refs, entries[i], mode) && Placed(rows0, p.rows, p.refs, entries[j], mode);
    assert i < j || j < i;
  }

  // ---- the assignments ----

  /** What the tables leave for the assignments: every reference resolved as previewed, and distinct pairs. */
  ghost predicate Linkable(db: Database, resolved: Refs, refs: map<string, nat>, links: seq<Link>) {
    && (forall a <- db.assignments :: a.playlist < |db.playlists| && a.profile < |db.profiles|)
    && (forall i :: 0 <= i < |links| ==>
          && Leads(resolved, refs, db.playlists, links[i].playlistRef)
             && Leads(resolved, refs, db.profiles, links[i].profileRef)
          && links[i].storageRef in refs)
    && (forall i, j :: 0 <= i < j < |links| ==> Pair(refs, links[i]) != Pair(refs, links[j]))
  }

  function Pair(refs: map<string, nat>, link: Link): (Option<nat>, Option<nat>) {
    (if link.playlistRef in refs then Some(refs[link.playlistRef]) else None,
     if link.profileRef in refs then Some(refs[link.profileRef]) else None)
  }

  function LinkActions(db: Database, resolved: Refs, links: seq<Link>, mode: Mode): (r: seq<Action>)
    ensures |r| == |links|
  {
    seq(|links|, i requires 0 <= i < |links| => LinkAction(db, resolved, links[i], mode))
  }

  lemma {:induction false} FindAssignmentAppended(rows: seq<Assignment>, row: Assignment, x: nat, y: nat)
    ensures FindAssignment(rows + [row], x, y).Some?
            <==> FindAssignment(rows, x, y).Some? || (row.playlist == x && row.profile == y)
    ensures FindAssignment(rows, x, y).Some? ==> FindAssignment(rows + [row], x, y) == FindAssignment(rows, x, y)
    ensures FindAssignment(rows, x, y) == None && row.playlist == x && row.profile == y
            ==> FindAssignment(rows + [row], x, y) == Some(|rows|)
  {
    assert (rows + [row])[..|rows|] == rows;
  }

  lemma {:induction false} FindAssignmentReplaced(rows: seq<Assignment>, i: nat, row: Assignment, x: nat, y: nat)
    requires i < |rows| && rows[i].playlist == row.playlist && rows[i].profile == row.profile
    ensures FindAssignment(rows[i := row], x, y) == FindAssignment(rows, x, y)
  {
    var after := rows[i := row];
    if i == |rows| - 1 {
      assert after[..|after| - 1] == rows[..|rows| - 1];
    } else {
      assert after[..|after| - 1] == rows[..|rows| - 1][i := row];
      FindAssignmentReplaced(rows[..|rows| - 1], i, row, x, y);
    }
  }

  /** Before: the pair of a link is in the table iff the preview did not create it. */
  lemma PairKnown(db: Database, resolved: Refs, refs: map<string, nat>, link: Link, mode: Mode)
    requires forall a <- db.assignments :: a.playlist < |db.playlists| && a.profile < |db.profiles|
    requires Leads(resolved, refs, db.playlists, link.playlistRef)
             && Leads(resolved, refs, db.profiles, link.profileRef)
    requires mode == CreateAlways && link.playlistRef in resolved ==> resolved[link.playlistRef] == None
    ensures LinkAction(db, resolved, link, mode) == Create
            <==> FindAssignment(db.assignments, refs[link.playlistRef], refs[link.profileRef]) == None
  {
  }

  ghost predicate HasPair(refs: map<string, nat>, links: seq<Link>, x: nat, y: nat) {
    exists i :: 0 <= i < |links| && Pair(refs, links[i]) == (Some(x), Some(y))
  }

  lemma PairsSnoc(refs: map<string, nat>, links: seq<Link>, link: Link, x: nat, y: nat)
    ensures HasPair(refs, links + [link], x, y)
            <==> HasPair(refs, links, x, y) || Pair(refs, link) == (Some(x), Some(y))
  {
    var all := links + [link];
    assert all[|links|] == link;
    if HasPair(refs, links, x, y) {
      var i :| 0 <= i < |links| && Pair(refs, links[i]) == (Some(x), Some(y));
      assert all[i] == links[i];
    }
  }

  /** The pair of a link has the row the link describes. */
  ghost predicate Carries(assignments: seq<Assignment>, refs: map<string, nat>, link: Link) {
    && link.playlistRef in refs && link.profileRef in refs && link.storageRef in refs
    && var found := FindAssignment(assignments, refs[link.playlistRef], refs[link.profileRef]);
       && found.Some?
       && assignments[found.value]
          == Assignment(refs[link.playlistRef], refs[link.profileRef], refs[link.storageRef], link.data)
  }

  ghost predicate Linked(
    db: Database, resolved: Refs, refs: map<string, nat>, c0: Counts, links: seq<Link>, mode: Mode, l: Linking)
  {
    && |db.assignments| <= |l.assignments|
    && (mode != OverwriteExisting ==> forall i :: 0 <= i < |db.assignments| ==> l.assignments[i] == db.assignments[i])
    && (forall x: nat, y: nat ::
          FindAssignment(l.assignments, x, y).Some?
          <==> FindAssignment(db.assignments, x, y).Some? || HasPair(refs, links, x, y))
    && (forall i :: 0 <= i < |links| && LinkAction(db, resolved, links[i], mode) != Skip
          ==> Carries(l.assignments, refs, links[i]))
    && l.counts == TallyFrom(c0, LinkActions(db, resolved, links, mode))
  }

  /** One assignment applied as previewed: afterwards its pair is there, and no other is gained or lost. */
  lemma PairsAfter(l: Linking, refs: map<string, nat>, link: Link, action: Action, x: nat, y: nat)
    requires ApplyLink(l, refs, link, action).Some?
    requires action == Skip ==> FindAssignment(l.assignments, refs[link.playlistRef], refs[link.profileRef]).Some?
    ensures FindAssignment(ApplyLink(l, refs, link, action).value.assignments, x, y).Some?
            <==> FindAssignment(l.assignments, x, y).Some? || Pair(refs, link) == (Some(x), Some(y))
  {
    var x0, y0 := refs[link.playlistRef], refs[link.profileRef];
    var row := Assignment(x0, y0, refs[link.storageRef], link.data);
    var found := FindAssignment(l.assignments, x0, y0);
    if action == Create {
      FindAssignmentAppended(l.assignments, row, x, y);
    } else if action == Overwrite {
      FindAssignmentReplaced(l.assignments, found.value, row, x, y);
    }
  }

  /** The link applied has its row, and the rows of links of other pairs stay. */
  lemma RowsAfter(l: Linking, refs: map<string, nat>, link: Link, action: Action, other: Link)
    requires ApplyLink(l, refs, link, action).Some?
    ensures action != Skip ==> Carries(ApplyLink(l, refs, link, action).value.assignments, refs, link)
    ensures Carries(l.assignments, refs, other) && Pair(refs, other) != Pair(refs, link)
            ==> Carries(ApplyLink(l, refs, link, action).value.assignments, refs, other)
  {
    var x0, y0 := refs[link.playlistRef], refs[link.profileRef];
    var row := Assignment(x0, y0, refs[link.storageRef], link.data);
    var found := FindAssignment(l.assignments, x0, y0);
    if action == Create {
      FindAssignmentAppended(l.assignments, row, x0, y0);
    } else if action == Overwrite {
      FindAssignmentReplaced(l.assignments, found.value, row, x0, y0);
    }
    if Carries(l.assignments, refs, other) && Pair(refs, other) != Pair(refs, link) {
      var x, y := refs[other.playlistRef], refs[other.profileRef];
      if action == Create {
        FindAssignmentAppended(l.assignments, row, x, y);
      } else if action == Overwrite {
        FindAssignmentReplaced(l.assignments, found.value, row, x, y);
      }
    }
  }

  lemma LinkCounts(db: Database, resolved: Refs, c0: Counts, links: seq<Link>, link: Link, mode: Mode)
    ensures TallyFrom(c0, LinkActions(db, resolved, links + [link], mode))
         == TallyFrom(c0, LinkActions(db, resolved, links, mode)).Plus(LinkAction(db, resolved, link, mode))
  {
    var actions := LinkActions(db, resolved, links + [link], mode);
    assert actions[..|actions| - 1] == LinkActions(db, resolved, links, mode);
  }

  /** The pair of the next link is in the table exactly when the preview did not create it. */
  lemma NextPair(
    db: Database, resolved: Refs, refs: map<string, nat>, c0: Counts, links: seq<Link>, link: Link, mode: Mode,
    l: Linking)
    requires Linked(db, resolved, refs, c0, links, mode, l) && Linkable(db, resolved, refs, links + [link])
    requires mode == CreateAlways && link.playlistRef in resolved ==> resolved[link.playlistRef] == None
    ensures link.playlistRef in refs && link.profileRef in refs && link.storageRef in refs
    ensures FindAssignment(l.assignments, refs[link.playlistRef], refs[link.profileRef]) == None
            <==> LinkAction(db, resolved, link, mode) == Create
  {
    var all := links + [link];
    assert all[|links|] == link;
    PairKnown(db, resolved, refs, link, mode);
    forall i | 0 <= i < |links|
      ensures Pair(refs, links[i]) != Pair(refs, link)
    {
      assert all[i] == links[i];
    }
    assert Pair(refs, link) == (Some(refs[link.playlistRef]), Some(refs[link.profileRef]));
    assert !HasPair(refs, links, refs[link.playlistRef], refs[link.profileRef]);
  }

  lemma LinkLinked(
    db: Database, resolved: Refs, refs: map<string, nat>, c0: Counts, links: seq<Link>, link: Link, mode: Mode,
    l: Linking)
    requires Linked(db, resolved, refs, c0, links, mode, l) && Linkable(db, resolved, refs, links + [link])
    requires mode == CreateAlways && link.playlistRef in resolved ==> resolved[link.playlistRef] == None
    ensures var r := ApplyLink(l, refs, link, LinkAction(db, resolved, link, mode));
            r.Some? && Linked(db, resolved, refs, c0, links + [link], mode, r.value)
  {
    var action := LinkAction(db, resolved, link, mode);
    NextPair(db, resolved, refs, c0, links, link, mode, l);
    var r := ApplyLink(l, refs, link, action).value;
    forall x: nat, y: nat
      ensures FindAssignment(r.assignments, x, y).Some?
              <==> FindAssignment(db.assignments, x, y).Some? || HasPair(refs, links + [link], x, y)
    {
      PairsAfter(l, refs, link, action, x, y);
      PairsSnoc(refs, links, link, x, y);
    }
    LinkCounts(db, resolved, c0, links, link, mode);
    LinkRowsAfter(db, resolved, refs, links, link, mode, l);
  }

  lemma LinkRowsAfter(
    db: Database, resolved: Refs, refs: map<string, nat>, links: seq<Link>, link: Link, mode: Mode, l: Linking)
    requires ApplyLink(l, refs, link, LinkAction(db, resolved, link, mode)).Some?
             && Linkable(db, resolved, refs, links + [link])
    requires forall i :: 0 <= i < |links| && LinkAction(db, resolved, links[i], mode) != Skip
               ==> Carries(l.assignments, refs, links[i])
    ensures var r := ApplyLink(l, refs, link, LinkAction(db, resolved, link, mode)).value;
            var all := links + [link];
            forall i :: 0 <= i < |all| && LinkAction(db, resolved, all[i], mode) != Skip
              ==> Carries(r.assignments, refs, all[i])
  {
    var all := links + [link];
    assert all[|links|] == link;
    forall i | 0 <= i < |all| && LinkAction(db, resolved, all[i], mode) != Skip
      ensures Carries(ApplyLink(l, refs, link, LinkAction(db, resolved, link, mode)).value.assignments, refs, all[i])
    {
      RowsAfter(l, refs, link, LinkAction(db, resolved, link, mode), all[i]);
      if i < |links| {
        assert all[i] == links[i];
      }
    }
  }

  /** One assignment more. */
  lemma LinksSnoc(
    db: Database, resolved: Refs, refs: map<string, nat>, l: Linking, links: seq<Link>, last: Link, mode: Mode)
    ensures ApplyLinks(l, refs, links + [last], LinkActions(db, resolved, links + [last], mode))
            == match ApplyLinks(l, refs, links, LinkActions(db, resolved, links, mode))
               case None => None
               case Some(before) => ApplyLink(before, refs, last, LinkAction(db, resolved, last, mode))
  {
    var all := links + [last];
    var actions := LinkActions(db, resolved, all, mode);
    assert all[..|all| - 1] == links;
    assert actions[..|actions| - 1] == LinkActions(db, resolved, links, mode);
  }

  lemma {:induction false} LinksLinked(
    db: Database, resolved: Refs, refs: map<string, nat>, c0: Counts, links: seq<Link>, mode: Mode)
    requires Linkable(db, resolved, refs, links)
    requires mode == CreateAlways ==> forall link <- links :: link.playlistRef in resolved
                                        ==> resolved[link.playlistRef] == None
    ensures var r := ApplyLinks(Linking(db.assignments, c0), refs, links, LinkActions(db, resolved, links, mode));
            r.Some? && Linked(db, resolved, refs, c0, links, mode, r.value)
  {
    var start := Linking(db.assignments, c0);
    if links != [] {
      var init, last := links[..|links| - 1], links[|links| - 1];
      assert links == init + [last] && last in links;
      LinksLinked(db, resolved, refs, c0, init, mode);
      LinksSnoc(db, resolved, refs, start, init, last, mode);
      LinkLinked(db, resolved, refs, c0, init, last, mode,
                 ApplyLinks(start, refs, init, LinkActions(db, resolved, init, mode)).value);
    }
  }

  // ---- the settings ----

  function SettingActions(db: Database, settings: seq<(string, string)>, mode: Mode): (r: seq<Action>)
    ensures |r| == |settings|
  {
    seq(|settings|, i requires 0 <= i < |settings| => SettingAction(db, settings[i].0, mode))
  }

  function Keys(settings: seq<(string, string)>): set<string> { set i | 0 <= i < |settings| :: settings[i].0 }

  function SettingAfter(db: Database, setting: (string, string), mode: Mode): string {
    if setting.0 in db.settings && mode != OverwriteExisting then db.settings[setting.0] else setting.1
  }

  lemma {:induction false} SettingsSet(db: Database, c0: Counts, settings: seq<(string, string)>, mode: Mode)
    requires forall i, j :: 0 <= i < j < |settings| ==> settings[i].0 != settings[j].0
    ensures var r := ApplySettings(Setting(db.settings, c0), settings, SettingActions(db, settings, mode));
            && r.counts == TallyFrom(c0, SettingActions(db, settings, mode))
            && r.values.Keys == db.settings.Keys + Keys(settings)
            && (forall i :: 0 <= i < |settings| ==> r.values[settings[i].0] == SettingAfter(db, settings[i], mode))
            && (forall key <- db.settings.Keys :: key !in Keys(settings) ==> r.values[key] == db.settings[key])
  {
    if settings != [] {
      var init, last := settings[..|settings| - 1], settings[|settings| - 1];
      var actions := SettingActions(db, settings, mode);
      assert actions[..|actions| - 1] == SettingActions(db, init, mode);
      SettingsSet(db, c0, init, mode);
      KeysSnoc(init, last);
      assert settings == init + [last];
      assert last.0 !in Keys(init);
    }
  }

  lemma KeysSnoc(settings: seq<(string, string)>, last: (string, string))
    ensures Keys(settings + [last]) == Keys(settings) + {last.0}
  {
    var all := settings + [last];
    assert all[|settings|] == last;
    assert forall i :: 0 <= i < |settings| ==> all[i] == settings[i];
    forall key
      ensures key in Keys(all) <==> key in Keys(settings) || key == last.0
    {
      if key in Keys(settings) {
        var i :| 0 <= i < |settings| && settings[i].0 == key;
        assert all[i].0 == key;
      }
    }
  }

  // ---- the whole import ----

  /** The preview in its five parts. */
  lemma PreviewParts(db: Database, doc: Document, mode: Mode)
    ensures var actions := Preview(db, doc, mode);
            var (a, b, c, d) := Cuts(doc);
            && |actions| == d + |doc.settings|
            && actions[..a] == EntryActions(db.storages, doc.storages, mode)
            && actions[a..b] == EntryActions(db.profiles, doc.profiles, mode)
            && actions[b..c] == EntryActions(db.playlists, doc.playlists, mode)
            && actions[c..d] == LinkActions(db, Resolved(db, doc, mode), doc.links, mode)
            && actions[d..] == SettingActions(db, doc.settings, mode)
  {
  }

  lemma PreviewTally(db: Database, doc: Document, mode: Mode)
    ensures Tally(Preview(db, doc, mode))
         == TallyFrom(TallyFrom(TallyFrom(TallyFrom(TallyFrom(Counts(0, 0, 0),
                EntryActions(db.storages, doc.storages, mode)), EntryActions(db.profiles, doc.profiles, mode)),
                EntryActions(db.playlists, doc.playlists, mode)),
                  LinkActions(db, Resolved(db, doc, mode), doc.links, mode)),
                SettingActions(db, doc.settings, mode))
  {
    var (s, p, l) :=
      (EntryActions(db.storages, doc.storages, mode), EntryActions(db.profiles, doc.profiles, mode),
      EntryActions(db.playlists, doc.playlists, mode));
    var (k, t) := (LinkActions(db, Resolved(db, doc, mode), doc.links, mode), SettingActions(db, doc.settings, mode));
    var zero := Counts(0, 0, 0);
    assert Preview(db, doc, mode) == s + p + l + k + t;
    TallyIsFrom(Preview(db, doc, mode));
    TallyConcat(zero, s + p + l + k, t);
    TallyConcat(zero, s + p + l, k);
    TallyConcat(zero, s + p, l);
    TallyConcat(zero, s, p);
  }

  /** The three tables go through as previewed. */
  lemma TablesGoThrough(db: Database, doc: Document, mode: Mode) returns (s: Progress, p: Progress, l: Progress)
    requires Valid(doc) && Resolvable(db, doc)
    ensures TablesDone(db, doc, mode, s, p, l)
    ensures ApplyEntries(Progress(db.storages, map[], Counts(0, 0, 0)), doc.storages,
            EntryActions(db.storages, doc.storages, mode)) == Some(s)
    ensures ApplyEntries(Progress(db.profiles, s.refs, s.counts), doc.profiles,
            EntryActions(db.profiles, doc.profiles, mode)) == Some(p)
    ensures ApplyEntries(Progress(db.playlists, p.refs, p.counts), doc.playlists,
            EntryActions(db.playlists, doc.playlists, mode)) == Some(l)
  {
    EntriesImported(db.storages, map[], Counts(0, 0, 0), doc.storages, mode);
    s := ApplyEntries(Progress(db.storages, map[], Counts(0, 0, 0)), doc.storages,
      EntryActions(db.storages, doc.storages, mode)).value;
    EntriesImported(db.profiles, s.refs, s.counts, doc.profiles, mode);
    p := ApplyEntries(Progress(db.profiles, s.refs, s.counts), doc.profiles,
      EntryActions(db.profiles, doc.profiles, mode)).value;
    EntriesImported(db.playlists, p.refs, p.counts, doc.playlists, mode);
    l := ApplyEntries(Progress(db.playlists, p.refs, p.counts), doc.playlists,
      EntryActions(db.playlists, doc.playlists, mode)).value;
  }

  /** Two assignments of the document never lead to one pair of rows. */
  lemma PairsDiffer(db: Database, doc: Document, mode: Mode, s: Progress, p: Progress, l: Progress, i: nat, j: nat)
    requires Valid(doc) && Unmixed(doc) && TablesDone(db, doc, mode, s, p, l) && i < j < |doc.links|
    ensures Pair(l.refs, doc.links[i]) != Pair(l.refs, doc.links[j])
  {
    var x, y := doc.links[i], doc.links[j];
    assert x in doc.links && y in doc.links;
    PlaylistLeads(db, doc, mode, s, p, l, x.playlistRef);
    PlaylistLeads(db, doc, mode, s, p, l, y.playlistRef);
    ProfileLeads(db, doc, mode, s, p, l, x.profileRef);
    ProfileLeads(db, doc, mode, s, p, l, y.profileRef);
    if x.playlistRef != y.playlistRef {
      IdsDiffer(db.playlists, p.refs, p.counts, doc.playlists, mode, l, x.playlistRef, y.playlistRef);
    } else {
      IdsDiffer(db.profiles, s.refs, s.counts, doc.profiles, mode, p, x.profileRef, y.profileRef);
    }
  }

  lemma TablesLinkable(db: Database, doc: Document, mode: Mode, s: Progress, p: Progress, l: Progress)
    requires Valid(doc) && Unmixed(doc) && Sound(db) && TablesDone(db, doc, mode, s, p, l)
    ensures Linkable(db, Resolved(db, doc, mode), l.refs, doc.links)
  {
    forall i | 0 <= i < |doc.links|
      ensures Leads(Resolved(db, doc, mode), l.refs, db.playlists, doc.links[i].playlistRef)
      ensures Leads(Resolved(db, doc, mode), l.refs, db.profiles, doc.links[i].profileRef)
      ensures doc.links[i].storageRef in l.refs
    {
      assert doc.links[i] in doc.links;
      PlaylistLeads(db, doc, mode, s, p, l, doc.links[i].playlistRef);
      ProfileLeads(db, doc, mode, s, p, l, doc.links[i].profileRef);
      StorageLeads(db, doc, mode, s, p, l, doc.links[i].storageRef);
    }
    forall i, j | 0 <= i < j < |doc.links|
      ensures Pair(l.refs, doc.links[i]) != Pair(l.refs, doc.links[j])
    {
      PairsDiffer(db, doc, mode, s, p, l, i, j);
    }
  }

  /** In create mode no playlist resolves to an existing row. */
  lemma CreateResolvesNothing(db: Database, doc: Document, ref: string)
    requires Valid(doc) && HasRef(doc.playlists, ref)
    ensures ref in Resolved(db, doc, CreateAlways) && Resolved(db, doc, CreateAlways)[ref] == None
  {
    var i :| 0 <= i < |doc.playlists| && doc.playlists[i].ref == ref;
    var before :=
      Resolve(Resolve(map[], db.storages, doc.storages, CreateAlways), db.profiles, doc.profiles, CreateAlways);
    ResolveOwn(before, db.playlists, doc.playlists, CreateAlways, i);
  }

  /** Everything an import leaves behind. */
  ghost predicate Done(
    db: Database, doc: Document, mode: Mode, after: Database, counts: Counts, s: Progress, p: Progress, l: Progress,
    k: Linking)
  {
    && TablesDone(db, doc, mode, s, p, l)
    && Linked(db, Resolved(db, doc, mode), l.refs, l.counts, doc.links, mode, k)
    && after.storages == s.rows && after.profiles == p.rows && after.playlists == l.rows
       && after.assignments == k.assignments
    && after.settings.Keys == db.settings.Keys + Keys(doc.settings)
    && (forall i :: 0 <= i < |doc.settings|
          ==> after.settings[doc.settings[i].0] == SettingAfter(db, doc.settings[i], mode))
    && (forall key <- db.settings.Keys :: key !in Keys(doc.settings) ==> after.settings[key] == db.settings[key])
    && counts == TallyFrom(k.counts, SettingActions(db, doc.settings, mode))
  }

  /** An import put together from its five stages. */
  lemma ImportAssembled(
    db: Database, doc: Document, actions: seq<Action>, s: Progress, p: Progress, l: Progress, k: Linking, t: Setting)
    requires |actions| == RowCount(doc)
    requires var (a, b, c, d) := Cuts(doc);
             && ApplyEntries(Progress(db.storages, map[], Counts(0, 0, 0)), doc.storages, actions[..a]) == Some(s)
             && ApplyEntries(Progress(db.profiles, s.refs, s.counts), doc.profiles, actions[a..b]) == Some(p)
             && ApplyEntries(Progress(db.playlists, p.refs, p.counts), doc.playlists, actions[b..c]) == Some(l)
             && ApplyLinks(Linking(db.assignments, l.counts), l.refs, doc.links, actions[c..d]) == Some(k)
             && ApplySettings(Setting(db.settings, k.counts), doc.settings, actions[d..]) == t
    ensures Import(db, doc, actions) == Some((Database(s.rows, p.rows, l.rows, k.assignments, t.values), t.counts))
  {
  }

  lemma LinksGoThrough(
    db: Database, doc: Document, mode: Mode, s: Progress, p: Progress, l: Progress) returns (k: Linking)
    requires Valid(doc) && Unmixed(doc) && Sound(db) && TablesDone(db, doc, mode, s, p, l)
    ensures ApplyLinks(Linking(db.assignments, l.counts), l.refs, doc.links,
            LinkActions(db, Resolved(db, doc, mode), doc.links, mode)) == Some(k)
    ensures Linked(db, Resolved(db, doc, mode), l.refs, l.counts, doc.links, mode, k)
  {
    TablesLinkable(db, doc, mode, s, p, l);
    var resolved := Resolved(db, doc, mode);
    if mode == CreateAlways {
      forall link <- doc.links
        ensures link.playlistRef in resolved ==> resolved[link.playlistRef] == None
      {
        CreateResolvesNothing(db, doc, link.playlistRef);
      }
    }
    LinksLinked(db, resolved, l.refs, l.counts, doc.links, mode);
    k := ApplyLinks(Linking(db.assignments, l.counts), l.refs, doc.links,
      LinkActions(db, resolved, doc.links, mode)).value;
  }

  lemma ImportDone(db: Database, doc: Document, mode: Mode) returns (s: Progress, p: Progress, l: Progress, k: Linking)
    requires Valid(doc) && Unmixed(doc) && Sound(db) && Resolvable(db, doc)
    ensures var r := Import(db, doc, Preview(db, doc, mode));
      r.Some? && Done(db, doc, mode, r.value.0, r.value.1, s, p, l, k)
  {
    PreviewParts(db, doc, mode);
    s, p, l := TablesGoThrough(db, doc, mode);
    k := LinksGoThrough(db, doc, mode, s, p, l);
    SettingsSet(db, k.counts, doc.settings, mode);
    ImportAssembled(db, doc, Preview(db, doc, mode), s, p, l, k,
                    ApplySettings(Setting(db.settings, k.counts), doc.settings,
                      SettingActions(db, doc.settings, mode)));
  }
}
