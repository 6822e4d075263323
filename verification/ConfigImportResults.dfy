/**
 What an import promises: it does what its preview showed, the document ends up in the database, a
 second skip import is all skips, and which documents and modes break this.
 */
module ConfigImportResults {
  import opened Common
  import opened ConfigImport
  import opened ConfigImportProofs

  // ---- the confirmed plan ----

  lemma {:induction false} LinksCounted(l: Linking, refs: map<string, nat>, links: seq<Link>, actions: seq<Action>)
    requires |actions| == |links| && ApplyLinks(l, refs, links, actions).Some?
    ensures ApplyLinks(l, refs, links, actions).value.counts == TallyFrom(l.counts, actions)
  {
    if links != [] {
      LinksCounted(l, refs, links[..|links| - 1], actions[..|actions| - 1]);
    }
  }

  /** Whatever its references, an import that succeeds has the counters of its preview. */
  lemma SuccessCounts(db: Database, doc: Document, mode: Mode)
    requires Valid(doc) && Resolvable(db, doc) && Import(db, doc, Preview(db, doc, mode)).Some?
    ensures Import(db, doc, Preview(db, doc, mode)).value.1 == Tally(Preview(db, doc, mode))
  {
    PreviewParts(db, doc, mode);
    PreviewTally(db, doc, mode);
    var s, p, l := TablesGoThrough(db, doc, mode);
    var actions := LinkActions(db, Resolved(db, doc, mode), doc.links, mode);
    LinksCounted(Linking(db.assignments, l.counts), l.refs, doc.links, actions);
    var k := ApplyLinks(Linking(db.assignments, l.counts), l.refs, doc.links, actions).value;
    SettingsSet(db, k.counts, doc.settings, mode);
  }

  lemma ImportSucceeds(db: Database, doc: Document, mode: Mode)
    requires Valid(doc) && Unmixed(doc) && Sound(db) && Resolvable(db, doc)
    ensures Import(db, doc, Preview(db, doc, mode)).Some?
  {
    var s, p, l, k := ImportDone(db, doc, mode);
  }

  lemma ConfirmedShape(db: Database, doc: Document, plan: Plan)
    requires Resolvable(db, doc) && Import(db, doc, Preview(db, doc, plan.mode)).Some?
    ensures ConfirmedImport(db, doc, plan)
         == if PlanImport(db, doc, plan.mode) == Ok(plan) then Ok(Import(db, doc, Preview(db, doc, plan.mode)).value)
            else Err(NotConfirmed)
  {
    assert plan == Plan(plan.mode, plan.actions, plan.met);
  }

  /**
   A plan shown for one state of the database and confirmed in another: the import goes through
   exactly when planning again gives the same plan, and then its counters are those of the plan
   shown, for every valid document whose references are not mixed, in every mode.
   */
  lemma ImportDoesThePlan(shown: Database, db: Database, doc: Document, mode: Mode)
    requires Valid(doc) && Unmixed(doc) && Sound(db) && Resolvable(shown, doc)
    ensures var plan := PlanImport(shown, doc, mode).value;
            var r := ConfirmedImport(db, doc, plan);
            && (r.Ok? <==> PlanImport(db, doc, mode) == Ok(plan))
            && (r.Ok? ==> r.value.1 == Tally(plan.actions))
  {
    if Resolvable(db, doc) {
      ImportSucceeds(db, doc, mode);
      SuccessCounts(db, doc, mode);
      ConfirmedShape(db, doc, PlanImport(shown, doc, mode).value);
    }
  }

  // ---- the stages of an import that succeeds ----

  /** A successful import, stage by stage. */
  ghost predicate Staged(db: Database, doc: Document, mode: Mode, s: Progress, p: Progress, l: Progress, k: Linking) {
    var r := Import(db, doc, Preview(db, doc, mode));
    var linkActions := LinkActions(db, Resolved(db, doc, mode), doc.links, mode);
    && r.Some? && r.value.0.storages == s.rows && r.value.0.profiles == p.rows && r.value.0.playlists == l.rows
    && ApplyLinks(Linking(db.assignments, l.counts), l.refs, doc.links, linkActions) == Some(k)
    && r.value.0.assignments == k.assignments
    && r.value.0.settings
       == ApplySettings(Setting(db.settings, k.counts), doc.settings, SettingActions(db, doc.settings, mode)).values
  }

  lemma Stages(db: Database, doc: Document, mode: Mode) returns (s: Progress, p: Progress, l: Progress, k: Linking)
    requires Valid(doc) && Resolvable(db, doc) && Import(db, doc, Preview(db, doc, mode)).Some?
    ensures TablesDone(db, doc, mode, s, p, l) && Staged(db, doc, mode, s, p, l, k)
  {
    PreviewParts(db, doc, mode);
    s, p, l := TablesGoThrough(db, doc, mode);
    var linkActions := LinkActions(db, Resolved(db, doc, mode), doc.links, mode);
    k := ApplyLinks(Linking(db.assignments, l.counts), l.refs, doc.links, linkActions).value;
  }

  // ---- what it leaves behind ----

  /** Every entry of a table has the row it describes, where the dictionary says. */
  ghost predicate EntriesCarried(
    rows0: seq<Row>, rows: seq<Row>, refs: map<string, nat>, entries: seq<Entry>, mode: Mode)
  {
    forall i :: 0 <= i < |entries| ==>
      entries[i].ref in refs && refs[entries[i].ref] < |rows|
        && rows[refs[entries[i].ref]] == EntryRow(rows0, entries[i], mode)
  }

  /** Every link that is not skipped has its assignment. */
  ghost predicate LinksCarried(
    db: Database, doc: Document, mode: Mode, assignments: seq<Assignment>, refs: map<string, nat>)
  {
    forall i :: 0 <= i < |doc.links| && LinkAction(db, Resolved(db, doc, mode), doc.links[i], mode) != Skip
                ==> Carries(assignments, refs, doc.links[i])
  }

  ghost predicate SettingsCarried(db: Database, settings: map<string, string>, doc: Document, mode: Mode) {
    forall i :: 0 <= i < |doc.settings| ==>
      doc.settings[i].0 in settings && settings[doc.settings[i].0] == SettingAfter(db, doc.settings[i], mode)
  }

  /** The references of the links still name the rows their tables gave them. */
  ghost predicate RefsStand(doc: Document, s: map<string, nat>, p: map<string, nat>, l: map<string, nat>) {
    forall link <- doc.links ::
      && link.storageRef in s && link.storageRef in l && l[link.storageRef] == s[link.storageRef]
      && link.profileRef in p && link.profileRef in l && l[link.profileRef] == p[link.profileRef]
  }

  lemma TableCarried(rows0: seq<Row>, refs0: map<string, nat>, c0: Counts, entries: seq<Entry>, mode: Mode, p: Progress)
    requires Imported(rows0, refs0, c0, entries, mode, p)
    ensures EntriesCarried(rows0, p.rows, p.refs, entries, mode) && Untouched(rows0, p.rows, entries)
  {
    forall i | 0 <= i < |entries|
      ensures entries[i].ref in p.refs && p.refs[entries[i].ref] < |p.rows|
              && p.rows[p.refs[entries[i].ref]] == EntryRow(rows0, entries[i], mode)
    {
      assert Placed(rows0, p.rows, p.refs, entries[i], mode);
    }
  }

  lemma RefsStandAfter(db: Database, doc: Document, mode: Mode, s: Progress, p: Progress, l: Progress)
    requires Valid(doc) && Unmixed(doc) && TablesDone(db, doc, mode, s, p, l)
    ensures RefsStand(doc, s.refs, p.refs, l.refs)
  {
    forall link <- doc.links
      ensures link.storageRef in s.refs && link.storageRef in l.refs
              && l.refs[link.storageRef] == s.refs[link.storageRef]
      ensures link.profileRef in p.refs && link.profileRef in l.refs
              && l.refs[link.profileRef] == p.refs[link.profileRef]
    {
      StorageLeads(db, doc, mode, s, p, l, link.storageRef);
      ProfileLeads(db, doc, mode, s, p, l, link.profileRef);
    }
  }

  /**
   Every row and setting the document says is in the database after an import that succeeds, and rows it
   does not name are as they were. The three dictionaries say where each table's entries ended up. The
   links follow the last one, which agrees with the others unless references are mixed.
   */
  lemma ImportCarriesDocument(db: Database, doc: Document, mode: Mode)
    returns (after: Database, s: map<string, nat>, p: map<string, nat>, l: map<string, nat>)
    requires Valid(doc) && Resolvable(db, doc) && Import(db, doc, Preview(db, doc, mode)).Some?
    ensures after == Import(db, doc, Preview(db, doc, mode)).value.0
    ensures EntriesCarried(db.storages, after.storages, s, doc.storages, mode)
    ensures EntriesCarried(db.profiles, after.profiles, p, doc.profiles, mode)
    ensures EntriesCarried(db.playlists, after.playlists, l, doc.playlists, mode)
    ensures Untouched(db.storages, after.storages, doc.storages) && Untouched(db.profiles, after.profiles, doc.profiles)
    ensures Untouched(db.playlists, after.playlists, doc.playlists) && SettingsCarried(db, after.settings, doc, mode)
    ensures Unmixed(doc) && Sound(db) ==> RefsStand(doc, s, p, l) && LinksCarried(db, doc, mode, after.assignments, l)
  {
    var ss, pp, ll, k := Stages(db, doc, mode);
    after := Import(db, doc, Preview(db, doc, mode)).value.0;
    s, p, l := ss.refs, pp.refs, ll.refs;
    TableCarried(db.storages, map[], Counts(0, 0, 0), doc.storages, mode, ss);
    TableCarried(db.profiles, ss.refs, ss.counts, doc.profiles, mode, pp);
    TableCarried(db.playlists, pp.refs, pp.counts, doc.playlists, mode, ll);
    SettingsSet(db, k.counts, doc.settings, mode);
    if Unmixed(doc) && Sound(db) {
      RefsStandAfter(db, doc, mode, ss, pp, ll);
      UnmixedLinksCarried(db, doc, mode, ss, pp, ll, k);
    }
  }

  lemma UnmixedLinksCarried(db: Database, doc: Document, mode: Mode, s: Progress, p: Progress, l: Progress, k: Linking)
    requires Valid(doc) && Unmixed(doc) && Sound(db) && TablesDone(db, doc, mode, s, p, l)
    requires Staged(db, doc, mode, s, p, l, k)
    ensures LinksCarried(db, doc, mode, k.assignments, l.refs)
  {
    var k2 := LinksGoThrough(db, doc, mode, s, p, l);
    LinksCarriedAfter(db, doc, mode, l, k2);
  }

  lemma LinksCarriedAfter(db: Database, doc: Document, mode: Mode, l: Progress, k: Linking)
    requires Linked(db, Resolved(db, doc, mode), l.refs, l.counts, doc.links, mode, k)
    ensures LinksCarried(db, doc, mode, k.assignments, l.refs)
  {
  }

  /** Rows whose name no entry has. */
  ghost predicate Untouched(rows0: seq<Row>, rows: seq<Row>, entries: seq<Entry>) {
    forall i :: 0 <= i < |rows0| && !HasName(entries, rows0[i].name) ==> i < |rows| && rows[i] == rows0[i]
  }

  /** Whatever the mode, every existing row keeps its place and name, and every existing playlist its folder. */
  lemma FoldersKept(db: Database, doc: Document, mode: Mode, i: nat)
    requires Valid(doc) && Resolvable(db, doc) && Import(db, doc, Preview(db, doc, mode)).Some? && i < |db.playlists|
    ensures var after := Import(db, doc, Preview(db, doc, mode)).value.0;
            && i < |after.playlists|
            && after.playlists[i].folder == db.playlists[i].folder && after.playlists[i].name == db.playlists[i].name
  {
    var s, p, l, k := Stages(db, doc, mode);
  }

  lemma SkipKeepsRows(rows0: seq<Row>, rows: seq<Row>)
    requires Grown(rows0, rows, SkipExisting)
    ensures rows0 <= rows
  {
  }

  lemma FindGrows(rows: seq<Assignment>, more: seq<Assignment>, x: nat, y: nat)
    requires rows <= more && FindAssignment(rows, x, y).Some?
    ensures FindAssignment(more, x, y).Some?
  {
    var i := FindAssignment(rows, x, y).value;
    assert more[i] == rows[i];
  }

  /** Links applied without overwriting only add assignments, and each created pair is there afterwards. */
  lemma {:induction false} LinksOnlyAdd(l: Linking, refs: map<string, nat>, links: seq<Link>, actions: seq<Action>)
    requires |actions| == |links| && Overwrite !in actions && ApplyLinks(l, refs, links, actions).Some?
    ensures var after := ApplyLinks(l, refs, links, actions).value.assignments;
            && l.assignments <= after
            && forall n :: 0 <= n < |links| ==> LinkedPair(after, refs, links[n], actions[n])
  {
    if links != [] {
      var init, last := links[..|links| - 1], links[|links| - 1];
      var done := actions[..|actions| - 1];
      LinksOnlyAdd(l, refs, init, done);
      var before := ApplyLinks(l, refs, init, done).value.assignments;
      var after := ApplyLinks(l, refs, links, actions).value.assignments;
      assert before <= after;
      forall n | 0 <= n < |links|
        ensures LinkedPair(after, refs, links[n], actions[n])
      {
        if n < |init| {
          PairStays(before, after, refs, init[n], done[n]);
        } else {
          LastPair(before, after, refs, last, actions[n]);
        }
      }
    }
  }

  /** A link's references are known, and its pair is there if it was created. */
  ghost predicate LinkedPair(assignments: seq<Assignment>, refs: map<string, nat>, link: Link, action: Action) {
    && link.playlistRef in refs && link.profileRef in refs
    && (action == Create ==> FindAssignment(assignments, refs[link.playlistRef], refs[link.profileRef]).Some?)
  }

  lemma PairStays(before: seq<Assignment>, after: seq<Assignment>, refs: map<string, nat>, link: Link, action: Action)
    requires before <= after && LinkedPair(before, refs, link, action)
    ensures LinkedPair(after, refs, link, action)
  {
    if action == Create {
      FindGrows(before, after, refs[link.playlistRef], refs[link.profileRef]);
    }
  }

  lemma LastPair(before: seq<Assignment>, after: seq<Assignment>, refs: map<string, nat>, link: Link, action: Action)
    requires link.playlistRef in refs && link.profileRef in refs && link.storageRef in refs
    requires action == Create ==>
               var row := Assignment(refs[link.playlistRef], refs[link.profileRef], refs[link.storageRef], link.data);
               after == before + [row]
    ensures LinkedPair(after, refs, link, action)
  {
    if action == Create {
      assert after[|before|].playlist == refs[link.playlistRef] && after[|before|].profile == refs[link.profileRef];
    }
  }

  lemma SkipNeverOverwrites(db: Database, doc: Document)
    ensures Overwrite !in LinkActions(db, Resolved(db, doc, SkipExisting), doc.links, SkipExisting)
  {
  }

  /** Skipping changes no row that was there, in any table. */
  lemma SkipChangesNothing(db: Database, doc: Document)
    requires Valid(doc) && Resolvable(db, doc) && Import(db, doc, Preview(db, doc, SkipExisting)).Some?
    ensures var after := Import(db, doc, Preview(db, doc, SkipExisting)).value.0;
            && db.storages <= after.storages && db.profiles <= after.profiles && db.playlists <= after.playlists
            && db.assignments <= after.assignments
            && forall key <- db.settings.Keys :: key in after.settings && after.settings[key] == db.settings[key]
  {
    var s, p, l, k := Stages(db, doc, SkipExisting);
    SkipKeepsRows(db.storages, s.rows);
    SkipKeepsRows(db.profiles, p.rows);
    SkipKeepsRows(db.playlists, l.rows);
    SkipNeverOverwrites(db, doc);
    LinksOnlyAdd(Linking(db.assignments, l.counts), l.refs, doc.links,
                 LinkActions(db, Resolved(db, doc, SkipExisting), doc.links, SkipExisting));
    SettingsSet(db, k.counts, doc.settings, SkipExisting);
    SkippedSettingsStay(db, doc, k.counts);
  }

  lemma SkippedSettingsStay(db: Database, doc: Document, c0: Counts)
    requires Valid(doc)
    ensures var r :=
              ApplySettings(Setting(db.settings, c0), doc.settings, SettingActions(db, doc.settings, SkipExisting));
            forall key <- db.settings.Keys :: key in r.values && r.values[key] == db.settings[key]
  {
    SettingsSet(db, c0, doc.settings, SkipExisting);
    var r := ApplySettings(Setting(db.settings, c0), doc.settings, SettingActions(db, doc.settings, SkipExisting));
    forall key <- db.settings.Keys
      ensures key in r.values && r.values[key] == db.settings[key]
    {
      if key in Keys(doc.settings) {
        var i :| 0 <= i < |doc.settings| && doc.settings[i].0 == key;
        assert r.values[doc.settings[i].0] == SettingAfter(db, doc.settings[i], SkipExisting);
      }
    }
  }

  // ---- importing twice ----

  /** After a skip import every entry's row is found by its name. */
  lemma AllFound(rows0: seq<Row>, refs0: map<string, nat>, c0: Counts, entries: seq<Entry>, p: Progress, i: nat)
    requires Imported(rows0, refs0, c0, entries, SkipExisting, p) && i < |entries|
    ensures entries[i].ref in p.refs && Find(p.rows, entries[i].name) == Some(p.refs[entries[i].ref])
    ensures EntryAction(p.rows, entries[i], SkipExisting) == Skip
  {
    assert Placed(rows0, p.rows, p.refs, entries[i], SkipExisting);
  }

  /** A reference the next preview resolves to the row the import gave it. */
  ghost predicate SameRow(resolved: Refs, refs: map<string, nat>, ref: string) {
    ref in resolved && ref in refs && resolved[ref] == Some(refs[ref])
  }

  /** Going through one more table keeps that: its own references lead to its rows, the others stay. */
  lemma TableResolves(
    rows0: seq<Row>, refs0: map<string, nat>, c0: Counts, entries: seq<Entry>, p: Progress, before: Refs, ref: string)
    requires Imported(rows0, refs0, c0, entries, SkipExisting, p) && DistinctEntries(entries)
    requires HasRef(entries, ref) || SameRow(before, refs0, ref)
    ensures SameRow(Resolve(before, p.rows, entries, SkipExisting), p.refs, ref)
  {
    if HasRef(entries, ref) {
      var i :| 0 <= i < |entries| && entries[i].ref == ref;
      AllFound(rows0, refs0, c0, entries, p, i);
      ResolveOwn(before, p.rows, entries, SkipExisting, i);
    } else {
      ResolveOthers(before, p.rows, entries, SkipExisting, ref);
    }
  }

  /** So the next preview resolves every reference of a link as the first import did, mixed or not. */
  lemma ResolvesAgain(db: Database, doc: Document, after: Database, s: Progress, p: Progress, l: Progress, ref: string)
    requires Valid(doc) && TablesDone(db, doc, SkipExisting, s, p, l)
    requires after.storages == s.rows && after.profiles == p.rows && after.playlists == l.rows
    requires HasRef(doc.playlists, ref) || HasRef(doc.profiles, ref)
    ensures SameRow(Resolved(after, doc, SkipExisting), l.refs, ref)
  {
    var first := Resolve(map[], after.storages, doc.storages, SkipExisting);
    var second := Resolve(first, after.profiles, doc.profiles, SkipExisting);
    if HasRef(doc.profiles, ref) {
      TableResolves(db.profiles, s.refs, s.counts, doc.profiles, p, first, ref);
    }
    TableResolves(db.playlists, p.refs, p.counts, doc.playlists, l, second, ref);
  }

  /** A reference the preview resolved to an existing row is led there by the import. */
  ghost predicate Follows(resolved: Refs, refs: map<string, nat>, ref: string) {
    ref in resolved && resolved[ref].Some? ==> ref in refs && refs[ref] == resolved[ref].value
  }

  lemma TableFollows(
    rows0: seq<Row>, refs0: map<string, nat>, c0: Counts, entries: seq<Entry>, p: Progress, before: Refs, ref: string)
    requires Imported(rows0, refs0, c0, entries, SkipExisting, p) && DistinctEntries(entries)
    requires Follows(before, refs0, ref)
    ensures Follows(Resolve(before, rows0, entries, SkipExisting), p.refs, ref)
  {
    if HasRef(entries, ref) {
      var i :| 0 <= i < |entries| && entries[i].ref == ref;
      assert Placed(rows0, p.rows, p.refs, entries[i], SkipExisting);
      ResolveOwn(before, rows0, entries, SkipExisting, i);
    } else {
      ResolveOthers(before, rows0, entries, SkipExisting, ref);
    }
  }

  lemma TablesFollow(db: Database, doc: Document, s: Progress, p: Progress, l: Progress, ref: string)
    requires Valid(doc) && TablesDone(db, doc, SkipExisting, s, p, l)
    ensures Follows(Resolved(db, doc, SkipExisting), l.refs, ref)
  {
    var first := Resolve(map[], db.storages, doc.storages, SkipExisting);
    var second := Resolve(first, db.profiles, doc.profiles, SkipExisting);
    TableFollows(db.storages, map[], Counts(0, 0, 0), doc.storages, s, map[], ref);
    TableFollows(db.profiles, s.refs, s.counts, doc.profiles, p, first, ref);
    TableFollows(db.playlists, p.refs, p.counts, doc.playlists, l, second, ref);
  }

  /** After a skip import the pair of every link is there: it was skipped because it was, or it was created. */
  lemma LinkFound(db: Database, doc: Document, s: Progress, p: Progress, l: Progress, k: Linking, n: nat)
    requires Valid(doc) && TablesDone(db, doc, SkipExisting, s, p, l) && Staged(db, doc, SkipExisting, s, p, l, k)
    requires n < |doc.links|
    ensures var link := doc.links[n];
            && link.playlistRef in l.refs && link.profileRef in l.refs
            && FindAssignment(k.assignments, l.refs[link.playlistRef], l.refs[link.profileRef]).Some?
  {
    var link, resolved := doc.links[n], Resolved(db, doc, SkipExisting);
    SkipNeverOverwrites(db, doc);
    LinksOnlyAdd(Linking(db.assignments, l.counts), l.refs, doc.links,
      LinkActions(db, resolved, doc.links, SkipExisting));
    assert LinkedPair(k.assignments, l.refs, link, LinkAction(db, resolved, link, SkipExisting));
    if LinkAction(db, resolved, link, SkipExisting) != Create {
      TablesFollow(db, doc, s, p, l, link.playlistRef);
      TablesFollow(db, doc, s, p, l, link.profileRef);
      FindGrows(db.assignments, k.assignments, l.refs[link.playlistRef], l.refs[link.profileRef]);
    }
  }

  lemma LinkSkipped(
    db: Database, doc: Document, after: Database, s: Progress, p: Progress, l: Progress, k: Linking, n: nat)
    requires Valid(doc) && TablesDone(db, doc, SkipExisting, s, p, l) && Staged(db, doc, SkipExisting, s, p, l, k)
    requires after == Import(db, doc, Preview(db, doc, SkipExisting)).value.0 && n < |doc.links|
    ensures LinkAction(after, Resolved(after, doc, SkipExisting), doc.links[n], SkipExisting) == Skip
  {
    var link := doc.links[n];
    assert link in doc.links;
    LinkFound(db, doc, s, p, l, k, n);
    ResolvesAgain(db, doc, after, s, p, l, link.playlistRef);
    ResolvesAgain(db, doc, after, s, p, l, link.profileRef);
  }

  ghost predicate AllSkips(actions: seq<Action>) { forall i :: 0 <= i < |actions| ==> actions[i] == Skip }

  lemma SkippedTable(rows0: seq<Row>, refs0: map<string, nat>, c0: Counts, entries: seq<Entry>, p: Progress)
    requires Imported(rows0, refs0, c0, entries, SkipExisting, p)
    ensures AllSkips(EntryActions(p.rows, entries, SkipExisting))
  {
    forall i | 0 <= i < |entries|
      ensures EntryAction(p.rows, entries[i], SkipExisting) == Skip
    {
      AllFound(rows0, refs0, c0, entries, p, i);
    }
  }

  lemma SkippedRest(db: Database, doc: Document, after: Database, s: Progress, p: Progress, l: Progress, k: Linking)
    requires Valid(doc) && TablesDone(db, doc, SkipExisting, s, p, l) && Staged(db, doc, SkipExisting, s, p, l, k)
    requires after == Import(db, doc, Preview(db, doc, SkipExisting)).value.0
    ensures AllSkips(LinkActions(after, Resolved(after, doc, SkipExisting), doc.links, SkipExisting))
    ensures AllSkips(SettingActions(after, doc.settings, SkipExisting))
  {
    var resolved := Resolved(after, doc, SkipExisting);
    forall n | 0 <= n < |doc.links|
      ensures LinkAction(after, resolved, doc.links[n], SkipExisting) == Skip
    {
      LinkSkipped(db, doc, after, s, p, l, k, n);
    }
    SkippedLinks(after, resolved, doc.links);
    SettingsSet(db, k.counts, doc.settings, SkipExisting);
    SkippedSettings(db, doc, after);
  }

  lemma SkippedLinks(db: Database, resolved: Refs, links: seq<Link>)
    requires forall n :: 0 <= n < |links| ==> LinkAction(db, resolved, links[n], SkipExisting) == Skip
    ensures AllSkips(LinkActions(db, resolved, links, SkipExisting))
  {
  }

  lemma SkippedSettings(db: Database, doc: Document, after: Database)
    requires after.settings.Keys == db.settings.Keys + Keys(doc.settings)
    ensures AllSkips(SettingActions(after, doc.settings, SkipExisting))
  {
    forall i | 0 <= i < |doc.settings|
      ensures SettingAction(after, doc.settings[i].0, SkipExisting) == Skip
    {
      assert doc.settings[i].0 in Keys(doc.settings);
    }
  }

  /** A second skip import of the same document is accepted and is all skips. */
  lemma SecondSkipIsAllSkips(db: Database, doc: Document)
    requires Valid(doc) && Resolvable(db, doc) && Import(db, doc, Preview(db, doc, SkipExisting)).Some?
    ensures var again := PlanImport(Import(db, doc, Preview(db, doc, SkipExisting)).value.0, doc, SkipExisting);
            again.Ok? && AllSkips(again.value.actions)
  {
    var s, p, l, k := Stages(db, doc, SkipExisting);
    var after := Import(db, doc, Preview(db, doc, SkipExisting)).value.0;
    SkippedTable(db.storages, map[], Counts(0, 0, 0), doc.storages, s);
    SkippedTable(db.profiles, s.refs, s.counts, doc.profiles, p);
    SkippedTable(db.playlists, p.refs, p.counts, doc.playlists, l);
    SkippedRest(db, doc, after, s, p, l, k);
    AllSkipsParts(after, doc);
    ReimportRefusedExactly(db, doc, SkipExisting);
  }

  // ---- importing twice over existing names ----

  /** Some entry's name is in its table already. */
  predicate Known(db: Database, doc: Document) {
    || (exists e <- doc.storages :: Find(db.storages, e.name).Some?)
    || (exists e <- doc.profiles :: Find(db.profiles, e.name).Some?)
    || (exists e <- doc.playlists :: Find(db.playlists, e.name).Some?)
  }

  lemma TableAmbiguity(
    rows0: seq<Row>, refs0: map<string, nat>, c0: Counts, entries: seq<Entry>, mode: Mode, p: Progress, e: Entry)
    requires Imported(rows0, refs0, c0, entries, mode, p) && e in entries && !Ambiguous(rows0, e.name)
    ensures Ambiguous(p.rows, e.name) <==> mode == CreateAlways && Find(rows0, e.name).Some?
  {
    assert HasName(entries, e.name);
  }

  /**
   After an import that created rows regardless, the same document can never be imported again
   exactly when one of its names was there before: the name now belongs to two rows.
   */
  lemma ReimportRefusedExactly(db: Database, doc: Document, mode: Mode)
    requires Valid(doc) && Resolvable(db, doc) && Import(db, doc, Preview(db, doc, mode)).Some?
    ensures var after := Import(db, doc, Preview(db, doc, mode)).value.0;
            !Resolvable(after, doc) <==> mode == CreateAlways && Known(db, doc)
  {
    var s, p, l, k := Stages(db, doc, mode);
    forall e <- doc.storages
      ensures Ambiguous(s.rows, e.name) <==> mode == CreateAlways && Find(db.storages, e.name).Some?
    {
      TableAmbiguity(db.storages, map[], Counts(0, 0, 0), doc.storages, mode, s, e);
    }
    forall e <- doc.profiles
      ensures Ambiguous(p.rows, e.name) <==> mode == CreateAlways && Find(db.profiles, e.name).Some?
    {
      TableAmbiguity(db.profiles, s.refs, s.counts, doc.profiles, mode, p, e);
    }
    forall e <- doc.playlists
      ensures Ambiguous(l.rows, e.name) <==> mode == CreateAlways && Find(db.playlists, e.name).Some?
    {
      TableAmbiguity(db.playlists, p.refs, p.counts, doc.playlists, mode, l, e);
    }
  }

  lemma AllSkipsParts(db: Database, doc: Document)
    requires AllSkips(EntryActions(db.storages, doc.storages, SkipExisting))
             && AllSkips(EntryActions(db.profiles, doc.profiles, SkipExisting))
    requires AllSkips(EntryActions(db.playlists, doc.playlists, SkipExisting))
    requires AllSkips(LinkActions(db, Resolved(db, doc, SkipExisting), doc.links, SkipExisting))
    requires AllSkips(SettingActions(db, doc.settings, SkipExisting))
    ensures AllSkips(Preview(db, doc, SkipExisting))
  {
    var tables := EntryActions(db.storages, doc.storages, SkipExisting)
      + EntryActions(db.profiles, doc.profiles, SkipExisting)
                  + EntryActions(db.playlists, doc.playlists, SkipExisting);
    var links := LinkActions(db, Resolved(db, doc, SkipExisting), doc.links, SkipExisting);
    assert AllSkips(tables);
    assert Preview(db, doc, SkipExisting) == tables + links + SettingActions(db, doc.settings, SkipExisting);
  }

  // ---- mixed references ----

  /** Longer than every name of these entries. */
  function TotalLength(entries: seq<Entry>): nat {
    if entries == [] then 0 else TotalLength(entries[..|entries| - 1]) + |entries[|entries| - 1].name|
  }

  lemma {:induction false} NamesFit(entries: seq<Entry>, i: nat)
    requires i < |entries|
    ensures |entries[i].name| <= TotalLength(entries)
  {
    if i < |entries| - 1 {
      NamesFit(entries[..|entries| - 1], i);
    }
  }

  /** n rows no entry names. */
  function Strangers(entries: seq<Entry>, n: nat): seq<Row> {
    seq(n, _ => Row(seq(TotalLength(entries) + 1, _ => 'x'), "", ""))
  }

  lemma StrangersUnnamed(entries: seq<Entry>, n: nat, i: nat)
    requires i < |entries|
    ensures Find(Strangers(entries, n), entries[i].name) == None && !Ambiguous(Strangers(entries, n), entries[i].name)
  {
    NamesFit(entries, i);
    var rows := Strangers(entries, n);
    assert forall k :: 0 <= k < n ==> |rows[k].name| > |entries[i].name|;
  }

  /** More strangers than the document has rows of the tables that come later. */
  function StrangeDatabase(doc: Document): Database {
    var n := |doc.playlists| + 1;
    Database(Strangers(doc.storages, n + |doc.profiles| + n), Strangers(doc.profiles, n), [], [], map[])
  }

  lemma AllCreated(rows: seq<Row>, entries: seq<Entry>, mode: Mode)
    requires forall i :: 0 <= i < |entries| ==> Find(rows, entries[i].name) == None
    ensures forall i :: 0 <= i < |entries| ==> EntryAction(rows, entries[i], mode) == Create
  {
  }

  lemma {:induction false} ResolvesToNothing(refs: Refs, rows: seq<Row>, entries: seq<Entry>, mode: Mode)
    requires forall i :: 0 <= i < |entries| ==> EntryAction(rows, entries[i], mode) == Create
    requires forall ref <- refs.Keys :: refs[ref] == None
    ensures forall ref <- Resolve(refs, rows, entries, mode).Keys :: Resolve(refs, rows, entries, mode)[ref] == None
  {
    if entries != [] {
      ResolvesToNothing(refs, rows, entries[..|entries| - 1], mode);
    }
  }

  /** Links that are all created leave their rows in order. */
  lemma {:induction false} CreatedLinks(
    l: Linking, refs: map<string, nat>, links: seq<Link>, actions: seq<Action>, n: nat)
    requires |actions| == |links| && (forall i :: 0 <= i < |actions| ==> actions[i] == Create) && n < |links|
    requires ApplyLinks(l, refs, links, actions).Some?
    ensures links[n].profileRef in refs && links[n].storageRef in refs
    ensures var after := ApplyLinks(l, refs, links, actions).value.assignments;
            && |after| == |l.assignments| + |links|
            && after[|l.assignments| + n].profile == refs[links[n].profileRef]
            && after[|l.assignments| + n].storage == refs[links[n].storageRef]
  {
    var init := links[..|links| - 1];
    if |links| > 1 {
      CreatedLinks(l, refs, init, actions[..|actions| - 1], if n < |init| then n else 0);
    }
  }

  /** Every assignment of the result was there before, or joins a profile and a storage the document names. */
  ghost predicate LinksAsNamed(db: Database, doc: Document, after: Database) {
    forall a <- after.assignments :: a in db.assignments || Named(doc, after, a)
  }

  ghost predicate Named(doc: Document, after: Database, a: Assignment) {
    && a.profile < |after.profiles| && HasName(doc.profiles, after.profiles[a.profile].name)
    && a.storage < |after.storages| && HasName(doc.storages, after.storages[a.storage].name)
  }

  lemma {:induction false} LinksMakeRows(
    l: Linking, refs: map<string, nat>, links: seq<Link>, actions: seq<Action>, a: Assignment)
    requires |actions| == |links| && ApplyLinks(l, refs, links, actions).Some?
    requires a in ApplyLinks(l, refs, links, actions).value.assignments && a !in l.assignments
    ensures exists link <- links ::
              && link.profileRef in refs && link.storageRef in refs
              && a.profile == refs[link.profileRef] && a.storage == refs[link.storageRef]
  {
    var init, last := links[..|links| - 1], links[|links| - 1];
    var before := ApplyLinks(l, refs, init, actions[..|actions| - 1]).value;
    if a in before.assignments {
      LinksMakeRows(l, refs, init, actions[..|actions| - 1], a);
    } else {
      assert a.profile == refs[last.profileRef] && a.storage == refs[last.storageRef];
    }
  }

  /** The row of an entry has its name. */
  lemma EntryNamed(
    rows0: seq<Row>, refs0: map<string, nat>, c0: Counts, entries: seq<Entry>, mode: Mode, p: Progress, ref: string)
    requires Imported(rows0, refs0, c0, entries, mode, p) && HasRef(entries, ref)
    ensures ref in p.refs && p.refs[ref] < |p.rows| && HasName(entries, p.rows[p.refs[ref]].name)
  {
    var i :| 0 <= i < |entries| && entries[i].ref == ref;
    assert Placed(rows0, p.rows, p.refs, entries[i], mode);
    assert p.rows[p.refs[ref]].name == entries[i].name;
  }

  /** The references of the links lead to rows the document names. */
  ghost predicate NamesStand(doc: Document, s: Progress, p: Progress, l: Progress) {
    forall link <- doc.links ::
      && link.profileRef in l.refs && l.refs[link.profileRef] < |p.rows|
         && HasName(doc.profiles, p.rows[l.refs[link.profileRef]].name)
      && link.storageRef in l.refs && l.refs[link.storageRef] < |s.rows|
         && HasName(doc.storages, s.rows[l.refs[link.storageRef]].name)
  }

  lemma UnmixedStages(db: Database, doc: Document, mode: Mode)
    returns (s: Progress, p: Progress, l: Progress, k: Linking)
    requires Valid(doc) && Unmixed(doc) && Sound(db) && Resolvable(db, doc)
    ensures NamesStand(doc, s, p, l) && Staged(db, doc, mode, s, p, l, k)
  {
    ImportSucceeds(db, doc, mode);
    s, p, l, k := Stages(db, doc, mode);
    RefsStandAfter(db, doc, mode, s, p, l);
    forall link <- doc.links
      ensures link.profileRef in p.refs && p.refs[link.profileRef] < |p.rows|
      ensures HasName(doc.profiles, p.rows[p.refs[link.profileRef]].name)
      ensures link.storageRef in s.refs && s.refs[link.storageRef] < |s.rows|
      ensures HasName(doc.storages, s.rows[s.refs[link.storageRef]].name)
    {
      EntryNamed(db.profiles, s.refs, s.counts, doc.profiles, mode, p, link.profileRef);
      EntryNamed(db.storages, map[], Counts(0, 0, 0), doc.storages, mode, s, link.storageRef);
    }
  }

  /** Without mixed references an import into any database links what the document names. */
  lemma UnmixedLinksAsNamed(db: Database, doc: Document, mode: Mode)
    requires Valid(doc) && Unmixed(doc) && Sound(db) && Resolvable(db, doc)
    ensures var r := Import(db, doc, Preview(db, doc, mode)); r.Some? && LinksAsNamed(db, doc, r.value.0)
  {
    var s, p, l, k := UnmixedStages(db, doc, mode);
    var after := Import(db, doc, Preview(db, doc, mode)).value.0;
    forall a <- after.assignments
      ensures a in db.assignments || Named(doc, after, a)
    {
      if a !in db.assignments {
        LinksMakeRows(Linking(db.assignments, l.counts), l.refs, doc.links,
                      LinkActions(db, Resolved(db, doc, mode), doc.links, mode), a);
      }
    }
  }

  /** The first n rows are named by no entry. */
  ghost predicate Unnamed(rows: seq<Row>, entries: seq<Entry>, n: nat) {
    n <= |rows| && forall k :: 0 <= k < n ==> !HasName(entries, rows[k].name)
  }

  lemma StrangersStay(
    rows0: seq<Row>, refs0: map<string, nat>, c0: Counts, entries: seq<Entry>, mode: Mode, p: Progress, n: nat)
    requires rows0 == Strangers(entries, n) && Imported(rows0, refs0, c0, entries, mode, p)
    ensures Unnamed(p.rows, entries, n)
  {
    forall k, i | 0 <= k < n && 0 <= i < |entries|
      ensures entries[i].name != p.rows[k].name
    {
      NamesFit(entries, i);
    }
  }

  /** References of these entries lead to rows below a bound. */
  ghost predicate Bounded(refs: map<string, nat>, entries: seq<Entry>, bound: nat) {
    forall i :: 0 <= i < |entries| ==> entries[i].ref in refs && refs[entries[i].ref] < bound
  }

  lemma EntriesBounded(
    rows0: seq<Row>, refs0: map<string, nat>, c0: Counts, entries: seq<Entry>, mode: Mode, p: Progress)
    requires Imported(rows0, refs0, c0, entries, mode, p)
    ensures Bounded(p.refs, entries, |rows0| + |entries|)
  {
    forall i | 0 <= i < |entries|
      ensures entries[i].ref in p.refs && p.refs[entries[i].ref] < |rows0| + |entries|
    {
      assert Placed(rows0, p.rows, p.refs, entries[i], mode);
    }
  }

  /** A later table that uses none of these references, or leads them to its own, smaller rows. */
  lemma StaysBounded(
    rows0: seq<Row>, refs0: map<string, nat>, c0: Counts, entries: seq<Entry>, mode: Mode, p: Progress,
    earlier: seq<Entry>, bound: nat)
    requires Imported(rows0, refs0, c0, entries, mode, p) && Bounded(refs0, earlier, bound)
             && |rows0| + |entries| <= bound
    ensures Bounded(p.refs, earlier, bound)
  {
    EntriesBounded(rows0, refs0, c0, entries, mode, p);
    forall i | 0 <= i < |earlier|
      ensures earlier[i].ref in p.refs && p.refs[earlier[i].ref] < bound
    {
      if HasRef(entries, earlier[i].ref) {
        var j :| 0 <= j < |entries| && entries[j].ref == earlier[i].ref;
      }
    }
  }

  /** What the strange database leaves of a document's import. */
  ghost predicate Strange(doc: Document, s: Progress, p: Progress, l: Progress) {
    var n := |doc.playlists| + 1;
    && Unnamed(s.rows, doc.storages, n + |doc.profiles| + n) && Unnamed(p.rows, doc.profiles, n)
    && Bounded(l.refs, doc.playlists, n) && Bounded(l.refs, doc.profiles, n + |doc.profiles|)
  }

  lemma StrangeAfter(doc: Document, db: Database, s: Progress, p: Progress, l: Progress)
    requires db == StrangeDatabase(doc) && TablesDone(db, doc, SkipExisting, s, p, l)
    ensures Strange(doc, s, p, l)
  {
    StrangersStay(db.storages, map[], Counts(0, 0, 0), doc.storages, SkipExisting, s, |db.storages|);
    StrangersStay(db.profiles, s.refs, s.counts, doc.profiles, SkipExisting, p, |db.profiles|);
    EntriesBounded(db.profiles, s.refs, s.counts, doc.profiles, SkipExisting, p);
    EntriesBounded(db.playlists, p.refs, p.counts, doc.playlists, SkipExisting, l);
    StaysBounded(db.playlists, p.refs, p.counts, doc.playlists, SkipExisting, l, doc.profiles,
      |db.profiles| + |doc.profiles|);
  }

  lemma StrangeActions(doc: Document)
    ensures var db := StrangeDatabase(doc);
            && Sound(db) && Resolvable(db, doc)
            && forall i :: 0 <= i < |doc.links|
                 ==> LinkActions(db, Resolved(db, doc, SkipExisting), doc.links, SkipExisting)[i] == Create
  {
    var db := StrangeDatabase(doc);
    forall i | 0 <= i < |doc.storages|
      ensures Find(db.storages, doc.storages[i].name) == None && !Ambiguous(db.storages, doc.storages[i].name)
    {
      StrangersUnnamed(doc.storages, |db.storages|, i);
    }
    forall i | 0 <= i < |doc.profiles|
      ensures Find(db.profiles, doc.profiles[i].name) == None && !Ambiguous(db.profiles, doc.profiles[i].name)
    {
      StrangersUnnamed(doc.profiles, |db.profiles|, i);
    }
    AllCreated(db.storages, doc.storages, SkipExisting);
    AllCreated(db.profiles, doc.profiles, SkipExisting);
    AllCreated(db.playlists, doc.playlists, SkipExisting);
    var first := Resolve(map[], db.storages, doc.storages, SkipExisting);
    ResolvesToNothing(map[], db.storages, doc.storages, SkipExisting);
    ResolvesToNothing(first, db.profiles, doc.profiles, SkipExisting);
    ResolvesToNothing(Resolve(first, db.profiles, doc.profiles, SkipExisting), db.playlists, doc.playlists,
      SkipExisting);
  }

  lemma StrangeStages(doc: Document) returns (s: Progress, p: Progress, l: Progress, k: Linking)
    requires Valid(doc) && Resolvable(StrangeDatabase(doc), doc)
    requires Import(StrangeDatabase(doc), doc, Preview(StrangeDatabase(doc), doc, SkipExisting)).Some?
    ensures Strange(doc, s, p, l) && Staged(StrangeDatabase(doc), doc, SkipExisting, s, p, l, k)
  {
    s, p, l, k := Stages(StrangeDatabase(doc), doc, SkipExisting);
    StrangeAfter(doc, StrangeDatabase(doc), s, p, l);
  }

  /**
   A valid document with a mixed reference goes wrong: there is a database into which importing it
   fails, or links a profile or storage the document does not name.
   */
  lemma MixedMislinks(doc: Document) returns (db: Database)
    requires Valid(doc) && !Unmixed(doc)
    ensures Sound(db) && Resolvable(db, doc)
    ensures var r := Import(db, doc, Preview(db, doc, SkipExisting)); r.Some? ==> !LinksAsNamed(db, doc, r.value.0)
  {
    db := StrangeDatabase(doc);
    StrangeActions(doc);
    var r := Import(db, doc, Preview(db, doc, SkipExisting));
    if r.Some? {
      var n :| 0 <= n < |doc.links| && Mixed(doc, doc.links[n]);
      var s, p, l, k := StrangeStages(doc);
      var actions := LinkActions(db, Resolved(db, doc, SkipExisting), doc.links, SkipExisting);
      CreatedLinks(Linking(db.assignments, l.counts), l.refs, doc.links, actions, n);
      LeadsToStranger(doc, s, p, l, doc.links[n]);
      MislinkedRow(doc, db, s, p, l, doc.links[n], r.value.0, r.value.0.assignments[n]);
    }
  }

  /** So the last dictionary leads such a link to a stranger. */
  lemma LeadsToStranger(doc: Document, s: Progress, p: Progress, l: Progress, link: Link)
    requires Strange(doc, s, p, l) && Mixed(doc, link) && link.profileRef in l.refs && link.storageRef in l.refs
    ensures || (l.refs[link.profileRef] < |p.rows| && !HasName(doc.profiles, p.rows[l.refs[link.profileRef]].name))
            || (l.refs[link.storageRef] < |s.rows| && !HasName(doc.storages, s.rows[l.refs[link.storageRef]].name))
  {
    if HasRef(doc.playlists, link.profileRef) {
      var i :| 0 <= i < |doc.playlists| && doc.playlists[i].ref == link.profileRef;
    } else if HasRef(doc.profiles, link.storageRef) {
      var i :| 0 <= i < |doc.profiles| && doc.profiles[i].ref == link.storageRef;
    } else {
      var i :| 0 <= i < |doc.playlists| && doc.playlists[i].ref == link.storageRef;
    }
  }

  lemma MislinkedRow(
    doc: Document, db: Database, s: Progress, p: Progress, l: Progress, link: Link, after: Database, a: Assignment)
    requires db.assignments == [] && after.profiles == p.rows && after.storages == s.rows && a in after.assignments
    requires link.profileRef in l.refs && a.profile == l.refs[link.profileRef]
    requires link.storageRef in l.refs && a.storage == l.refs[link.storageRef]
    requires || (a.profile < |p.rows| && !HasName(doc.profiles, p.rows[a.profile].name))
             || (a.storage < |s.rows| && !HasName(doc.storages, s.rows[a.storage].name))
    ensures !LinksAsNamed(db, doc, after)
  {
    assert !Named(doc, after, a);
  }
}
