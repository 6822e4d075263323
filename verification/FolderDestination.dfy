/**
 Which folders a template names and where a planned move takes a row, said of the playlist's and the profile's
 own fields (src/sluicery/layout/__init__.py, src/sluicery/core/folder_move.py).
 */
module FolderDestination {
  import opened Common
  import opened Naming
  import opened Layout
  import opened FolderPlan

  /** The text a field stands for; a literal stands for itself, and the folder name is made safe first. */
  ghost predicate StandsFor(piece: Piece, ctx: Context, text: string) {
    match piece
    case Literal(literal) => text == literal
    case PlaylistName => text == ctx.playlistName
    case FolderName => SanitizeComponent(ctx.folderName) == Some(text)
    case ProfileName => text == ctx.profileName
    case ProfileKind => text == ctx.profileKind
    case BadField => false
  }

  /** The texts a template's fields stand for, one after the other. */
  ghost predicate Spells(template: seq<Piece>, ctx: Context, texts: seq<string>) {
    |texts| == |template| && forall k :: 0 <= k < |template| ==> StandsFor(template[k], ctx, texts[k])
  }

  function Joined(texts: seq<string>): string { if texts == [] then "" else texts[0] + Joined(texts[1..]) }

  /** Whatever the template: its prefix is the safe path of its fields' texts joined together. */
  lemma ResolvesJoined(template: seq<Piece>, ctx: Context, texts: seq<string>)
    requires Spells(template, ctx, texts) && SanitizeComponent(ctx.folderName).Some?
    ensures ResolveSubpath(template, ctx)
         == match SanitizeRelativePath(Joined(texts)) case None => LayoutError case Some(path) => Prefix(path)
  {
    ExpandsJoined(template, ctx, texts, SanitizeComponent(ctx.folderName).value);
    assert forall k :: 0 <= k < |template| ==> template[k] != BadField;
  }

  lemma {:induction false} ExpandsJoined(template: seq<Piece>, ctx: Context, texts: seq<string>, folder: string)
    requires Spells(template, ctx, texts) && SanitizeComponent(ctx.folderName) == Some(folder)
    ensures Expand(template, ctx, folder) == Joined(texts)
  {
    if template != [] {
      assert StandsFor(template[0], ctx, texts[0]);
      ExpandsJoined(template[1..], ctx, texts[1..], folder);
    }
  }

  // ---- fields joined by separators ----

  /** Fields with a "/" between each two. */
  ghost predicate Slashed(template: seq<Piece>) {
    |template| % 2 == 1 && forall k :: 0 <= k < |template| && k % 2 == 1 ==> template[k] == Literal("/")
  }

  function Fields(template: seq<Piece>): nat { (|template| + 1) / 2 }

  /** A text that is one component of a path, and what the sanitizer makes of it. */
  ghost predicate OnePart(text: string, safe: string) {
    && text != "" && text != "." && text != ".." && (forall k :: 0 <= k < |text| ==> text[k] != '/' && text[k] != '\\')
    && SanitizeComponent(text) == Some(safe)
  }

  /** What a path starting with this text would name a drive by. */
  ghost predicate NamesDrive(text: string) {
    |text| >= 2 && ('A' <= text[0] <= 'Z' || 'a' <= text[0] <= 'z') && text[1] == ':'
  }

  /** Texts that are one component each, with separators between them. */
  ghost predicate Alternates(texts: seq<string>, safe: Path) {
    && safe != [] && |texts| == 2 * |safe| - 1
    && (forall k :: 0 <= k < |safe| ==> OnePart(texts[2 * k], safe[k]))
    && (forall k :: 0 <= k < |safe| - 1 ==> texts[2 * k + 1] == "/")
  }

  /** The components are the texts that are no separators, and the sanitizer makes the path of them. */
  ghost predicate SplitsInto(parts: seq<string>, texts: seq<string>, safe: Path) {
    && |texts| == 2 * |safe| - 1 && |parts| == |safe| && (forall k :: 0 <= k < |safe| ==> parts[k] == texts[2 * k])
    && SanitizeAll(parts) == Some(safe)
  }

  lemma AlternatesOn(texts: seq<string>, safe: Path)
    requires Alternates(texts, safe) && |safe| > 1
    ensures Alternates(texts[2..], safe[1..]) && texts[1] == "/" && OnePart(texts[0], safe[0])
  {
    var rest, left := texts[2..], safe[1..];
    forall k | 0 <= k < |left|
      ensures OnePart(rest[2 * k], left[k])
    {
      assert rest[2 * k] == texts[2 * (k + 1)];
    }
    forall k | 0 <= k < |left| - 1
      ensures rest[2 * k + 1] == "/"
    {
      assert rest[2 * k + 1] == texts[2 * (k + 1) + 1];
    }
    assert texts[2 * 0 + 1] == "/" && OnePart(texts[2 * 0], safe[0]);
  }

  lemma SplitsOn(parts: seq<string>, texts: seq<string>, safe: Path)
    requires |safe| > 1 && |texts| == 2 * |safe| - 1 && SplitsInto(parts, texts[2..], safe[1..])
    requires SanitizeComponent(texts[0]) == Some(safe[0])
    ensures SplitsInto([texts[0]] + parts, texts, safe)
  {
    var all := [texts[0]] + parts;
    forall k | 0 <= k < |safe|
      ensures all[k] == texts[2 * k]
    {
      assert k > 0 ==> all[k] == parts[k - 1] == texts[2..][2 * (k - 1)];
    }
    assert all[1..] == parts && safe == [safe[0]] + safe[1..];
  }

  lemma {:induction false} SlashedParts(texts: seq<string>, safe: Path)
    requires Alternates(texts, safe)
    ensures SplitsInto(Components(Joined(texts)), texts, safe)
    decreases |safe|
  {
    if |safe| == 1 {
      OnlyPart(texts[0], safe[0]);
      assert texts == [texts[0]] && safe == [safe[0]];
    } else {
      AlternatesOn(texts, safe);
      SlashedParts(texts[2..], safe[1..]);
      SplitFirst(texts);
      SplitsOn(Components(Joined(texts[2..])), texts, safe);
    }
  }

  lemma OnlyPart(text: string, safe: string)
    requires OnePart(text, safe)
    ensures SplitsInto(Components(Joined([text])), [text], [safe])
  {
    assert Joined([text]) == text + Joined([text][1..]) && [text][1..] == [];
    assert Joined([text]) == text;
    OneComponent(text);
    assert SanitizeAll([text][1..]) == Some([]) && [safe] + [] == [safe];
  }

  /** The first text, the separator, and the rest. */
  lemma SplitFirst(texts: seq<string>)
    requires |texts| > 2 && texts[1] == "/" && forall c <- texts[0] :: !IsSeparator(c)
    ensures Components(Joined(texts)) == [texts[0]] + Components(Joined(texts[2..]))
  {
    var rest := Joined(texts[2..]);
    assert Joined(texts) == texts[0] + ("/" + rest) by {
      assert texts[1..][0] == "/" && texts[1..][1..] == texts[2..];
    }
    PrependComponent(texts[0], "/" + rest);
    assert ("/" + rest)[1..] == rest && texts[0] + "" == texts[0];
  }

  lemma NoDrive(texts: seq<string>)
    requires texts != [] && !NamesDrive(texts[0]) && texts[0] != ""
    requires |texts| > 1 ==> texts[1] == "/"
    ensures !HasDrive(Joined(texts)) && Joined(texts) != ""
  {
    if |texts| > 1 {
      assert Joined(texts[1..])[0] == '/';
    }
  }

  /** For fields joined by "/" that each stand for one component, component k is the k-th field's, made safe. */
  lemma SlashedResolves(template: seq<Piece>, ctx: Context, texts: seq<string>, safe: Path)
    requires Slashed(template) && SanitizeComponent(ctx.folderName).Some? && Spells(template, ctx, texts)
    requires |safe| == Fields(template) && !NamesDrive(texts[0])
    requires forall k :: 0 <= k < |safe| ==> OnePart(texts[2 * k], safe[k])
    ensures ResolveSubpath(template, ctx) == Prefix(safe)
  {
    ResolvesJoined(template, ctx, texts);
    forall k | 0 <= k < |safe| - 1
      ensures texts[2 * k + 1] == "/"
    {
      assert StandsFor(template[2 * k + 1], ctx, texts[2 * k + 1]);
    }
    SlashedParts(texts, safe);
    assert OnePart(texts[2 * 0], safe[0]);
    NoDrive(texts);
    PartsAreRelative(Components(Joined(texts)), texts, safe);
  }

  lemma PartsAreRelative(parts: seq<string>, texts: seq<string>, safe: Path)
    requires Alternates(texts, safe) && SplitsInto(parts, texts, safe)
    ensures forall part <- parts :: part != "" && part != "." && part != ".."
  {
    forall k | 0 <= k < |parts|
      ensures parts[k] != "" && parts[k] != "." && parts[k] != ".."
    {
      assert OnePart(texts[2 * k], safe[k]);
    }
  }

  // ---- where a row goes ----

  /** The folder the k-th field of the row's template names when the playlist has this folder name. */
  ghost predicate Names(piece: Piece, playlist: Playlist, row: Artifact, folder: string, part: string) {
    && IsClean(part)
    && match piece
       case Literal(literal) => part == literal
       case PlaylistName => part == playlist.name
       case FolderName => part == folder
       case ProfileName => part == row.profileName
       case ProfileKind => part == row.profileKind
       case BadField => false
  }

  ghost predicate NamesPath(playlist: Playlist, row: Artifact, folder: string, prefix: Path) {
    && Slashed(row.subpath) && |prefix| == Fields(row.subpath)
    && forall k :: 0 <= k < |prefix| ==> Names(row.subpath[2 * k], playlist, row, folder, prefix[k])
  }

  /** With clean values the prefix of a row is the path of the fields themselves. */
  lemma CleanPrefix(playlist: Playlist, row: Artifact, folder: string, prefix: Path)
    requires IsClean(folder) && NamesPath(playlist, row, folder, prefix)
    ensures RowPrefix(playlist, row, folder) == Prefix(prefix)
  {
    var texts := seq(|row.subpath|, k requires 0 <= k < |row.subpath| => if k % 2 == 1 then "/" else prefix[k / 2]);
    var ctx := RowContext(playlist, row, folder);
    forall k | 0 <= k < |row.subpath|
      ensures StandsFor(row.subpath[k], ctx, texts[k])
    {
      if k % 2 == 0 {
        assert Names(row.subpath[2 * (k / 2)], playlist, row, folder, prefix[k / 2]);
      }
    }
    forall k | 0 <= k < |prefix|
      ensures texts[2 * k] == prefix[k] && OnePart(texts[2 * k], prefix[k])
    {
      assert Names(row.subpath[2 * k], playlist, row, folder, prefix[k]);
      CleanIsPart(prefix[k]);
    }
    CleanIsPart(prefix[0]);
    SlashedResolves(row.subpath, ctx, texts, prefix);
  }

  lemma CleanIsPart(s: string)
    requires IsClean(s)
    ensures OnePart(s, s) && !NamesDrive(s)
  {
    CleanIsTidy(s);
    forall k | 0 <= k < |s|
      ensures s[k] != '/' && s[k] != '\\' && s[k] != ':'
    {
      assert s[k] in s;
    }
    assert !IsStrippable(s[|s| - 1]);
  }

  /** The path with the folder name put anew wherever the template names the folder. */
  ghost predicate Renamed(template: seq<Piece>, newName: string, before: Path, after: Path) {
    && |after| == |before|
    && forall k :: 0 <= k < |before| ==>
         after[k] == if k < Fields(template) && 2 * k < |template| && template[2 * k] == FolderName then newName
                     else before[k]
  }

  /**
   An unblocked plan moves a row below its prefix, whose template names the folder, to the same path with the new
   name in the folder's place. Without the folder in the template, or elsewhere, the row is left alone.
   */
  lemma PlannedDestination(
    w: World, newName: string, order: seq<nat>, down: set<nat>, id: nat, prefix: Path, destination: Path)
    requires var plan := BuildPlan(w, newName, order, down); plan.Ok? && plan.value.blocked == []
    requires id < |w.catalog.artifacts| && IsClean(w.catalog.playlist.folderName)
    requires var row := w.catalog.artifacts[id];
             && NamesPath(w.catalog.playlist, row, w.catalog.playlist.folderName, prefix)
             && Renamed(row.subpath, newName, row.path, destination)
    ensures var row := w.catalog.artifacts[id];
            var candidates := BuildPlan(w, newName, order, down).value.candidates;
            if prefix <= row.path && FolderName in row.subpath
            then PlansMove(candidates, id, (row.storageId, row.path), destination)
            else PlansNoMove(candidates, id)
  {
    var row := w.catalog.artifacts[id];
    WhereTo(w.catalog, newName, id, prefix, destination);
    PlannedAsResolved(w, newName, order, down, id);
  }

  /** The plan moves artifact id, which is at this location, to this path. */
  ghost predicate PlansMove(candidates: seq<Candidate>, id: nat, here: Location, destination: Path) {
    exists k :: 0 <= k < |candidates| && candidates[k].artifactId == id
                && (candidates[k].storageId, candidates[k].source) == here && candidates[k].destination == destination
  }

  ghost predicate PlansNoMove(candidates: seq<Candidate>, id: nat) {
    forall k :: 0 <= k < |candidates| ==> candidates[k].artifactId != id
  }

  /** An unblocked plan lists the rows that have a destination. */
  lemma PlannedAsResolved(w: World, newName: string, order: seq<nat>, down: set<nat>, id: nat)
    requires var plan := BuildPlan(w, newName, order, down); plan.Ok? && plan.value.blocked == []
    requires id < |w.catalog.artifacts|
    ensures var row, candidates := w.catalog.artifacts[id], BuildPlan(w, newName, order, down).value.candidates;
            match RowDestination(w.catalog, newName, id)
            case Some(destination) => PlansMove(candidates, id, (row.storageId, row.path), destination)
            case None => PlansNoMove(candidates, id)
  {
    var intents := PendingIntents(w.runs, order, w.catalog.playlist.folderName, newName);
    var candidates := BuildPlan(w, newName, order, down).value.candidates;
    UnblockedIsFaithful(w, newName, intents, down, |w.catalog.artifacts|);
    FaithfulPlans(w, newName, intents, down, candidates, id);
  }

  lemma FaithfulPlans(
    w: World, newName: string, intents: map<nat, (nat, Candidate)>, down: set<nat>, cs: seq<Candidate>, id: nat)
    requires id < |w.catalog.artifacts| && Faithful(w, newName, intents, down, |w.catalog.artifacts|, cs)
    ensures var row := w.catalog.artifacts[id];
            match RowDestination(w.catalog, newName, id)
            case Some(destination) => PlansMove(cs, id, (row.storageId, row.path), destination)
            case None => PlansNoMove(cs, id)
  {
    assert forall k :: 0 <= k < |cs| ==> Covered(w.catalog, newName, cs[k]);
    if RowDestination(w.catalog, newName, id).Some? {
      var k :| 0 <= k < |cs| && cs[k].artifactId == id;
      assert Covered(w.catalog, newName, cs[k]);
    }
  }

  lemma WhereTo(cat: Catalog, newName: string, id: nat, prefix: Path, destination: Path)
    requires id < |cat.artifacts| && IsClean(cat.playlist.folderName) && IsClean(newName)
    requires newName != cat.playlist.folderName
    requires var row := cat.artifacts[id];
             && NamesPath(cat.playlist, row, cat.playlist.folderName, prefix)
             && Renamed(row.subpath, newName, row.path, destination)
    ensures var row := cat.artifacts[id];
            RowDestination(cat, newName, id)
            == if prefix <= row.path && FolderName in row.subpath then Some(destination) else None
  {
    var row, playlist := cat.artifacts[id], cat.playlist;
    var there := RenamedPrefix(playlist, row, newName, prefix);
    CleanPrefix(playlist, row, playlist.folderName, prefix);
    CleanPrefix(playlist, row, newName, there);
    PrefixRenamed(playlist, row, newName, prefix, there);
    if prefix <= row.path {
      MovedBelow(row.subpath, newName, prefix, there, row.path, destination);
    }
  }

  lemma MovedBelow(template: seq<Piece>, newName: string, prefix: Path, there: Path, path: Path, destination: Path)
    requires |prefix| == Fields(template) && prefix <= path
    requires Renamed(template, newName, prefix, there) && Renamed(template, newName, path, destination)
    ensures destination == there + path[|prefix|..]
  {
  }

  lemma PrefixRenamed(playlist: Playlist, row: Artifact, newName: string, prefix: Path, there: Path)
    requires NamesPath(playlist, row, playlist.folderName, prefix) && Renamed(row.subpath, newName, prefix, there)
    requires newName != playlist.folderName
    ensures prefix != there <==> FolderName in row.subpath
  {
    forall k | 0 <= k < |prefix| && row.subpath[2 * k] == FolderName
      ensures prefix[k] == playlist.folderName
    {
      assert Names(row.subpath[2 * k], playlist, row, playlist.folderName, prefix[k]);
    }
    FolderNamed(row.subpath, prefix, there, playlist.folderName, newName);
  }

  lemma RenamedPrefix(playlist: Playlist, row: Artifact, newName: string, prefix: Path) returns (there: Path)
    requires NamesPath(playlist, row, playlist.folderName, prefix) && IsClean(newName)
    ensures NamesPath(playlist, row, newName, there) && Renamed(row.subpath, newName, prefix, there)
  {
    there := seq(|prefix|, k requires 0 <= k < |prefix| =>
      if row.subpath[2 * k] == FolderName then newName else prefix[k]);
    forall k | 0 <= k < |there|
      ensures Names(row.subpath[2 * k], playlist, row, newName, there[k])
    {
      assert Names(row.subpath[2 * k], playlist, row, playlist.folderName, prefix[k]);
    }
  }

  /** The two prefixes differ exactly when the template names the folder. */
  lemma FolderNamed(template: seq<Piece>, prefix: Path, there: Path, oldName: string, newName: string)
    requires Slashed(template) && |prefix| == Fields(template) && Renamed(template, newName, prefix, there)
    requires forall k :: 0 <= k < |prefix| && template[2 * k] == FolderName ==> prefix[k] == oldName
    requires oldName != newName
    ensures prefix != there <==> FolderName in template
  {
    if FolderName in template {
      var k :| 0 <= k < |template| && template[k] == FolderName;
      assert k % 2 == 0 && there[k / 2] == newName && prefix[k / 2] == oldName;
    } else {
      assert forall k :: 0 <= k < |prefix| ==> template[2 * k] in template;
    }
  }
}
