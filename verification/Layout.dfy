/**
 The subpath template of an assignment resolved against a folder name
 (src/sluicery/layout/__init__.py): the prefix under which its artifacts live.
 */
module Layout {
  import opened Common
  import opened Naming

  /** A template after Python's format parser; BadField is a field that cannot be expanded. */
  datatype Piece = Literal(text: string) | PlaylistName | FolderName | ProfileName | ProfileKind | BadField

  datatype Context = Context(playlistName: string, folderName: string, profileName: string, profileKind: string)

  datatype Resolved = Prefix(path: Path) | LayoutError | NamingError

  function PieceText(piece: Piece, ctx: Context, folder: string): string {
    match piece
    case Literal(text) => text
    case PlaylistName => ctx.playlistName
    case FolderName => folder
    case ProfileName => ctx.profileName
    case ProfileKind => ctx.profileKind
    case BadField => ""
  }

  function Expand(template: seq<Piece>, ctx: Context, folder: string): string {
    if template == [] then "" else PieceText(template[0], ctx, folder) + Expand(template[1..], ctx, folder)
  }

  /** The folder name is sanitized before the guarded expansion, so its error is not a layout error. */
  function ResolveSubpath(template: seq<Piece>, ctx: Context): Resolved {
    match SanitizeComponent(ctx.folderName)
    case None => NamingError
    case Some(folder) =>
      if BadField in template then LayoutError
      else
        match SanitizeRelativePath(Expand(template, ctx, folder))
        case None => LayoutError
        case Some(path) => Prefix(path)
  }

  // ---- the expansion as text with marked folder occurrences ----

  datatype Token = Char(c: char) | Folder

  function Chars(s: string): (r: seq<Token>) {
    if s == "" then [] else [Char(s[0])] + Chars(s[1..])
  }

  function PieceTokens(piece: Piece, ctx: Context): seq<Token> {
    if piece.FolderName? then [Folder] else Chars(PieceText(piece, ctx, ""))
  }

  function Tokens(template: seq<Piece>, ctx: Context): seq<Token> {
    if template == [] then [] else PieceTokens(template[0], ctx) + Tokens(template[1..], ctx)
  }

  function Text(t: Token, f: string): string { if t.Folder? then f else [t.c] }

  function Substitute(t: seq<Token>, f: string): string {
    if t == [] then "" else Text(t[0], f) + Substitute(t[1..], f)
  }

  lemma {:induction false} SubstituteConcat(a: seq<Token>, b: seq<Token>, f: string)
    ensures Substitute(a + b, f) == Substitute(a, f) + Substitute(b, f)
  {
    if a == [] {
      assert a + b == b;
    } else {
      assert (a + b)[1..] == a[1..] + b;
      SubstituteConcat(a[1..], b, f);
    }
  }

  lemma {:induction false} SubstituteChars(s: string, f: string)
    ensures Substitute(Chars(s), f) == s
    ensures Folder !in Chars(s)
  {
    if s != "" {
      SubstituteChars(s[1..], f);
      assert Chars(s)[1..] == Chars(s[1..]);
    }
  }

  lemma {:induction false} ExpandIsSubstitute(template: seq<Piece>, ctx: Context, f: string)
    ensures Expand(template, ctx, f) == Substitute(Tokens(template, ctx), f)
    ensures Folder in Tokens(template, ctx) <==> FolderName in template
  {
    if template != [] {
      var head, rest := PieceTokens(template[0], ctx), Tokens(template[1..], ctx);
      ExpandIsSubstitute(template[1..], ctx, f);
      SubstituteConcat(head, rest, f);
      SubstituteChars(PieceText(template[0], ctx, ""), f);
      assert Substitute(head, f) == PieceText(template[0], ctx, f) by {
        assert [Folder][1..] == [];
      }
    }
  }

  /** Splitting the marked text: no separator comes from a folder name. */
  function TokenComponents(t: seq<Token>): (r: seq<seq<Token>>)
    ensures |r| > 0
  {
    if t == [] then [[]]
    else
      var rest := TokenComponents(t[1..]);
      if t[0].Char? && IsSeparator(t[0].c) then [[]] + rest else [[t[0]] + rest[0]] + rest[1..]
  }

  lemma {:induction false} FolderComponent(t: seq<Token>) returns (k: nat)
    requires Folder in t
    ensures k < |TokenComponents(t)| && Folder in TokenComponents(t)[k]
  {
    if t[0] == Folder {
      k := 0;
    } else {
      assert t == [t[0]] + t[1..];
      k := FolderComponent(t[1..]);
      if IsSeparator(t[0].c) {
        k := k + 1;
      }
    }
  }

  lemma {:induction false} PrependComponent(f: string, s: string)
    requires forall c <- f :: !IsSeparator(c)
    ensures Components(f + s) == [f + Components(s)[0]] + Components(s)[1..]
  {
    if f == "" {
      assert f + s == s && f + Components(s)[0] == Components(s)[0];
    } else {
      assert (f + s)[1..] == f[1..] + s;
      PrependComponent(f[1..], s);
      assert [f[0]] + (f[1..] + Components(s)[0]) == f + Components(s)[0];
    }
  }

  /** One more token, applied to text that is already split. */
  lemma ComponentsOfToken(t: Token, f: string, text: string)
    requires forall c <- f :: !IsSeparator(c)
    ensures Components(Text(t, f) + text) ==
            if t.Char? && IsSeparator(t.c) then [""] + Components(text)
            else [Text(t, f) + Components(text)[0]] + Components(text)[1..]
  {
    if t.Folder? {
      PrependComponent(f, text);
    } else {
      assert ([t.c] + text)[1..] == text;
    }
  }

  ghost predicate Matches(split: seq<string>, parts: seq<seq<Token>>, f: string) {
    |split| == |parts| && forall k :: 0 <= k < |parts| ==> split[k] == Substitute(parts[k], f)
  }

  /** A token that is no separator is prepended to the first component. */
  lemma MatchesPrepended(t: Token, f: string, split: seq<string>, parts: seq<seq<Token>>)
    requires |parts| > 0 && Matches(split, parts, f)
    ensures Matches([Text(t, f) + split[0]] + split[1..], [[t] + parts[0]] + parts[1..], f)
  {
    var first := parts[0];
    assert Substitute([t] + first, f) == Text(t, f) + Substitute(first, f) by {
      assert ([t] + first)[1..] == first;
    }
  }

  lemma {:induction false} ComponentsOfSubstitute(t: seq<Token>, f: string)
    requires forall c <- f :: !IsSeparator(c)
    ensures Matches(Components(Substitute(t, f)), TokenComponents(t), f)
  {
    if t != [] {
      ComponentsOfSubstitute(t[1..], f);
      ComponentsOfToken(t[0], f, Substitute(t[1..], f));
      MatchesPrepended(t[0], f, Components(Substitute(t[1..], f)), TokenComponents(t[1..]));
    }
  }

  // ---- how one component depends on the folder name ----

  lemma {:induction false} Grow(t: seq<Token>, f: string, g: string)
    requires |f| <= |g|
    ensures |Substitute(t, f)| <= |Substitute(t, g)|
    ensures Folder in t ==> |Substitute(t, f)| + |g| - |f| <= |Substitute(t, g)|
  {
    if t != [] {
      Grow(t[1..], f, g);
    }
  }

  lemma {:induction false} SameLengthDetermines(t: seq<Token>, f: string, g: string)
    requires Folder in t && |f| == |g| && Substitute(t, f) == Substitute(t, g)
    ensures f == g
  {
    var a, b := Substitute(t, f), Substitute(t, g);
    match t[0] {
      case Folder =>
        assert a[..|f|] == f && b[..|f|] == g;
      case Char(c) =>
        assert a[1..] == Substitute(t[1..], f) && b[1..] == Substitute(t[1..], g);
        SameLengthDetermines(t[1..], f, g);
    }
  }

  function ScrubTokens(t: seq<Token>): seq<Token> {
    if t == [] then []
    else
      match t[0]
      case Folder => [Folder] + ScrubTokens(t[1..])
      case Char(c) =>
        if IsControl(c) then ScrubTokens(t[1..])
        else [Char(if IsForbidden(c) then '_' else c)] + ScrubTokens(t[1..])
  }

  lemma {:induction false} ScrubConcat(a: string, b: string)
    ensures Scrub(a + b) == Scrub(a) + Scrub(b)
  {
    if a == "" {
      assert a + b == b;
    } else {
      assert (a + b)[1..] == a[1..] + b;
      ScrubConcat(a[1..], b);
    }
  }

  lemma {:induction false} ScrubOfSubstitute(t: seq<Token>, f: string)
    requires Scrub(f) == f
    ensures Scrub(Substitute(t, f)) == Substitute(ScrubTokens(t), f)
    ensures Folder in ScrubTokens(t) <==> Folder in t
  {
    if t != [] {
      ScrubOfSubstitute(t[1..], f);
      match t[0] {
        case Folder =>
          ScrubConcat(f, Substitute(t[1..], f));
          assert ([Folder] + ScrubTokens(t[1..]))[1..] == ScrubTokens(t[1..]);
        case Char(c) =>
          assert ([c] + Substitute(t[1..], f))[1..] == Substitute(t[1..], f);
          var d := if IsForbidden(c) then '_' else c;
          assert ([Char(d)] + ScrubTokens(t[1..]))[1..] == ScrubTokens(t[1..]);
      }
    }
  }

  function StripTokens(t: seq<Token>): seq<Token> {
    if t != [] && t[|t| - 1].Char? && IsStrippable(t[|t| - 1].c) then StripTokens(t[..|t| - 1]) else t
  }

  lemma {:induction false} StripOfSubstitute(t: seq<Token>, f: string)
    requires f != "" && !IsStrippable(f[|f| - 1])
    ensures StripRight(Substitute(t, f)) == Substitute(StripTokens(t), f)
    ensures Folder in StripTokens(t) <==> Folder in t
  {
    if t != [] {
      var init, last := t[..|t| - 1], t[|t| - 1];
      assert t == init + [last];
      SubstituteConcat(init, [last], f);
      assert [last][1..] == [];
      if last.Char? && IsStrippable(last.c) {
        assert Substitute(t, f)[..|Substitute(t, f)| - 1] == Substitute(init, f);
        StripOfSubstitute(init, f);
      }
    }
  }

  /** The names a folder-dependent component cannot tell apart differ by one leading underscore. */
  predicate UnderscoreVariant(f: string, g: string) { g == "_" + f || f == "_" + g }

  /** Adding the reserved-name underscore on one side only means the names differ by exactly it. */
  lemma EscapedOnce(t: seq<Token>, f: string, g: string)
    requires Folder in t && "_" + Substitute(t, f) == Substitute(t, g)
    requires HasReservedStem(Substitute(t, f))
    ensures g == "_" + f
  {
    var a, b := Substitute(t, f), Substitute(t, g);
    if |g| <= |f| {
      Grow(t, g, f);
      assert false;
    }
    Grow(t, f, g);
    assert |g| == |f| + 1;
    match t[0] {
      case Char(c) =>
        assert a[0] == c == b[0] == '_';
        UnderscoreIsNotReserved(a);
        assert false;
      case Folder =>
        assert b[..|g|] == g;
        assert ("_" + a)[..|g|] == "_" + a[..|f|];
        assert a[..|f|] == f;
    }
  }

  lemma ComponentCollapse(t: seq<Token>, f: string, g: string)
    requires IsClean(f) && IsClean(g) && Folder in t
    requires SanitizeComponent(Substitute(t, f)).Some?
    requires SanitizeComponent(Substitute(t, f)) == SanitizeComponent(Substitute(t, g))
    ensures f == g || UnderscoreVariant(f, g)
  {
    CleanIsTidy(f);
    CleanIsTidy(g);
    ScrubOfSubstitute(t, f);
    ScrubOfSubstitute(t, g);
    StripOfSubstitute(ScrubTokens(t), f);
    StripOfSubstitute(ScrubTokens(t), g);
    var core := StripTokens(ScrubTokens(t));
    var a, b := Substitute(core, f), Substitute(core, g);
    assert Escape(a) == Escape(b);
    if HasReservedStem(a) == HasReservedStem(b) {
      assert a == b by {
        if HasReservedStem(a) {
          assert ("_" + a)[1..] == a && ("_" + b)[1..] == b;
        }
      }
      if |f| < |g| {
        Grow(core, f, g);
      } else if |g| < |f| {
        Grow(core, g, f);
      }
      SameLengthDetermines(core, f, g);
    } else if HasReservedStem(a) {
      EscapedOnce(core, f, g);
    } else {
      EscapedOnce(core, g, f);
    }
  }

  // ---- results about whole prefixes ----

  /** The folder a context resolves with. */
  function SafeFolder(ctx: Context): Option<string> { SanitizeComponent(ctx.folderName) }

  /** The prefixes of two folder names have the same depth. */
  lemma PrefixDepth(template: seq<Piece>, c1: Context, folder: string)
    requires ResolveSubpath(template, c1).Prefix?
    requires ResolveSubpath(template, c1.(folderName := folder)).Prefix?
    ensures |ResolveSubpath(template, c1).path| == |ResolveSubpath(template, c1.(folderName := folder)).path|
    ensures |ResolveSubpath(template, c1).path| > 0
  {
    var c2 := c1.(folderName := folder);
    PrefixParts(template, c1, 0);
    PrefixParts(template, c2, 0);
    TokensIgnoreFolder(template, c1, folder);
  }

  lemma {:induction false} TokensIgnoreFolder(template: seq<Piece>, ctx: Context, folder: string)
    ensures Tokens(template, ctx.(folderName := folder)) == Tokens(template, ctx)
  {
    if template != [] {
      TokensIgnoreFolder(template[1..], ctx, folder);
    }
  }

  /** Component k of a prefix is the sanitized k-th component of the marked text. */
  lemma PrefixParts(template: seq<Piece>, ctx: Context, k: nat)
    requires ResolveSubpath(template, ctx).Prefix?
    ensures var parts := TokenComponents(Tokens(template, ctx));
            var path := ResolveSubpath(template, ctx).path;
            && |path| == |parts|
            && (k < |parts| ==> SanitizeComponent(Substitute(parts[k], SafeFolder(ctx).value)) == Some(path[k]))
  {
    var folder := SafeFolder(ctx).value;
    SanitizedIsClean(ctx.folderName);
    ExpandIsSubstitute(template, ctx, folder);
    ComponentsOfSubstitute(Tokens(template, ctx), folder);
    SanitizeAllAt(Components(Expand(template, ctx, folder)), k);
  }

  /** A template without the folder name gives the same prefix for every folder. */
  lemma PrefixIndependent(template: seq<Piece>, ctx: Context, folder: string)
    requires FolderName !in template
    requires SanitizeComponent(ctx.folderName).Some? && SanitizeComponent(folder).Some?
    ensures ResolveSubpath(template, ctx) == ResolveSubpath(template, ctx.(folderName := folder))
  {
    ExpandIgnoresFolder(template, ctx, folder);
  }

  lemma {:induction false} ExpandIgnoresFolder(template: seq<Piece>, ctx: Context, folder: string)
    requires FolderName !in template
    ensures forall f, g :: Expand(template, ctx, f) == Expand(template, ctx.(folderName := folder), g)
  {
    if template != [] {
      ExpandIgnoresFolder(template[1..], ctx, folder);
    }
  }

  /**
   Two confirmed folder names that a folder-dependent template cannot tell apart differ by
   exactly one leading underscore (the one added in front of a reserved Windows name).
   */
  lemma PrefixCollapse(template: seq<Piece>, ctx: Context, folder: string)
    requires FolderName in template
    requires IsClean(ctx.folderName) && IsClean(folder)
    requires ResolveSubpath(template, ctx).Prefix?
    requires ResolveSubpath(template, ctx) == ResolveSubpath(template, ctx.(folderName := folder))
    ensures ctx.folderName == folder || UnderscoreVariant(ctx.folderName, folder)
  {
    var other := ctx.(folderName := folder);
    TokensIgnoreFolder(template, ctx, folder);
    ExpandIsSubstitute(template, ctx, folder);
    var parts := TokenComponents(Tokens(template, ctx));
    var k := FolderComponent(Tokens(template, ctx));
    PrefixParts(template, ctx, k);
    PrefixParts(template, other, k);
    ComponentCollapse(parts[k], ctx.folderName, folder);
  }

  /** The collapse does happen: `COM` and `_COM` under the template `{playlist.folder_name}1`. */
  lemma PrefixCollapseWitness(ctx: Context, other: string)
    requires ctx.folderName == "COM" && other == "_" + ctx.folderName
    ensures IsClean(ctx.folderName) && IsClean(other)
    ensures ResolveSubpath([FolderName, Literal("1")], ctx) == Prefix([other + "1"])
    ensures ResolveSubpath([FolderName, Literal("1")], ctx.(folderName := other)) == Prefix([other + "1"])
  {
    NumberedPort(ctx.folderName);
    NumberedUnderscore(other);
    ResolveNumbered(ctx);
    ResolveNumbered(ctx.(folderName := other));
    assert other + "1" == "_" + (ctx.folderName + "1");
  }

  lemma NumberedPort(f: string)
    requires f == "COM"
    ensures IsClean(f) && SanitizeRelativePath(f + "1") == Some(["_" + (f + "1")])
  {
    PlainName(f);
    PlainName(f + "1");
    assert (f + "1")[..3] == f;
    SingleSafePart(f + "1", "_" + (f + "1"));
  }

  lemma NumberedUnderscore(f: string)
    requires f == "_COM"
    ensures IsClean(f) && SanitizeRelativePath(f + "1") == Some([f + "1"])
  {
    UnderscoreName(f);
    UnderscoreName(f + "1");
    SingleSafePart(f + "1", f + "1");
  }

  lemma ResolveNumbered(ctx: Context)
    requires IsClean(ctx.folderName)
    ensures ResolveSubpath([FolderName, Literal("1")], ctx) ==
            match SanitizeRelativePath(ctx.folderName + "1") case None => LayoutError case Some(p) => Prefix(p)
  {
    var template := [FolderName, Literal("1")];
    assert template[1..] == [Literal("1")] && template[1..][1..] == [];
    assert Expand(template[1..], ctx, ctx.folderName) == "1";
  }

  lemma PlainName(s: string)
    requires s != "" && forall k :: 0 <= k < |s| ==> ('A' <= s[k] <= 'Z' || '0' <= s[k] <= '9')
    ensures SanitizeComponent(s) == Some(if IsReserved(s) then "_" + s else s)
  {
    PlainStem(s);
    ScrubKeepsTidy(s);
  }

  lemma UnderscoreName(s: string)
    requires |s| > 1 && s[0] == '_' && forall k :: 0 < k < |s| ==> ('A' <= s[k] <= 'Z' || '0' <= s[k] <= '9')
    ensures IsClean(s)
  {
    ScrubKeepsTidy(s);
    UnderscoreIsNotReserved(s);
  }

  lemma {:induction false} PlainStem(s: string)
    requires forall k :: 0 <= k < |s| ==> ('A' <= s[k] <= 'Z' || '0' <= s[k] <= '9')
    ensures Stem(s) == s && Upper(s) == s
  {
    if s != "" {
      PlainStem(s[1..]);
      assert s == [s[0]] + s[1..];
    }
  }

  lemma SingleSafePart(s: string, safe: string)
    requires |s| > 2 && s[1] != ':' && SanitizeComponent(s) == Some(safe)
    requires forall k :: 0 <= k < |s| ==> !IsSeparator(s[k])
    ensures SanitizeRelativePath(s) == Some([safe])
  {
    OneComponent(s);
    assert IsRelative(s);
    assert SanitizeAll([s]) == Some([safe]) by {
      assert [s][1..] == [] && SanitizeAll([s][1..]) == Some([]);
      assert [safe] + [] == [safe];
    }
  }

  // ---- moving a path from one prefix to another ----

  /** PurePosixPath.relative_to followed by re-joining; None when the path is not below the old prefix. */
  function ReplacePrefix(path: Path, oldPrefix: Path, newPrefix: Path): Option<Path> {
    if oldPrefix <= path then Some(newPrefix + path[|oldPrefix|..]) else None
  }

  /** Between distinct prefixes of one depth a path moves once, reversibly, and never maps onto its source. */
  lemma ReplacePrefixOnce(path: Path, oldPrefix: Path, newPrefix: Path)
    requires |oldPrefix| == |newPrefix| && oldPrefix != newPrefix && oldPrefix <= path
    ensures var moved := ReplacePrefix(path, oldPrefix, newPrefix).value;
            && moved != path
            && ReplacePrefix(moved, oldPrefix, newPrefix) == None
            && ReplacePrefix(moved, newPrefix, oldPrefix) == Some(path)
  {
    var moved := newPrefix + path[|oldPrefix|..];
    assert moved[..|newPrefix|] == newPrefix;
    assert moved[|newPrefix|..] == path[|oldPrefix|..];
    assert path == oldPrefix + path[|oldPrefix|..];
  }
}
