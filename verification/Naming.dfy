/**
 Folder names and relative paths made safe for Windows and SMB
 (src/sluicery/core/naming.py). Unicode NFC is taken as the identity, so names are
 restricted to characters that normalisation leaves alone.
 */
module Naming {
  import opened Common

  /** A relative POSIX path as its components; it never holds an empty component. */
  type Path = seq<string>

  /** CON, PRN, AUX, NUL and the numbered COM and LPT ports. */
  predicate IsReserved(s: string) {
    || (|s| == 3 && (s == "CON" || s == "PRN" || s == "AUX" || s == "NUL"))
    || (|s| == 4 && (s[..3] == "COM" || s[..3] == "LPT") && '1' <= s[3] <= '9')
  }

  predicate IsControl(c: char) { c < ' ' || c == '\U{7f}' }

  predicate IsForbidden(c: char) {
    c == '\\' || c == '/' || c == ':' || c == '*' || c == '?' || c == '"' || c == '<' || c == '>' || c == '|'
  }

  predicate IsStrippable(c: char) { c == ' ' || c == '.' }

  predicate IsSeparator(c: char) { c == '/' || c == '\\' }

  /** Drops control characters and replaces forbidden ones by `_`. */
  function Scrub(s: string): string {
    if s == "" then ""
    else if IsControl(s[0]) then Scrub(s[1..])
    else [if IsForbidden(s[0]) then '_' else s[0]] + Scrub(s[1..])
  }

  function StripRight(s: string): string {
    if s != "" && IsStrippable(s[|s| - 1]) then StripRight(s[..|s| - 1]) else s
  }

  /** The text before the first dot. */
  function Stem(s: string): string {
    if s == "" || s[0] == '.' then "" else [s[0]] + Stem(s[1..])
  }

  function Upper(s: string): string {
    if s == "" then ""
    else [if 'a' <= s[0] <= 'z' then (s[0] as int - 32) as char else s[0]] + Upper(s[1..])
  }

  predicate HasReservedStem(s: string) { IsReserved(Upper(Stem(s))) }

  function Escape(s: string): string {
    if HasReservedStem(s) then "_" + s else s
  }

  /** One path component, or None where sluicery raises NamingValidationError. */
  function SanitizeComponent(value: string): Option<string> {
    var stripped := StripRight(Scrub(value));
    if stripped == "" then None else Some(Escape(stripped))
  }

  /** A name the sanitizer leaves alone: what every confirmed folder name is. */
  predicate IsClean(s: string) { SanitizeComponent(s) == Some(s) }

  /** Splits at `/`, after `\` has been normalised to `/`. */
  function Components(s: string): (r: seq<string>)
    ensures |r| > 0
  {
    if s == "" then [""]
    else
      var rest := Components(s[1..]);
      if IsSeparator(s[0]) then [""] + rest else [[s[0]] + rest[0]] + rest[1..]
  }

  predicate HasDrive(s: string) {
    |s| >= 2 && ('A' <= s[0] <= 'Z' || 'a' <= s[0] <= 'z') && s[1] == ':'
  }

  /** Absolute paths start with a separator, so they have an empty first component. */
  predicate IsRelative(s: string) {
    s != "" && !HasDrive(s) && forall part <- Components(s) :: part != "" && part != "." && part != ".."
  }

  function SanitizeAll(parts: seq<string>): Option<Path> {
    if parts == [] then Some([])
    else
      match (SanitizeComponent(parts[0]), SanitizeAll(parts[1..]))
      case (Some(first), Some(rest)) => Some([first] + rest)
      case _ => None
  }

  function SanitizeRelativePath(value: string): Option<Path> {
    if IsRelative(value) then SanitizeAll(Components(value)) else None
  }

  // ---- what the sanitizer guarantees ----

  lemma {:induction false} SanitizeAllAt(parts: seq<string>, k: nat)
    requires SanitizeAll(parts).Some?
    ensures |SanitizeAll(parts).value| == |parts|
    ensures k < |parts| ==> SanitizeComponent(parts[k]) == Some(SanitizeAll(parts).value[k])
  {
    if parts != [] {
      SanitizeAllAt(parts[1..], if k > 0 then k - 1 else 0);
    }
  }

  ghost predicate Tidy(s: string) {
    (forall c <- s :: !IsControl(c) && !IsForbidden(c)) && (s != "" ==> !IsStrippable(s[|s| - 1]))
  }

  lemma {:induction false} ScrubIsTidy(s: string)
    ensures forall c <- Scrub(s) :: !IsControl(c) && !IsForbidden(c)
  {
    if s != "" {
      ScrubIsTidy(s[1..]);
    }
  }

  lemma {:induction false} StripRightIsTidy(s: string)
    requires forall c <- s :: !IsControl(c) && !IsForbidden(c)
    ensures Tidy(StripRight(s))
  {
    if s != "" && IsStrippable(s[|s| - 1]) {
      StripRightIsTidy(s[..|s| - 1]);
    }
  }

  lemma {:induction false} ScrubKeepsTidy(s: string)
    requires forall c <- s :: !IsControl(c) && !IsForbidden(c)
    ensures Scrub(s) == s
  {
    if s != "" {
      ScrubKeepsTidy(s[1..]);
      assert s == [s[0]] + s[1..];
    }
  }

  lemma UnderscoreIsNotReserved(s: string)
    requires s != "" && s[0] == '_'
    ensures !HasReservedStem(s)
  {
    assert Stem(s)[0] == '_';
    assert Upper(Stem(s))[0] == '_';
  }

  /** Sanitizing is idempotent, and its result holds no separator: a folder name is one component. */
  lemma SanitizedIsClean(value: string)
    requires SanitizeComponent(value).Some?
    ensures IsClean(SanitizeComponent(value).value)
    ensures Tidy(SanitizeComponent(value).value) && SanitizeComponent(value).value != ""
    ensures Components(SanitizeComponent(value).value) == [SanitizeComponent(value).value]
  {
    var stripped := StripRight(Scrub(value));
    ScrubIsTidy(value);
    StripRightIsTidy(Scrub(value));
    var r := Escape(stripped);
    assert Tidy(r);
    ScrubKeepsTidy(r);
    if HasReservedStem(stripped) {
      UnderscoreIsNotReserved(r);
    }
    OneComponent(r);
  }

  lemma {:induction false} OneComponent(s: string)
    requires forall c <- s :: !IsSeparator(c)
    ensures Components(s) == [s]
  {
    if s != "" {
      OneComponent(s[1..]);
      assert s == [s[0]] + s[1..];
    }
  }

  lemma CleanIsTidy(s: string)
    requires IsClean(s)
    ensures Tidy(s) && s != "" && Scrub(s) == s && StripRight(s) == s && !HasReservedStem(s)
  {
    SanitizedIsClean(s);
    ScrubKeepsTidy(s);
  }

  /** Which names the sanitizer leaves alone: tidy ones without a reserved stem. */
  lemma CleanExactly(s: string)
    ensures IsClean(s) <==> s != "" && Tidy(s) && !HasReservedStem(s)
  {
    if IsClean(s) {
      CleanIsTidy(s);
    } else if s != "" && Tidy(s) {
      ScrubKeepsTidy(s);
    }
  }
}
