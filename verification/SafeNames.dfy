/**
 The sanitizer and the relative paths said of the characters themselves (src/sluicery/core/naming.py).
 */
module SafeNames {
  import opened Common
  import opened Naming
  import Layout

  const FORBIDDEN := "\\/:*?\"<>|"

  const RESERVED: set<string> := {
    "CON", "PRN", "AUX", "NUL", "COM1", "COM2", "COM3", "COM4", "COM5", "COM6", "COM7", "COM8", "COM9",
    "LPT1", "LPT2", "LPT3", "LPT4", "LPT5", "LPT6", "LPT7", "LPT8", "LPT9"}

  ghost predicate Control(c: char) { (c as int) < 32 || (c as int) == 127 }

  /** The same but for the case of its letters. */
  ghost predicate SameLetters(s: string, capitals: string) {
    |s| == |capitals|
    && forall k :: 0 <= k < |s| ==>
         s[k] == capitals[k] || ('a' <= s[k] <= 'z' && (s[k] as int) == (capitals[k] as int) + 32)
  }

  ghost predicate NoDot(s: string) { forall k :: 0 <= k < |s| ==> s[k] != '.' }

  /** What stands before the first dot is a reserved name. */
  ghost predicate ReservedAt(s: string, n: nat, name: string) {
    n <= |s| && NoDot(s[..n]) && (n < |s| ==> s[n] == '.') && name in RESERVED && SameLetters(s[..n], name)
  }

  ghost predicate Reserved(s: string) { exists n: nat, name :: ReservedAt(s, n, name) }

  // ---- reserved names ----

  lemma {:induction false} StemIs(s: string, n: nat)
    requires n <= |s| && NoDot(s[..n]) && (n < |s| ==> s[n] == '.')
    ensures Stem(s) == s[..n]
  {
    if n > 0 {
      assert s[0] == s[..n][0] && s[1..][..n - 1] == s[..n][1..];
      assert NoDot(s[..n][1..]);
      StemIs(s[1..], n - 1);
      assert s[..n] == [s[0]] + s[1..][..n - 1];
    }
  }

  lemma {:induction false} StemSplits(s: string) returns (n: nat)
    ensures n <= |s| && NoDot(s[..n]) && (n < |s| ==> s[n] == '.') && Stem(s) == s[..n]
  {
    if s == "" || s[0] == '.' {
      n := 0;
    } else {
      var m := StemSplits(s[1..]);
      n := m + 1;
      assert s[..n] == [s[0]] + s[1..][..m];
    }
  }

  lemma {:induction false} UpperIs(s: string)
    ensures |Upper(s)| == |s|
    ensures forall k :: 0 <= k < |s| ==>
              Upper(s)[k] == if 'a' <= s[k] <= 'z' then ((s[k] as int) - 32) as char else s[k]
  {
    if s != "" {
      UpperIs(s[1..]);
    }
  }

  /** A name in capitals is reserved exactly when it is on the list. */
  lemma ListedExactly(s: string)
    ensures IsReserved(s) <==> s in RESERVED
  {
    if |s| == 4 {
      var d := s[3];
      assert s == s[..3] + [d];
      assert s[..3] == "COM" ==> s == ['C', 'O', 'M', d];
      assert s[..3] == "LPT" ==> s == ['L', 'P', 'T', d];
      assert '1' <= d <= '9' ==> d in "123456789";
    }
  }

  lemma NoSmallLetters(name: string)
    requires name in RESERVED
    ensures forall k :: 0 <= k < |name| ==> !('a' <= name[k] <= 'z')
  {
  }

  lemma ReservedExactly(s: string)
    ensures HasReservedStem(s) <==> Reserved(s)
  {
    var n := StemSplits(s);
    UpperIs(s[..n]);
    ListedExactly(Upper(s[..n]));
    if HasReservedStem(s) {
      NoSmallLetters(Upper(s[..n]));
      assert ReservedAt(s, n, Upper(s[..n]));
    }
    if m: nat, name :| ReservedAt(s, m, name) {
      StemIs(s, m);
      UpperIs(s[..m]);
      CapitalsAre(s[..m], name);
      assert Stem(s) == s[..m] && Upper(Stem(s)) == name;
      ListedExactly(name);
    }
  }

  lemma CapitalsAre(s: string, name: string)
    requires name in RESERVED && SameLetters(s, name)
    ensures Upper(s) == name
  {
    UpperIs(s);
    NoSmallLetters(name);
  }

  // ---- one component ----

  /** Exactly these names are left alone. */
  lemma CleanLiterally(s: string)
    ensures IsClean(s)
            <==> && s != "" && s[|s| - 1] != ' ' && s[|s| - 1] != '.' && !Reserved(s)
                 && forall k :: 0 <= k < |s| ==> !Control(s[k]) && s[k] !in FORBIDDEN
  {
    CleanExactly(s);
    ReservedExactly(s);
    forall k | 0 <= k < |s|
      ensures IsForbidden(s[k]) <==> s[k] in FORBIDDEN
      ensures s[k] in s
    {
    }
  }

  lemma {:induction false} ScrubAt(s: string)
    requires forall k :: 0 <= k < |s| ==> !Control(s[k])
    ensures |Scrub(s)| == |s|
    ensures forall k :: 0 <= k < |s| ==> Scrub(s)[k] == if s[k] in FORBIDDEN then '_' else s[k]
  {
    if s != "" {
      ScrubAt(s[1..]);
    }
  }

  /**
   Of a text without control characters, blanks or dots at its end every forbidden character becomes "_" and every
   other stays; and a "_" goes before a reserved name.
   */
  lemma SanitizedLiterally(s: string, body: string)
    requires s != "" && s[|s| - 1] != ' ' && s[|s| - 1] != '.' && forall k :: 0 <= k < |s| ==> !Control(s[k])
    requires |body| == |s| && forall k :: 0 <= k < |s| ==> body[k] == if s[k] in FORBIDDEN then '_' else s[k]
    ensures SanitizeComponent(s) == Some(if Reserved(body) then "_" + body else body)
  {
    ScrubAt(s);
    assert Scrub(s) == body;
    ReservedExactly(body);
  }

  /** Control characters do not count, wherever they stand. */
  lemma ControlIgnored(a: string, c: char, b: string)
    requires Control(c)
    ensures SanitizeComponent(a + [c] + b) == SanitizeComponent(a + b)
  {
    Layout.ScrubConcat(a + [c], b);
    Layout.ScrubConcat(a, [c]);
    Layout.ScrubConcat(a, b);
    assert [c][1..] == "";
    assert Scrub(a) + "" == Scrub(a);
  }

  /** Neither do blanks and dots at the end; and without anything else there is no name. */
  lemma EndIgnored(a: string, c: char)
    requires c == ' ' || c == '.'
    ensures SanitizeComponent(a + [c]) == SanitizeComponent(a) && SanitizeComponent("") == None
  {
    Layout.ScrubConcat(a, [c]);
    assert [c][1..] == "" && Scrub([c]) == [c];
    assert (Scrub(a) + [c])[..|Scrub(a)|] == Scrub(a);
  }

  // ---- relative paths ----

  /** The parts with a separator between each two. */
  function Slashed(parts: seq<string>): string
    requires parts != []
  {
    if |parts| == 1 then parts[0] else parts[0] + "/" + Slashed(parts[1..])
  }

  ghost predicate OnePart(s: string) { forall k :: 0 <= k < |s| ==> s[k] != '/' && s[k] != '\\' }

  ghost predicate NamesDrive(s: string) {
    |s| >= 2 && ('A' <= s[0] <= 'Z' || 'a' <= s[0] <= 'z') && s[1] == ':'
  }

  lemma {:induction false} PartsOf(parts: seq<string>)
    requires parts != [] && forall k :: 0 <= k < |parts| ==> OnePart(parts[k])
    ensures Components(Slashed(parts)) == parts
  {
    assert OnePart(parts[0]);
    if |parts| == 1 {
      OneComponent(parts[0]);
    } else {
      var rest := Slashed(parts[1..]);
      PartsOf(parts[1..]);
      assert Slashed(parts) == parts[0] + ("/" + rest);
      Layout.PrependComponent(parts[0], "/" + rest);
      assert ("/" + rest)[1..] == rest && Components("/" + rest) == [""] + parts[1..];
      assert parts[0] + "" == parts[0] && parts == [parts[0]] + parts[1..];
    }
  }

  /**
   A path is taken exactly when it names no drive and each of its parts has a safe form and is neither empty nor a
   dot or two; then it is the path of those forms.
   */
  lemma RelativeExactly(parts: seq<string>, safe: Path)
    requires parts != [] && |safe| == |parts| && forall k :: 0 <= k < |parts| ==> OnePart(parts[k])
    requires forall k :: 0 <= k < |parts| && SanitizeComponent(parts[k]).Some?
                         ==> SanitizeComponent(parts[k]) == Some(safe[k])
    ensures SanitizeRelativePath(Slashed(parts))
         == if !NamesDrive(Slashed(parts))
               && forall k :: 0 <= k < |parts| ==>
                    parts[k] != "" && parts[k] != "." && parts[k] != ".." && SanitizeComponent(parts[k]).Some?
            then Some(safe) else None
  {
    PartsOf(parts);
    AllSafe(parts, safe);
    assert Slashed(parts) == "" ==> parts[0] == "";
    forall k | 0 <= k < |parts|
      ensures parts[k] in parts
    {
    }
  }

  lemma {:induction false} AllSafe(parts: seq<string>, safe: Path)
    requires |safe| == |parts|
    requires forall k :: 0 <= k < |parts| && SanitizeComponent(parts[k]).Some?
                         ==> SanitizeComponent(parts[k]) == Some(safe[k])
    ensures SanitizeAll(parts)
         == if forall k :: 0 <= k < |parts| ==> SanitizeComponent(parts[k]).Some? then Some(safe) else None
  {
    if parts != [] {
      AllSafe(parts[1..], safe[1..]);
      assert safe == [safe[0]] + safe[1..];
      assert (forall k :: 0 <= k < |parts| ==> SanitizeComponent(parts[k]).Some?)
          <==> SanitizeComponent(parts[0]).Some?
               && forall k :: 0 <= k < |parts[1..]| ==> SanitizeComponent(parts[1..][k]).Some? by {
        assert forall k :: 0 < k < |parts| ==> parts[k] == parts[1..][k - 1];
      }
    }
  }

  /** A backslash separates as a slash does. */
  lemma BackslashSeparates(a: string, b: string)
    requires !NamesDrive(a + "\\" + b)
    ensures SanitizeRelativePath(a + "\\" + b) == SanitizeRelativePath(a + "/" + b)
  {
    SameParts(a, b);
    var s, t := a + "\\" + b, a + "/" + b;
    assert |s| == |t| && forall k :: 0 <= k < |s| && k != |a| ==> s[k] == t[k];
  }

  lemma {:induction false} SameParts(a: string, b: string)
    ensures Components(a + "\\" + b) == Components(a + "/" + b)
  {
    if a == "" {
      assert (a + "\\" + b)[1..] == b == (a + "/" + b)[1..];
    } else {
      SameParts(a[1..], b);
      assert (a + "\\" + b)[1..] == a[1..] + "\\" + b;
      assert (a + "/" + b)[1..] == a[1..] + "/" + b;
    }
  }
}
