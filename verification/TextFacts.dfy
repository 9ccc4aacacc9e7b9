/** What the text functions mean, without naming how they compute it. */
module TextFacts {
  import opened Text

  /******* Letter case *******/

  const CAPITALS := "ABCDEFGHIJKLMNOPQRSTUVWXYZ"
  const SMALL := "abcdefghijklmnopqrstuvwxyz"

  /** The same character, or a capital and its small letter. */
  predicate SameLetter(a: char, b: char) {
    a == b || exists i :: 0 <= i < 26 && ((a == CAPITALS[i] && b == SMALL[i]) || (a == SMALL[i] && b == CAPITALS[i]))
  }

  predicate SameLetters(a: string, b: string) {
    |a| == |b| && forall i :: 0 <= i < |a| ==> SameLetter(a[i], b[i])
  }

  lemma AlphabetAt(i: nat)
    requires i < 26
    ensures CAPITALS[i] as int == 65 + i && SMALL[i] as int == 97 + i
  {
  }

  lemma SameLetterIff(a: char, b: char)
    ensures LowerChar(a) == LowerChar(b) <==> SameLetter(a, b)
  {
    forall i | 0 <= i < 26 ensures CAPITALS[i] as int == 65 + i && SMALL[i] as int == 97 + i {
      AlphabetAt(i);
    }
    if LowerChar(a) == LowerChar(b) && a != b {
      var i := LowerChar(a) as int - 97;
      assert 0 <= i < 26;
      assert CAPITALS[i] as int == 65 + i && SMALL[i] as int == 97 + i;
    }
  }

  /** Folding makes two texts equal exactly when they differ in case only, and
      leaves no capital. */
  lemma LowerIff(a: string, b: string)
    ensures Lower(a) == Lower(b) <==> SameLetters(a, b)
    ensures forall i :: 0 <= i < |Lower(a)| ==> Lower(a)[i] !in CAPITALS
    ensures SameLetters(a, Lower(a))
  {
    forall i | 0 <= i < |a| ensures SameLetter(a[i], Lower(a)[i]) && Lower(a)[i] !in CAPITALS {
      LowerCharIs(a[i]);
    }
    forall i | 0 <= i < |a| && i < |b| ensures Lower(a)[i] == Lower(b)[i] <==> SameLetter(a[i], b[i]) {
      SameLetterIff(a[i], b[i]);
    }
    if SameLetters(a, b) {
      assert Lower(a) == Lower(b);
    }
    if Lower(a) == Lower(b) {
      assert |Lower(a)| == |a| && |Lower(b)| == |b|;
    }
  }

  lemma LowerCharIs(c: char)
    ensures SameLetter(c, LowerChar(c)) && LowerChar(c) !in CAPITALS
  {
    forall i | 0 <= i < 26 ensures CAPITALS[i] as int == 65 + i && SMALL[i] as int == 97 + i {
      AlphabetAt(i);
    }
    if 'A' <= c <= 'Z' {
      var i := c as int - 65;
      assert 0 <= i < 26 && c == CAPITALS[i] && LowerChar(c) == SMALL[i];
    }
  }

  /** The text up to the first separator, or the whole text. */
  lemma {:induction false} BeforeIs(s: string, sep: char)
    ensures sep !in Before(s, sep) && Before(s, sep) <= s
    ensures Before(s, sep) == s || s[|Before(s, sep)|] == sep
  {
    if s != "" && s[0] != sep {
      BeforeIs(s[1..], sep);
      assert s == [s[0]] + s[1..];
    }
  }

  predicate IsOu(r: Rdn) {
    r.attr in {"ou", "oU", "Ou", "OU"} && r.value != ""
  }

  /** The value of the first `ou=` RDN with a value. */
  ghost predicate LiesIn(dn: Dn, ou: string) {
    exists i :: 0 <= i < |dn| && IsOu(dn[i]) && dn[i].value == ou && forall j :: 0 <= j < i ==> !IsOu(dn[j])
  }

  lemma OuAttribute(s: string)
    ensures Lower(s) == "ou" <==> s in {"ou", "oU", "Ou", "OU"}
  {
    if Lower(s) == "ou" {
      assert |Lower(s)| == |s| == 2 && Lower(s)[0] == LowerChar(s[0]) && Lower(s)[1] == LowerChar(s[1]);
      assert "ou"[0] == 'o' && "ou"[1] == 'u';
      assert s == [s[0], s[1]];
    }
    if s in {"ou", "oU", "Ou", "OU"} {
      assert |s| == 2;
      assert Lower(s) == [LowerChar(s[0]), LowerChar(s[1])];
    }
  }

  lemma {:induction false} SchoolOuIff(dn: Dn, ou: string)
    ensures SchoolOuFromDn(dn) == Some(ou) <==> LiesIn(dn, ou)
  {
    if dn != [] {
      OuAttribute(dn[0].attr);
      SchoolOuIff(dn[1..], ou);
      if IsOu(dn[0]) {
        assert LiesIn(dn, ou) <==> dn[0].value == ou;
      } else {
        LiesInRest(dn, ou);
      }
    }
  }

  lemma LiesInRest(dn: Dn, ou: string)
    requires dn != [] && !IsOu(dn[0])
    ensures LiesIn(dn, ou) <==> LiesIn(dn[1..], ou)
  {
    hide IsOu;
    var rest := dn[1..];
    if LiesIn(dn, ou) {
      var i :| 0 <= i < |dn| && IsOu(dn[i]) && dn[i].value == ou && forall j :: 0 <= j < i ==> !IsOu(dn[j]);
      assert rest[i - 1] == dn[i] && forall j :: 0 <= j < i - 1 ==> rest[j] == dn[j + 1];
    }
    if LiesIn(rest, ou) {
      var i :| 0 <= i < |rest| && IsOu(rest[i]) && rest[i].value == ou && forall j :: 0 <= j < i ==> !IsOu(rest[j]);
      assert dn[i + 1] == rest[i] && forall j :: 0 < j < i + 1 ==> dn[j] == rest[j - 1];
    }
  }

  /** The text splits into a match of the one and a match of the other. */
  ghost predicate SplitMatch(a: string, b: string, s: string, i: int) {
    0 <= i <= |s| && GlobMatchesCi(a, s[..i]) && GlobMatchesCi(b, s[i..])
  }

  /** A pattern that is two patterns matches what splits into their matches. */
  lemma {:induction false} GlobOfTwo(a: string, b: string, s: string)
    ensures GlobMatchesCi(a + b, s) <==> exists i :: SplitMatch(a, b, s, i)
    decreases |a|, |s|
  {
    if a == "" {
      assert a + b == b && s[..0] == "" && s[0..] == s;
      assert SplitMatch(a, b, s, 0) <==> GlobMatchesCi(b, s);
      assert forall i :: SplitMatch(a, b, s, i) ==> i == 0;
    } else {
      assert (a + b)[1..] == a[1..] + b && (a + b)[0] == a[0];
      if a[0] == '*' {
        GlobOfTwo(a[1..], b, s);
        if s != "" {
          GlobOfTwo(a, b, s[1..]);
        }
        StarSplits(a, b, s);
      } else if s != "" {
        GlobOfTwo(a[1..], b, s[1..]);
        LetterSplits(a, b, s);
      }
    }
  }

  lemma LetterSplits(a: string, b: string, s: string)
    requires a != "" && a[0] != '*' && s != ""
    ensures (exists i :: SplitMatch(a, b, s, i)) <==>
              LowerChar(a[0]) == LowerChar(s[0]) && exists i :: SplitMatch(a[1..], b, s[1..], i)
  {
    forall i | 0 <= i <= |s[1..]|
      ensures SplitMatch(a, b, s, i + 1) <==> LowerChar(a[0]) == LowerChar(s[0]) && SplitMatch(a[1..], b, s[1..], i)
    {
      assert s[..i + 1][1..] == s[1..][..i] && s[i + 1..] == s[1..][i..];
    }
    assert !SplitMatch(a, b, s, 0);
    if i :| SplitMatch(a, b, s, i) {
      assert SplitMatch(a[1..], b, s[1..], i - 1);
    }
    if LowerChar(a[0]) == LowerChar(s[0]) {
      if i :| SplitMatch(a[1..], b, s[1..], i) {
        assert SplitMatch(a, b, s, i + 1);
      }
    }
  }

  lemma StarSplits(a: string, b: string, s: string)
    requires a != "" && a[0] == '*'
    ensures (exists i :: SplitMatch(a, b, s, i)) <==>
              || (exists i :: SplitMatch(a[1..], b, s, i))
              || (s != "" && exists i :: SplitMatch(a, b, s[1..], i))
  {
    if i :| SplitMatch(a[1..], b, s, i) {
      assert SplitMatch(a, b, s, i);
    }
    if s != "" {
      forall i | 0 <= i <= |s[1..]|
        ensures s[..i + 1][1..] == s[1..][..i] && s[i + 1..] == s[1..][i..]
      {
      }
      if i :| SplitMatch(a, b, s[1..], i) {
        assert SplitMatch(a, b, s, i + 1);
      }
    }
    if i :| SplitMatch(a, b, s, i) {
      if !GlobMatchesCi(a[1..], s[..i]) {
        assert i > 0 && SplitMatch(a, b, s[1..], i - 1);
      } else {
        assert SplitMatch(a[1..], b, s, i);
      }
    }
  }

  /** One character of a pattern: `*` matches any text, another one itself. */
  lemma GlobOfOne(c: char, s: string)
    ensures GlobMatchesCi([c], s) <==> c == '*' || (|s| == 1 && SameLetter(c, s[0]))
    ensures GlobMatchesCi("", s) <==> s == ""
    decreases |s|
  {
    assert [c][1..] == "";
    if s != "" {
      SameLetterIff(c, s[0]);
      if c == '*' {
        GlobOfOne(c, s[1..]);
      }
    }
  }

  /** The references that are skipped, spelled out. */
  lemma UnsyncableIff(dn: Dn)
    ensures UnsyncableGroupDn(dn) <==>
              || (exists i :: 0 < i < |dn| - 1 && SameLetters(dn[i].attr, "cn") && SameLetters(dn[i].value, "ouadmins"))
              || (|dn| >= 2 && SameLetters(dn[1].attr, "cn") && SameLetters(dn[1].value, "groups")
                  && ("Domain Users " <= dn[0].value || "schueler-" <= dn[0].value || "lehrer-" <= dn[0].value
                      || "sorgeberechtigte-" <= dn[0].value || "mitarbeiter-" <= dn[0].value))
  {
    SmallIsFolded("cn");
    SmallIsFolded("ouadmins");
    SmallIsFolded("groups");
    forall r: Rdn
      ensures IsContainer(r, "cn", "ouadmins") <==> SameLetters(r.attr, "cn") && SameLetters(r.value, "ouadmins")
      ensures IsContainer(r, "cn", "groups") <==> SameLetters(r.attr, "cn") && SameLetters(r.value, "groups")
    {
      LowerIff(r.attr, "cn");
      LowerIff(r.value, "ouadmins");
      LowerIff(r.value, "groups");
    }
    hide Lower, LowerChar, SameLetters, IsContainer;
    PrefixIff(if dn == [] then "" else dn[0].value);
  }

  lemma PrefixIff(v: string)
    ensures (exists p :: p in UNSYNCABLE_CN_PREFIXES && p <= v) <==>
              || "Domain Users " <= v || "schueler-" <= v || "lehrer-" <= v || "sorgeberechtigte-" <= v || "mitarbeiter-" <= v
  {
    var prefixes := UNSYNCABLE_CN_PREFIXES;
    assert |prefixes| == 5 && prefixes[0] == "Domain Users " && prefixes[1] == "schueler-" && prefixes[2] == "lehrer-"
        && prefixes[3] == "sorgeberechtigte-" && prefixes[4] == "mitarbeiter-";
    assert forall i :: 0 <= i < 5 ==> prefixes[i] in prefixes;
    if p :| p in prefixes && p <= v {
      var i :| 0 <= i < |prefixes| && prefixes[i] == p;
    }
  }

  lemma SmallIsFolded(s: string)
    requires forall i :: 0 <= i < |s| ==> !('A' <= s[i] <= 'Z')
    ensures Lower(s) == s
  {
  }

  const DIGITS := "0123456789"

  /** The part before the first full stop is a device name, letter case aside. */
  ghost predicate NamesDevice(name: string) {
    exists n :: 0 <= n <= |name| && '.' !in name[..n] && (n == |name| || name[n] == '.') && IsDevice(name[..n])
  }

  ghost predicate IsDevice(stem: string) {
    || SameLetters(stem, "CON") || SameLetters(stem, "PRN") || SameLetters(stem, "AUX") || SameLetters(stem, "NUL")
    || (|stem| == 4 && stem[3] in DIGITS && (SameLetters(stem[..3], "COM") || SameLetters(stem[..3], "LPT")))
  }

  /** A user name that can be a directory name on Windows. */
  ghost predicate GoodUserName(name: string) {
    && name != "" && |name| <= 255
    && (forall c :: c in name ==> c !in "<>:/\\|?*" && c != '"' && c as int >= 32)
    && name[|name| - 1] != ' ' && name[|name| - 1] != '.'
    && !NamesDevice(name)
  }

  lemma FoldedDevice(stem: string, device: string, folded: string)
    requires Lower(device) == folded
    ensures Lower(stem) == folded <==> SameLetters(stem, device)
  {
    LowerIff(stem, device);
  }

  lemma WordsFold()
    ensures Lower("CON") == "con" && Lower("PRN") == "prn" && Lower("AUX") == "aux" && Lower("NUL") == "nul"
    ensures Lower("COM") == "com" && Lower("LPT") == "lpt"
  {
  }

  lemma NumberedDevice(stem: string, device: string, folded: string)
    requires |device| == 3 && Lower(device) == folded
    ensures (exists d :: d in DIGITS && Lower(stem) == folded + [d])
      <==> |stem| == 4 && stem[3] in DIGITS && SameLetters(stem[..3], device)
  {
    LowerIff(stem[..if |stem| < 3 then |stem| else 3], device);
    assert |folded| == 3;
    if |stem| == 4 {
      assert Lower(stem) == Lower(stem[..3]) + [LowerChar(stem[3])];
      assert stem[3] in DIGITS ==> LowerChar(stem[3]) == stem[3] by { DigitsFold(stem[3]); }
      assert LowerChar(stem[3]) in DIGITS ==> LowerChar(stem[3]) == stem[3] by { DigitsFold(stem[3]); }
      assert forall d :: Lower(stem[..3]) + [LowerChar(stem[3])] == folded + [d] <==>
               Lower(stem[..3]) == folded && LowerChar(stem[3]) == d by {
        forall d ensures Lower(stem[..3]) + [LowerChar(stem[3])] == folded + [d] <==>
                           Lower(stem[..3]) == folded && LowerChar(stem[3]) == d {
          assert (folded + [d])[..3] == folded && (folded + [d])[3] == d;
          assert (Lower(stem[..3]) + [LowerChar(stem[3])])[..3] == Lower(stem[..3]);
        }
      }
    }
  }

  lemma DigitsFold(c: char)
    ensures c in DIGITS ==> LowerChar(c) == c
    ensures LowerChar(c) in DIGITS ==> LowerChar(c) == c
  {
    assert forall d :: d in DIGITS ==> '0' <= d <= '9';
  }

  function Numbered(device: string): seq<string> {
    seq(10, i requires 0 <= i < 10 => device + [DIGITS[i]])
  }

  lemma ReservedParts()
    ensures WINDOWS_RESERVED_NAMES == ["con", "prn", "aux", "nul"] + Numbered("com") + Numbered("lpt")
  {
    var parts := ["con", "prn", "aux", "nul"] + Numbered("com") + Numbered("lpt");
    assert |WINDOWS_RESERVED_NAMES| == 24 == |parts|;
    forall i | 0 <= i < 24 ensures WINDOWS_RESERVED_NAMES[i] == parts[i] {
    }
  }

  lemma NumberedIff(device: string, folded: string)
    ensures folded in Numbered(device) <==> exists d :: d in DIGITS && folded == device + [d]
  {
    var names := Numbered(device);
    if folded in names {
      var i :| 0 <= i < 10 && names[i] == folded;
      assert DIGITS[i] in DIGITS && folded == device + [DIGITS[i]];
    }
    if d :| d in DIGITS && folded == device + [d] {
      var i :| 0 <= i < |DIGITS| && DIGITS[i] == d;
      assert names[i] == folded;
    }
  }

  lemma ReservedIff(folded: string)
    ensures folded in WINDOWS_RESERVED_NAMES <==>
              || folded == "con" || folded == "prn" || folded == "aux" || folded == "nul"
              || (exists d :: d in DIGITS && folded == "com" + [d])
              || (exists d :: d in DIGITS && folded == "lpt" + [d])
  {
    hide WINDOWS_RESERVED_NAMES, Numbered, DIGITS;
    ReservedParts();
    NumberedIff("com", folded);
    NumberedIff("lpt", folded);
    var base := ["con", "prn", "aux", "nul"];
    assert base[0] in base && base[1] in base && base[2] in base && base[3] in base;
  }

  lemma DeviceIff(stem: string)
    ensures Lower(stem) in WINDOWS_RESERVED_NAMES <==> IsDevice(stem)
  {
    hide WINDOWS_RESERVED_NAMES, Lower, SameLetters, DIGITS;
    WordsFold();
    ReservedIff(Lower(stem));
    FoldedDevice(stem, "CON", "con");
    FoldedDevice(stem, "PRN", "prn");
    FoldedDevice(stem, "AUX", "aux");
    FoldedDevice(stem, "NUL", "nul");
    NumberedDevice(stem, "COM", "com");
    NumberedDevice(stem, "LPT", "lpt");
  }

  lemma UserNameIff(name: string)
    ensures ValidUserName(name) <==> GoodUserName(name)
  {
    hide WINDOWS_RESERVED_NAMES, Lower, IsDevice, WINDOWS_INVALID_CHARS;
    StemIff(name);
    InvalidCharIff();
    if forall i :: 0 <= i < |name| ==> name[i] !in WINDOWS_INVALID_CHARS && 32 <= name[i] as int {
      assert forall c :: c in name ==> c !in WINDOWS_INVALID_CHARS && 32 <= c as int;
    }
    assert forall i :: 0 <= i < |name| ==> name[i] in name;
  }

  lemma InvalidCharIff()
    ensures forall c :: c in WINDOWS_INVALID_CHARS <==> c in "<>:/\\|?*" || c == '"'
  {
  }

  lemma StemIff(name: string)
    ensures Lower(Before(name, '.')) in WINDOWS_RESERVED_NAMES <==> NamesDevice(name)
  {
    hide WINDOWS_RESERVED_NAMES, Lower, IsDevice;
    BeforeIs(name, '.');
    var stem := Before(name, '.');
    DeviceIff(stem);
    assert name[..|stem|] == stem;
    forall n | 0 <= n <= |name| && '.' !in name[..n] && (n == |name| || name[n] == '.') ensures n == |stem| {
      FirstSeparator(name, '.', n, |stem|);
    }
  }

  /** There is only one first separator. */
  lemma FirstSeparator(s: string, sep: char, n: nat, m: nat)
    requires n <= |s| && sep !in s[..n] && (n == |s| || s[n] == sep)
    requires m <= |s| && sep !in s[..m] && (m == |s| || s[m] == sep)
    ensures n == m
  {
    assert forall k :: 0 <= k < n ==> s[..n][k] == s[k];
    assert forall k :: 0 <= k < m ==> s[..m][k] == s[k];
  }

  /** Letters and digits with dashes inside, and one line feed at most after. */
  ghost predicate GoodSchoolName(name: string) {
    exists s :: GoodSchoolText(s) && (name == s || name == s + "\n")
  }

  ghost predicate GoodSchoolText(s: string) {
    && s != "" && (forall c :: c in s ==> c in CAPITALS || c in SMALL || c in DIGITS || c == '-' || c == '_')
    && s[0] !in "-_" && s[|s| - 1] !in "-_"
  }

  lemma AlphanumericIff(c: char)
    ensures IsAlphanumeric(c) <==> c in CAPITALS || c in SMALL || c in DIGITS
    ensures IsAlphanumeric(c) ==> c != '-' && c != '_'
  {
    forall i | 0 <= i < 26 ensures CAPITALS[i] as int == 65 + i && SMALL[i] as int == 97 + i {
      AlphabetAt(i);
    }
    if 'a' <= c <= 'z' { assert SMALL[c as int - 97] == c; }
    if 'A' <= c <= 'Z' { assert CAPITALS[c as int - 65] == c; }
    DigitsAre();
    if '0' <= c <= '9' { assert DIGITS[c as int - 48] == c; }
  }

  lemma DigitsAre()
    ensures |DIGITS| == 10 && forall i :: 0 <= i < 10 ==> DIGITS[i] as int == 48 + i
  {
  }

  lemma SchoolNameIff(name: string)
    ensures ValidSchoolName(name) <==> GoodSchoolName(name)
  {
    hide CAPITALS, SMALL, DIGITS;
    var s := if |name| > 1 && name[|name| - 1] == '\n' then name[..|name| - 1] else name;
    assert name == s || name == s + "\n";
    SchoolTextIff(s);
    if GoodSchoolName(name) {
      var t :| GoodSchoolText(t) && (name == t || name == t + "\n");
      SchoolTextIff(t);
      NoLineFeed();
      assert (t + "\n")[..|t|] == t && (t + "\n")[|t|] == '\n';
      assert t == s;
    }
  }

  lemma SchoolTextIff(s: string)
    ensures GoodSchoolText(s) <==> ValidSchoolText(s)
    ensures s != "" && IsAlphanumeric(s[|s| - 1]) <== GoodSchoolText(s)
  {
    hide IsAlphanumeric, CAPITALS, SMALL, DIGITS;
    forall c: char
      ensures IsAlphanumeric(c) <==> c in CAPITALS || c in SMALL || c in DIGITS
      ensures IsAlphanumeric(c) ==> c != '-' && c != '_'
    {
      AlphanumericIff(c);
    }
    if s != "" {
      assert s[0] in s && s[|s| - 1] in s;
    }
    assert forall i :: 0 <= i < |s| ==> s[i] in s;
  }

  lemma NoLineFeed()
    ensures !IsAlphanumeric('\n')
  {
  }
}
