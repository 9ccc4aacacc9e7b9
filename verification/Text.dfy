/** Strings and distinguished names, as far as the connector looks inside them. */
module Text {

  datatype Option<+T> = None | Some(value: T)

  function LowerChar(c: char): char {
    if 'A' <= c <= 'Z' then (c as int + 32) as char else c
  }

  /** Case folding of the ASCII letters. */
  function Lower(s: string): string {
    seq(|s|, i requires 0 <= i < |s| => LowerChar(s[i]))
  }

  /** `s.split(sep)[0]`: everything before the first separator. */
  function Before(s: string, sep: char): string {
    if s == "" || s[0] == sep then "" else [s[0]] + Before(s[1..], sep)
  }

  /** A DN is the list of its RDNs, the leaf first. */
  datatype Rdn = Rdn(attr: string, value: string)
  type Dn = seq<Rdn>

  predicate IsContainer(r: Rdn, attr: string, value: string) {
    Lower(r.attr) == attr && Lower(r.value) == value
  }

  /** The first `ou=` RDN of a DN that has a value. */
  function SchoolOuFromDn(dn: Dn): Option<string> {
    if dn == [] then None
    else if Lower(dn[0].attr) == "ou" && dn[0].value != "" then Some(dn[0].value)
    else SchoolOuFromDn(dn[1..])
  }

  const UNSYNCABLE_CN_PREFIXES: seq<string> :=
    ["Domain Users ", "schueler-", "lehrer-", "sorgeberechtigte-", "mitarbeiter-"]

  /** Groups that never enter the cache: ouadmins groups, and the Domain Users
      and role groups that sit directly under an OU's `cn=groups`. */
  predicate UnsyncableGroupDn(dn: Dn) {
    || (exists i :: 0 < i < |dn| - 1 && IsContainer(dn[i], "cn", "ouadmins"))
    || (|dn| >= 2
        && IsContainer(dn[1], "cn", "groups")
        && exists p :: p in UNSYNCABLE_CN_PREFIXES && p <= dn[0].value)
  }

  /** Case-insensitive glob match: `*` stands for any run of characters. */
  predicate GlobMatchesCi(pattern: string, s: string) {
    if pattern == "" then s == ""
    else if pattern[0] == '*' then
      GlobMatchesCi(pattern[1..], s) || (s != "" && GlobMatchesCi(pattern, s[1..]))
    else s != "" && LowerChar(pattern[0]) == LowerChar(s[0]) && GlobMatchesCi(pattern[1..], s[1..])
  }

  const WINDOWS_INVALID_CHARS := "<>:\"/\\|?*"
  const WINDOWS_RESERVED_NAMES: seq<string> :=
    ["con", "prn", "aux", "nul",
     "com0", "com1", "com2", "com3", "com4", "com5", "com6", "com7", "com8", "com9",
     "lpt0", "lpt1", "lpt2", "lpt3", "lpt4", "lpt5", "lpt6", "lpt7", "lpt8", "lpt9"]

  predicate ValidUserName(name: string) {
    && 0 < |name| <= 255
    && (forall i :: 0 <= i < |name| ==> name[i] !in WINDOWS_INVALID_CHARS && 32 <= name[i] as int)
    && name[|name| - 1] != ' ' && name[|name| - 1] != '.'
    && Lower(Before(name, '.')) !in WINDOWS_RESERVED_NAMES
  }

  predicate IsAlphanumeric(c: char) {
    'a' <= c <= 'z' || 'A' <= c <= 'Z' || '0' <= c <= '9'
  }

  /** The pattern tolerates one trailing line feed, as `$` does. */
  predicate ValidSchoolName(name: string) {
    ValidSchoolText(if |name| > 1 && name[|name| - 1] == '\n' then name[..|name| - 1] else name)
  }

  predicate ValidSchoolText(s: string) {
    && s != ""
    && IsAlphanumeric(s[0]) && IsAlphanumeric(s[|s| - 1])
    && forall i :: 0 <= i < |s| ==> IsAlphanumeric(s[i]) || s[i] == '-' || s[i] == '_'
  }
}
