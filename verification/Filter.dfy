/** LDAP filters: trees, their string form (section 3 of RFC 4515) and the parser. */
module Filter {
  import opened Text

  /** `kind` is one of `&`, `|` and `!` in filters that mean something; the
      printer and the tree walk accept any. */
  datatype Filter =
    | Conjunction(kind: char, filters: seq<Filter>)
    | Expression(variable: string, value: string, operator: string, escape: bool)

  datatype Error = EmptyFilter | InvalidSyntax | CannotUnpack

  datatype Result<+T> = Ok(value: T) | Err(error: Error)

  /******* Printing *******/

  function EscapedChar(c: char): string {
    if c == '\\' then "\\5c"
    else if c == '*' then "\\2a"
    else if c == '(' then "\\28"
    else if c == ')' then "\\29"
    else if c == '\0' then "\\00"
    else [c]
  }

  function Escaped(s: string): string {
    if s == "" then "" else EscapedChar(s[0]) + Escaped(s[1..])
  }

  function Shown(s: string, escape: bool): string {
    if escape then Escaped(s) else s
  }

  function Join(parts: seq<string>): string {
    if parts == [] then "" else parts[0] + Join(parts[1..])
  }

  function Leaf(variable: string, operator: string, value: string): string {
    "(" + (variable + operator + value) + ")"
  }

  function Str(f: Filter): string {
    match f
    case Conjunction(kind, filters) =>
      if filters == [] then "" else "(" + [kind] + Join(StrAll(filters)) + ")"
    case Expression(_, _, operator, escape) =>
      var variable, value := Shown(f.variable, escape), Shown(f.value, escape);
      if operator == "<=" then Leaf(variable, "<=", value)
      else if operator == "<" then "(!" + Leaf(variable, ">=", value) + ")"
      else if operator == ">=" then Leaf(variable, ">=", value)
      else if operator == ">" then "(!" + Leaf(variable, "<=", value) + ")"
      else if operator == "!=" then "(!" + Leaf(variable, "=", value) + ")"
      else Leaf(variable, "=", value)
  }

  function StrAll(filters: seq<Filter>): (r: seq<string>)
    ensures |r| == |filters|
    ensures forall i :: 0 <= i < |r| ==> r[i] == Str(filters[i])
  {
    if filters == [] then [] else [Str(filters[0])] + StrAll(filters[1..])
  }

  /******* Parsing *******/

  /** The text of the top-level groups from here on, at a depth, inside a group
      whose text so far is `open`. */
  function Groups(rest: string, depth: int, open: Option<string>): seq<string> {
    if rest == "" then []
    else if rest[0] == '(' then
      Groups(rest[1..], depth + 1, if depth == 0 then Some("(") else Extended(open, '('))
    else if rest[0] == ')' then
      if depth == 1 && open.Some? then [open.value + ")"] + Groups(rest[1..], 0, None)
      else Groups(rest[1..], depth - 1, Extended(open, ')'))
    else Groups(rest[1..], depth, Extended(open, rest[0]))
  }

  function Extended(open: Option<string>, c: char): Option<string> {
    if open.Some? then Some(open.value + [c]) else None
  }

  method Split(s: string) returns (groups: seq<string>)
    ensures groups == Groups(s, 0, None)
  {
    groups := [];
    var depth, begin := 0, -1;
    for i := 0 to |s|
      invariant -1 <= begin < i || begin == -1
      invariant groups + Groups(s[i..], depth, if begin == -1 then None else Some(s[begin..i])) == Groups(s, 0, None)
    {
      assert s[i..][1..] == s[i + 1..];
      ghost var open := if begin == -1 then None else Some(s[begin..i]);
      ghost var before := groups;
      assert begin > -1 ==> s[begin..i + 1] == s[begin..i] + [s[i]];
      if s[i] == '(' {
        depth := depth + 1;
        if depth == 1 {
          begin := i;
          assert s[begin..i + 1] == "(";
        }
      } else if s[i] == ')' {
        depth := depth - 1;
        if depth == 0 && begin > -1 {
          groups := groups + [s[begin..i + 1]];
          assert before + ([s[begin..i + 1]] + Groups(s[i + 1..], 0, None)) == groups + Groups(s[i + 1..], 0, None);
          begin := -1;
        }
      }
    }
  }

  /** Every group is shorter than the text together with what is open. */
  lemma {:induction false} GroupsAreShort(rest: string, depth: int, open: Option<string>)
    requires open.Some? ==> open.value != ""
    ensures forall g :: g in Groups(rest, depth, open) ==>
              0 < |g| <= |rest| + if open.Some? then |open.value| else 0
    decreases |rest|
  {
    if rest != "" {
      if rest[0] == '(' {
        GroupsAreShort(rest[1..], depth + 1, if depth == 0 then Some("(") else Extended(open, '('));
      } else if rest[0] == ')' {
        if depth == 1 && open.Some? {
          GroupsAreShort(rest[1..], 0, None);
        } else {
          GroupsAreShort(rest[1..], depth - 1, Extended(open, ')'));
        }
      } else {
        GroupsAreShort(rest[1..], depth, Extended(open, rest[0]));
      }
    }
  }

  predicate Occurs(s: string, d: string, i: nat) {
    i + |d| <= |s| && s[i..i + |d|] == d
  }

  /** Where `d` occurs first. */
  function Find(s: string, d: string): (r: Option<nat>)
    ensures r.None? ==> forall i: nat :: !Occurs(s, d, i)
    ensures r.Some? ==> Occurs(s, d, r.value) && forall i: nat :: i < r.value ==> !Occurs(s, d, i)
  {
    FindFrom(s, d, 0)
  }

  function FindFrom(s: string, d: string, from: nat): (r: Option<nat>)
    requires forall i: nat :: i < from ==> !Occurs(s, d, i)
    ensures r.None? ==> forall i: nat :: !Occurs(s, d, i)
    ensures r.Some? ==> Occurs(s, d, r.value) && forall i: nat :: i < r.value ==> !Occurs(s, d, i)
    decreases |s| - from
  {
    if Occurs(s, d, from) then Some(from)
    else if from >= |s| then None
    else FindFrom(s, d, from + 1)
  }

  /** `s.split(d, 1)` unpacked into two parts. */
  function SplitOnce(s: string, d: string): Option<(string, string)> {
    match Find(s, d)
    case None => None
    case Some(i) => Some((s[..i], s[i + |d|..]))
  }

  function Delimiter(s: string): string {
    if Find(s, "<=").Some? then "<=" else if Find(s, ">=").Some? then ">=" else "="
  }

  /** The text without its enclosing parentheses. */
  function Stripped(s: string): (r: string)
    requires s != ""
    ensures |r| <= |s|
  {
    if s[0] == '(' && s[|s| - 1] == ')' then s[1..|s| - 1] else s
  }

  predicate IsKind(c: char) { c == '&' || c == '|' || c == '!' }

  /** What `filter_s[begin]` looks at: for `()` that is the closing parenthesis. */
  function Start(s: string): char
    requires s != ""
  {
    if s[0] == '(' && s[|s| - 1] == ')' then s[1] else s[0]
  }

  function Parsed(s: string): Result<Filter>
    decreases |s|, 1, 0
  {
    if s == "" then Err(EmptyFilter)
    else if IsKind(Start(s)) then
      var body := Stripped(s)[1..];
      GroupsAreShort(body, 0, None);
      match ParsedAll(Groups(body, 0, None), |s|)
      case Err(e) => Err(e)
      case Ok(filters) => Ok(Conjunction(Start(s), filters))
    else if Find(s, "=").None? then Err(InvalidSyntax)
    else
      match SplitOnce(Stripped(s), Delimiter(s))
      case None => Err(CannotUnpack)
      case Some(parts) => Ok(Expression(parts.0, parts.1, Delimiter(s), false))
  }

  function ParsedAll(texts: seq<string>, n: nat): Result<seq<Filter>>
    requires forall t :: t in texts ==> |t| < n
    decreases n, 0, |texts|
  {
    if texts == [] then Ok([])
    else
      match Parsed(texts[0])
      case Err(e) => Err(e)
      case Ok(f) =>
        match ParsedAll(texts[1..], n)
        case Err(e) => Err(e)
        case Ok(rest) => Ok([f] + rest)
  }

  /** The parser, with its indices. The first part that raises ends it. */
  method Parse(s: string) returns (r: Result<Filter>)
    ensures r == Parsed(s)
    decreases |s|
  {
    hide Groups, Find, Delimiter, SplitOnce;
    if s == "" {
      return Err(EmptyFilter);
    }
    var begin, end := 0, |s| - 1;
    if s[begin] == '(' && s[end] == ')' {
      begin, end := begin + 1, end - 1;
    }
    assert s[begin..end + 1] == Stripped(s);
    if s[begin] == '&' || s[begin] == '|' || s[begin] == '!' {
      var kind := s[begin];
      begin := begin + 1;
      assert s[begin..end + 1] == Stripped(s)[1..];
      GroupsAreShort(Stripped(s)[1..], 0, None);
      var groups := Split(s[begin..end + 1]);
      var filters: seq<Filter> := [];
      assert groups[0..] == groups && forall rest: seq<Filter> :: [] + rest == rest;
      for i := 0 to |groups|
        invariant ParsedAll(groups, |s|) ==
                  match ParsedAll(groups[i..], |s|)
                  case Err(e) => Err(e)
                  case Ok(rest) => Ok(filters + rest)
      {
        assert groups[i..] == [groups[i]] + groups[i + 1..];
        var f := Parse(groups[i]);
        if f.Err? {
          return Err(f.error);
        }
        assert forall rest: seq<Filter> :: filters + ([f.value] + rest) == (filters + [f.value]) + rest;
        filters := filters + [f.value];
      }
      assert groups[|groups|..] == [] && filters + [] == filters;
      r := Ok(Conjunction(kind, filters));
    } else {
      if Find(s, "=").None? {
        return Err(InvalidSyntax);
      }
      var delim := Delimiter(s);
      var parts := SplitOnce(s[begin..end + 1], delim);
      r := if parts.None? then Err(CannotUnpack) else Ok(Expression(parts.value.0, parts.value.1, delim, false));
    }
  }
}
